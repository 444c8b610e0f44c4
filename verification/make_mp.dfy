/**
 * The bookkeeping of `core/make_mp.py` as a sequential state machine:
 * `_collect_rules` gathers the closure of the requested rules and the
 * reverse edges `b2a`, and `get_job` / `set_result` run Kahn's algorithm
 * over a counter of unfinished dependencies per rule. The threads, the
 * condition variable and the process pool are not modelled; `running`
 * stands for the jobs the workers hold between the two calls.
 */
module MakeMp {
  import opened Wrappers
  import opened Topo
  import opened Make

  // ---------------------------------------------------------------------------
  // _collect_rules

  /** Rule `x` lists `d` among its dependencies. */
  predicate DependsOn(g: Graph, x: nat, d: nat) {
    x < |g| && d in g[x]
  }

  /** `b2a[d]` of the `defaultdict(set)`: an absent key reads as empty. */
  function Get(b2a: map<nat, seq<nat>>, d: nat): seq<nat> {
    if d in b2a then b2a[d] else []
  }

  /** `for dep in deps: b2a[dep].add(n)`: `n` becomes a dependent of each of `ds`. */
  function Link(b2a: map<nat, seq<nat>>, ds: seq<nat>, n: nat): (r: map<nat, seq<nat>>)
    ensures forall d, x :: x in Get(r, d) <==> x in Get(b2a, d) || (x == n && d in ds)
    decreases |ds|
  {
    if ds == [] then b2a
    else Link(b2a[ds[0] := Get(b2a, ds[0]) + [n]], ds[1..], n)
  }

  /** Each `b2a[d]` stays free of repeats, since `n` is new and `ds` is a set. */
  lemma {:induction false} LinkNoDup(b2a: map<nat, seq<nat>>, ds: seq<nat>, n: nat)
    requires NoDup(ds)
    requires forall d :: NoDup(Get(b2a, d))
    requires forall d :: d in ds ==> n !in Get(b2a, d)
    ensures forall d :: NoDup(Get(Link(b2a, ds, n), d))
    decreases |ds|
  {
    if ds != [] {
      var b1 := b2a[ds[0] := Get(b2a, ds[0]) + [n]];
      forall d ensures NoDup(Get(b1, d)) {
        assert NoDup(Get(b2a, d));
        if d == ds[0] {
          assert ds[0] in ds;
          AppendNoDup(Get(b2a, d), n);
          assert Get(b1, d) == Get(b2a, d) + [n];
        } else {
          assert Get(b1, d) == Get(b2a, d);
        }
      }
      forall d | d in ds[1..] ensures n !in Get(b1, d) {
        var tail := ds[1..];
        var k :| 0 <= k < |tail| && tail[k] == d;
        assert ds[k + 1] == d && ds[0] != ds[k + 1];
        assert d in ds;
        assert Get(b1, d) == Get(b2a, d);
      }
      assert NoDup(ds[1..]);
      LinkNoDup(b1, ds[1..], n);
    }
  }

  lemma AppendNoDup(s: seq<nat>, n: nat)
    requires NoDup(s) && n !in s
    ensures NoDup(s + [n])
  {
  }

  /** The reverse edges of the first `j` collected rules. */
  function Gather(g: Graph, ids: seq<nat>, j: nat): (b2a: map<nat, seq<nat>>)
    requires ValidIds(g, ids) && j <= |ids|
    ensures forall d, x :: x in Get(b2a, d) <==> x in ids[..j] && DependsOn(g, x, d)
  {
    if j == 0 then map[]
    else
      assert ids[..j] == ids[..j - 1] + [ids[j - 1]];
      Link(Gather(g, ids, j - 1), g[ids[j - 1]], ids[j - 1])
  }

  lemma {:induction false} GatherNoDup(g: Graph, ids: seq<nat>, j: nat)
    requires ValidIds(g, ids) && j <= |ids| && Simple(g) && NoDup(ids)
    ensures forall d :: NoDup(Get(Gather(g, ids, j), d))
  {
    if j > 0 {
      GatherNoDup(g, ids, j - 1);
      var n := ids[j - 1];
      forall d | d in g[n] ensures n !in Get(Gather(g, ids, j - 1), d) {
        assert n !in ids[..j - 1];
      }
      LinkNoDup(Gather(g, ids, j - 1), g[n], n);
    }
  }

  datatype Collected = Collected(ids: seq<nat>, b2a: map<nat, seq<nat>>)

  /**
   * `_collect_rules(id2rule, seed_ids)`. The rules are listed in the order
   * of the depth-first walk, which visits the same rules as `find_deps`;
   * the source returns them as `list(set)`, whose order is not fixed.
   */
  function CollectRules(g: Graph, seeds: seq<nat>): (r: Collected)
    requires Valid(g) && ValidIds(g, seeds)
    ensures NoDup(r.ids) && ValidIds(g, r.ids)
    ensures forall k :: 0 <= k < |seeds| ==> seeds[k] in r.ids
    ensures Closed(g, Elems(r.ids))
    ensures forall d, x :: x in Get(r.b2a, d) <==> x in r.ids && DependsOn(g, x, d)
  {
    var ids := TopoSort(g, seeds);
    assert ids[..|ids|] == ids;
    Collected(ids, Gather(g, ids, |ids|))
  }

  /** Nothing outside the dependency closure of the seeds is collected. */
  lemma CollectIsClosure(g: Graph, seeds: seq<nat>, x: nat)
    requires Valid(g) && ValidIds(g, seeds)
    ensures x in CollectRules(g, seeds).ids <==>
      forall t: set<nat> :: Closed(g, t) && (forall k :: 0 <= k < |seeds| ==> seeds[k] in t) ==> x in t
  {
    TopoSortIsClosure(g, seeds, x);
  }

  // ---------------------------------------------------------------------------
  // The state shared by `get_job` and `set_result`

  /**
   * `dep_cnt`, `job_q`, `nidles`, `stop`, `summary` and `updated_ids`;
   * `running` holds the ids `get_job` handed out and `set_result` has not
   * yet seen.
   */
  datatype Mp = Mp(depCnt: map<nat, int>, queue: seq<nat>, nidles: int, stop: bool,
                   summary: map<nat, SummaryKey>, updated: set<nat>, running: set<nat>)

  /** A key under which dependents may proceed. */
  predicate Passed(k: SummaryKey) {
    k == KUpdate || k == KSkip
  }

  function OkSet(summary: map<nat, SummaryKey>): set<nat> {
    set n | n in summary && Passed(summary[n])
  }

  /** How many of the dependencies `ds` have not passed. */
  function Pending(ds: seq<nat>, ok: set<nat>): (r: nat)
    ensures r <= |ds|
  {
    if ds == [] then 0 else (if ds[0] in ok then 0 else 1) + Pending(ds[1..], ok)
  }

  lemma {:induction false} PendingZero(ds: seq<nat>, ok: set<nat>)
    ensures Pending(ds, ok) == 0 <==> Elems(ds) <= ok
  {
    if ds != [] {
      PendingZero(ds[1..], ok);
      assert Elems(ds) == {ds[0]} + Elems(ds[1..]);
    }
  }

  /** The position of a dependency that has not passed, when some has not. */
  lemma {:induction false} PendingWitness(ds: seq<nat>, ok: set<nat>) returns (k: nat)
    requires Pending(ds, ok) > 0
    ensures k < |ds| && ds[k] !in ok
  {
    if ds[0] in ok {
      k := PendingWitness(ds[1..], ok);
      k := k + 1;
    } else {
      k := 0;
    }
  }

  lemma {:induction false} PendingEmpty(ds: seq<nat>)
    ensures Pending(ds, {}) == |ds|
  {
    if ds != [] {
      PendingEmpty(ds[1..]);
    }
  }

  /** One more dependency passing lowers the count by one exactly when it is listed. */
  lemma {:induction false} PendingStep(ds: seq<nat>, ok: set<nat>, d: nat)
    requires NoDup(ds) && d !in ok
    ensures Pending(ds, ok + {d}) == Pending(ds, ok) - (if d in ds then 1 else 0)
  {
    if ds != [] {
      assert NoDup(ds[1..]);
      PendingStep(ds[1..], ok, d);
      if ds[0] == d {
        assert d !in ds[1..];
      }
      assert d in ds <==> d == ds[0] || d in ds[1..];
    }
  }

  /** The ids of `ids` with no dependencies, in order: the initial `job_q`. */
  function Leaves(g: Graph, ids: seq<nat>): (q: seq<nat>)
    requires ValidIds(g, ids)
    ensures forall x :: x in q <==> x in ids && x < |g| && |g[x]| == 0
    ensures NoDup(ids) ==> NoDup(q)
  {
    if ids == [] then []
    else
      var rest := Leaves(g, ids[1..]);
      assert NoDup(ids) ==> ids[0] !in ids[1..];
      if |g[ids[0]]| == 0 then [ids[0]] + rest else rest
  }

  /** `dep_cnt = {i: len(id2rule[i].deps) for i in ids}`. */
  function Counts(g: Graph, ids: seq<nat>): (cnt: map<nat, int>)
    requires ValidIds(g, ids)
    ensures cnt.Keys == Elems(ids)
    ensures forall x :: x in cnt ==> x < |g| && cnt[x] == |g[x]|
  {
    InRange(g, ids);
    map x | x in Elems(ids) :: |g[x]|
  }

  lemma InRange(g: Graph, ids: seq<nat>)
    requires ValidIds(g, ids)
    ensures forall x :: x in ids ==> x < |g|
  {
    forall x | x in ids ensures x < |g| {
      var k :| 0 <= k < |ids| && ids[k] == x;
    }
  }

  /** The state before the workers start: every slot idle, the leaves queued. */
  function Init(g: Graph, ids: seq<nat>, njobs: int): (st: Mp)
    requires ValidIds(g, ids)
    ensures st.nidles == njobs && !st.stop && st.summary == map[] && st.running == {}
    ensures forall x :: x in ids ==> x in st.depCnt && x < |g| && st.depCnt[x] == |g[x]|
    ensures forall x :: x in st.queue <==> x in ids && x < |g| && |g[x]| == 0
  {
    Mp(Counts(g, ids), Leaves(g, ids), njobs, false, map[], {}, {})
  }

  // ---------------------------------------------------------------------------
  // get_job and set_result

  /** What `get_job` tells a worker: run rule `id`, quit, or wait on the condition. */
  datatype Job = Job(id: nat) | NoJob | Wait

  /** `get_job()`, one pass of its loop; the assertion on `nidles` is an `Err`. */
  function GetJob(st: Mp, njobs: int): (r: Result<(Job, Mp)>)
    ensures st.stop ==> r == Ok((NoJob, st))
    ensures !st.stop && |st.queue| == 0 ==> r == Ok((if st.nidles == njobs then NoJob else Wait, st))
    ensures !st.stop && |st.queue| > 0 ==>
      if st.nidles < 1 then r == Err(AssertionError)
      else
        && r.Ok? && r.value.0 == Job(st.queue[|st.queue| - 1])
        && r.value.1 == st.(queue := st.queue[..|st.queue| - 1], nidles := st.nidles - 1,
                            running := st.running + {st.queue[|st.queue| - 1]})
  {
    if st.stop then Ok((NoJob, st))
    else if |st.queue| != 0 then
      var i := st.queue[|st.queue| - 1];
      if st.nidles - 1 < 0 then Err(AssertionError)
      else Ok((Job(i), st.(queue := st.queue[..|st.queue| - 1], nidles := st.nidles - 1, running := st.running + {i})))
    else if st.nidles == njobs then Ok((NoJob, st))
    else Ok((Wait, st))
  }

  /**
   * The loop over `b2a[i]`: each dependent's counter drops by one, and one
   * that reaches zero is queued. A missing counter is a `KeyError`, a
   * negative one the failed assertion.
   */
  function Release(cnt: map<nat, int>, q: seq<nat>, nxts: seq<nat>): (r: Result<(map<nat, int>, seq<nat>)>)
    decreases |nxts|
  {
    if nxts == [] then Ok((cnt, q))
    else
      var n := nxts[0];
      if n !in cnt then Err(KeyError)
      else if cnt[n] - 1 < 0 then Err(AssertionError)
      else Release(cnt[n := cnt[n] - 1], if cnt[n] - 1 == 0 then q + [n] else q, nxts[1..])
  }

  /** When every dependent still waits on some dependency, the release succeeds and queues exactly those whose last dependency this was. */
  lemma {:induction false} ReleaseOk(cnt: map<nat, int>, q: seq<nat>, nxts: seq<nat>)
    requires NoDup(nxts) && NoDup(q)
    requires forall n :: n in nxts ==> n in cnt && cnt[n] >= 1 && n !in q
    ensures Release(cnt, q, nxts).Ok?
    ensures var (c, q') := Release(cnt, q, nxts).value;
      && c.Keys == cnt.Keys
      && (forall n :: n in c ==> c[n] == if n in nxts then cnt[n] - 1 else cnt[n])
      && (forall n :: n in q' <==> n in q || (n in nxts && cnt[n] == 1))
      && NoDup(q')
    decreases |nxts|
  {
    if nxts != [] {
      var n := nxts[0];
      var c1 := cnt[n := cnt[n] - 1];
      var q1 := if cnt[n] - 1 == 0 then q + [n] else q;
      assert NoDup(nxts[1..]);
      forall m | m in nxts[1..] ensures m in c1 && c1[m] >= 1 && m !in q1 {
        assert m != n;
      }
      ReleaseOk(c1, q1, nxts[1..]);
      assert forall m :: m in nxts <==> m == n || m in nxts[1..];
    }
  }

  /** `set_result(i, res)`; `res == None` is the fatal error a worker reports. */
  function SetResult(b2a: map<nat, seq<nat>>, keepGoing: bool, njobs: int, st: Mp, i: nat, res: Option<Outcome>): (r: Result<Mp>)
    ensures st.nidles + 1 > njobs ==> r == Err(AssertionError)
    ensures r.Ok? ==> r.value.nidles == st.nidles + 1 && r.value.running == st.running - {i}
    ensures r.Ok? ==> r.value.summary.Keys == st.summary.Keys + {i}
    ensures r.Ok? ==> r.value.stop == (st.stop || res.None? || (res == Some(Fail) && !keepGoing))
    ensures r.Ok? ==> (Passed(r.value.summary[i]) <==> res.Some? && res.value != Fail)
    ensures r.Ok? ==> (r.value.summary[i] == KUpdate <==> res == Some(Update))
    ensures r.Ok? && !Passed(r.value.summary[i]) ==> r.value.depCnt == st.depCnt && r.value.queue == st.queue
    ensures r.Ok? ==> forall n :: n in st.summary && n != i ==> n in r.value.summary && r.value.summary[n] == st.summary[n]
  {
    var st1 := st.(nidles := st.nidles + 1, running := st.running - {i});
    if st1.nidles > njobs then Err(AssertionError)
    else match res
      case None => Ok(st1.(summary := st1.summary[i := KFail], stop := true))
      case Some(o) =>
        if o == Fail then
          Ok(st1.(summary := st1.summary[i := KFail], stop := st1.stop || !keepGoing))
        else
          var st2 := st1.(updated := if o == Update then st1.updated + {i} else st1.updated,
                          summary := st1.summary[i := if o == Update then KUpdate else KSkip]);
          var rel :- Release(st2.depCnt, st2.queue, Get(b2a, i));
          Ok(st2.(depCnt := rel.0, queue := rel.1))
  }

  // ---------------------------------------------------------------------------
  // The invariant of the bookkeeping

  /** What `_collect_rules` guarantees about `ids` and `b2a`, on a graph whose deps are sets. */
  ghost predicate Static(g: Graph, ids: seq<nat>, b2a: map<nat, seq<nat>>) {
    && Valid(g) && Simple(g) && ValidIds(g, ids) && NoDup(ids) && Closed(g, Elems(ids))
    && (forall d, x :: x in Get(b2a, d) <==> x in ids && DependsOn(g, x, d))
    && (forall d :: NoDup(Get(b2a, d)))
  }

  /** Idle slots and held jobs add up to `njobs`. */
  predicate Slots(njobs: int, st: Mp) {
    0 <= st.nidles && st.nidles + |st.running| == njobs
  }

  /** A collected rule is queued, held by a worker or reported, at most one of these. */
  predicate Places(ids: seq<nat>, st: Mp) {
    && NoDup(st.queue)
    && (forall x :: x in st.queue ==> x in ids && x !in st.running && x !in st.summary)
    && (forall x :: x in st.running ==> x in ids && x !in st.summary)
    && (forall x :: x in st.summary ==> x in ids)
  }

  /** `dep_cnt[x]` counts the dependencies of `x` that have not passed. */
  predicate Counted(g: Graph, ids: seq<nat>, st: Mp) {
    forall x :: x in ids ==> x < |g| && x in st.depCnt && st.depCnt[x] == Pending(g[x], OkSet(st.summary))
  }

  /** A rule has left the waiting state exactly when all its dependencies passed. */
  predicate Released(g: Graph, ids: seq<nat>, st: Mp) {
    forall x :: x in ids && x < |g| ==>
      (Pending(g[x], OkSet(st.summary)) == 0 <==> x in st.queue || x in st.running || x in st.summary)
  }

  /** `updated_ids` are the rules reported "update", nothing is reported "discard" yet, and `stop` follows a reported failure. */
  predicate Tally(st: Mp) {
    && st.updated == WithKey(st.summary, KUpdate)
    && WithKey(st.summary, KDiscard) == {}
    && (st.stop ==> WithKey(st.summary, KFail) != {})
  }

  /** The part of the invariant about the changing state. */
  predicate Live(g: Graph, ids: seq<nat>, njobs: int, st: Mp) {
    Slots(njobs, st) && Places(ids, st) && Counted(g, ids, st) && Released(g, ids, st) && Tally(st)
  }

  ghost predicate Bookkeeping(g: Graph, ids: seq<nat>, b2a: map<nat, seq<nat>>, njobs: int, st: Mp) {
    Static(g, ids, b2a) && Live(g, ids, njobs, st)
  }

  lemma SimpleRow(g: Graph, x: nat)
    requires Simple(g) && x < |g|
    ensures NoDup(g[x])
  {
  }

  /** The state `make_mp_spawn` sets up satisfies the invariant. */
  lemma InitKeeps(g: Graph, seeds: seq<nat>, njobs: int)
    requires Valid(g) && Simple(g) && ValidIds(g, seeds) && njobs >= 0
    ensures var c := CollectRules(g, seeds);
      Bookkeeping(g, c.ids, c.b2a, njobs, Init(g, c.ids, njobs))
  {
    var c := CollectRules(g, seeds);
    assert c.ids[..|c.ids|] == c.ids;
    GatherNoDup(g, c.ids, |c.ids|);
    InRange(g, c.ids);
    var st := Init(g, c.ids, njobs);
    assert OkSet(st.summary) == {};
    forall x | x in c.ids
      ensures Pending(g[x], OkSet(st.summary)) == |g[x]|
    {
      PendingEmpty(g[x]);
    }
  }

  /** A worker that holds no job takes one without tripping the assertion, and the invariant survives. */
  lemma GetJobKeeps(g: Graph, ids: seq<nat>, b2a: map<nat, seq<nat>>, njobs: int, st: Mp)
    requires Bookkeeping(g, ids, b2a, njobs, st) && |st.running| < njobs
    ensures GetJob(st, njobs).Ok?
    ensures Bookkeeping(g, ids, b2a, njobs, GetJob(st, njobs).value.1)
    ensures GetJob(st, njobs).value.0.Job? ==> GetJob(st, njobs).value.0.id in ids
  {
    if !st.stop && |st.queue| > 0 {
      var i := st.queue[|st.queue| - 1];
      var q := st.queue[..|st.queue| - 1];
      assert st.queue == q + [i];
      TakeKeeps(g, ids, njobs, st, q, i);
    }
  }

  /** Popping the last queued rule hands it to a worker. */
  lemma TakeKeeps(g: Graph, ids: seq<nat>, njobs: int, st: Mp, q: seq<nat>, i: nat)
    requires Live(g, ids, njobs, st) && |st.running| < njobs && st.queue == q + [i]
    ensures Live(g, ids, njobs, st.(queue := q, nidles := st.nidles - 1, running := st.running + {i}))
  {
    var st1 := st.(queue := q, nidles := st.nidles - 1, running := st.running + {i});
    assert forall x :: x in st.queue <==> x in q || x == i;
    TakePlaces(ids, st, st1, q, i);
    assert |st1.running| == |st.running| + 1;
    assert Released(g, ids, st1);
  }

  lemma TakePlaces(ids: seq<nat>, st: Mp, st1: Mp, q: seq<nat>, i: nat)
    requires Places(ids, st) && st.queue == q + [i]
    requires st1.queue == q && st1.running == st.running + {i} && st1.summary == st.summary
    ensures Places(ids, st1) && i !in st.running
  {
    assert i in st.queue;
    assert NoDup(q) && i !in q by {
      assert forall k :: 0 <= k < |q| ==> q[k] == st.queue[k];
      assert st.queue[|q|] == i;
    }
    assert forall x :: x in q ==> x in st.queue;
  }

  /** Holding a dependency that has not passed keeps a rule waiting. */
  lemma WaitingDependent(g: Graph, ids: seq<nat>, b2a: map<nat, seq<nat>>, njobs: int, st: Mp, i: nat, n: nat)
    requires Bookkeeping(g, ids, b2a, njobs, st) && i !in OkSet(st.summary) && n in Get(b2a, i)
    ensures n in ids && n in st.depCnt && st.depCnt[n] >= 1
    ensures n !in st.queue && n !in st.running && n !in st.summary
  {
    assert n in ids && DependsOn(g, n, i);
    PendingZero(g[n], OkSet(st.summary));
  }

  // The fail and pass cases of `set_result`, one invariant part at a time.

  /** Reporting a new rule adds it to the passed ones exactly when its key passes. */
  lemma OkSetAdd(summary: map<nat, SummaryKey>, i: nat, key: SummaryKey)
    requires i !in summary
    ensures OkSet(summary[i := key]) == OkSet(summary) + (if Passed(key) then {i} else {})
  {
  }

  lemma MoveSlots(njobs: int, st: Mp, st': Mp, i: nat)
    requires Slots(njobs, st) && i in st.running
    requires st'.nidles == st.nidles + 1 && st'.running == st.running - {i}
    ensures Slots(njobs, st')
  {
    assert |st'.running| == |st.running| - 1;
  }

  lemma FailPlaces(ids: seq<nat>, st: Mp, st': Mp, i: nat)
    requires Places(ids, st) && i in st.running
    requires st'.queue == st.queue && st'.running == st.running - {i} && st'.summary.Keys == st.summary.Keys + {i}
    ensures Places(ids, st')
  {
  }

  lemma FailCounted(g: Graph, ids: seq<nat>, st: Mp, st': Mp)
    requires Counted(g, ids, st)
    requires st'.depCnt == st.depCnt && OkSet(st'.summary) == OkSet(st.summary)
    ensures Counted(g, ids, st')
  {
  }

  lemma FailReleased(g: Graph, ids: seq<nat>, st: Mp, st': Mp, i: nat)
    requires Released(g, ids, st) && i in st.running
    requires st'.queue == st.queue && st'.running == st.running - {i} && st'.summary.Keys == st.summary.Keys + {i}
    requires OkSet(st'.summary) == OkSet(st.summary)
    ensures Released(g, ids, st')
  {
  }

  /** A failure or a fatal error reports `i` as "fail" and leaves every counter and the queue alone. */
  lemma FailKeeps(g: Graph, ids: seq<nat>, b2a: map<nat, seq<nat>>, njobs: int, st: Mp, i: nat, stop: bool)
    requires Bookkeeping(g, ids, b2a, njobs, st) && i in st.running
    ensures Bookkeeping(g, ids, b2a, njobs, st.(nidles := st.nidles + 1, running := st.running - {i}, summary := st.summary[i := KFail], stop := st.stop || stop))
  {
    FailParts(g, ids, njobs, st, st.(nidles := st.nidles + 1, running := st.running - {i}, summary := st.summary[i := KFail], stop := st.stop || stop), i);
  }

  lemma FailParts(g: Graph, ids: seq<nat>, njobs: int, st: Mp, st': Mp, i: nat)
    requires Live(g, ids, njobs, st) && i in st.running
    requires st'.nidles == st.nidles + 1 && st'.running == st.running - {i} && st'.summary == st.summary[i := KFail]
    requires st'.queue == st.queue && st'.depCnt == st.depCnt && st'.updated == st.updated && (st.stop ==> st'.stop)
    ensures Live(g, ids, njobs, st')
  {
    assert i !in st.summary;
    OkSetAdd(st.summary, i, KFail);
    MoveSlots(njobs, st, st', i);
    FailPlaces(ids, st, st', i);
    FailCounted(g, ids, st, st');
    FailReleased(g, ids, st, st', i);
    FailTally(st, st', i);
  }

  /** Reporting a new rule adds it to the rules with its key and to no other. */
  lemma WithKeyAdd(summary: map<nat, SummaryKey>, i: nat, key: SummaryKey)
    requires i !in summary
    ensures forall k :: WithKey(summary[i := key], k) == WithKey(summary, k) + (if k == key then {i} else {})
  {
  }

  lemma FailTally(st: Mp, st': Mp, i: nat)
    requires Tally(st) && i !in st.summary
    requires st'.summary == st.summary[i := KFail] && st'.updated == st.updated
    ensures Tally(st')
  {
    WithKeyAdd(st.summary, i, KFail);
    assert i in WithKey(st'.summary, KFail);
  }

  /** A passing result moves exactly the dependents of `i` one step closer to release. */
  lemma PassCounts(g: Graph, ids: seq<nat>, b2a: map<nat, seq<nat>>, ok: set<nat>, i: nat)
    requires Simple(g) && i !in ok
    requires forall x :: x in Get(b2a, i) <==> x in ids && DependsOn(g, x, i)
    ensures forall x :: x in ids && x < |g| ==>
      Pending(g[x], ok + {i}) == Pending(g[x], ok) - (if x in Get(b2a, i) then 1 else 0)
  {
    forall x | x in ids && x < |g|
      ensures Pending(g[x], ok + {i}) == Pending(g[x], ok) - (if x in Get(b2a, i) then 1 else 0)
    {
      SimpleRow(g, x);
      PendingStep(g[x], ok, i);
    }
  }

  lemma PassPlaces(ids: seq<nat>, st: Mp, st': Mp, i: nat, nxts: seq<nat>)
    requires Places(ids, st) && i in st.running
    requires forall n :: n in nxts ==> n in ids && n !in st.running && n !in st.summary && n != i
    requires st'.running == st.running - {i} && st'.summary.Keys == st.summary.Keys + {i}
    requires NoDup(st'.queue) && forall n :: n in st'.queue ==> n in st.queue || n in nxts
    ensures Places(ids, st')
  {
  }

  lemma PassCounted(g: Graph, ids: seq<nat>, st: Mp, st': Mp, i: nat, nxts: seq<nat>)
    requires Counted(g, ids, st)
    requires OkSet(st'.summary) == OkSet(st.summary) + {i}
    requires forall x :: x in ids && x < |g| ==>
      Pending(g[x], OkSet(st.summary) + {i}) == Pending(g[x], OkSet(st.summary)) - (if x in nxts then 1 else 0)
    requires st'.depCnt.Keys == st.depCnt.Keys
    requires forall n :: n in st'.depCnt ==> st'.depCnt[n] == if n in nxts then st.depCnt[n] - 1 else st.depCnt[n]
    ensures Counted(g, ids, st')
  {
  }

  lemma PassReleased(g: Graph, ids: seq<nat>, st: Mp, st': Mp, i: nat, nxts: seq<nat>)
    requires Released(g, ids, st) && Counted(g, ids, st) && i in st.running
    requires forall n :: n in nxts ==> n in ids && n !in st.queue && n !in st.running && n !in st.summary && n != i
    requires OkSet(st'.summary) == OkSet(st.summary) + {i}
    requires forall x :: x in ids && x < |g| ==>
      Pending(g[x], OkSet(st.summary) + {i}) == Pending(g[x], OkSet(st.summary)) - (if x in nxts then 1 else 0)
    requires st'.running == st.running - {i} && st'.summary.Keys == st.summary.Keys + {i}
    requires forall n :: n in st'.queue <==> n in st.queue || (n in nxts && st.depCnt[n] == 1)
    ensures Released(g, ids, st')
  {
    forall x | x in ids && x < |g|
      ensures Pending(g[x], OkSet(st'.summary)) == 0 <==> x in st'.queue || x in st'.running || x in st'.summary
    {
      if x in nxts {
        assert x !in st'.running && x !in st'.summary;
      } else {
        assert x in st'.queue <==> x in st.queue;
        assert x in st'.running || x in st'.summary <==> x in st.running || x in st.summary;
      }
    }
  }

  lemma PassTally(st: Mp, st': Mp, i: nat, o: Outcome)
    requires Tally(st) && i !in st.summary && o != Fail
    requires st'.summary == st.summary[i := if o == Update then KUpdate else KSkip]
    requires st'.updated == (if o == Update then st.updated + {i} else st.updated)
    requires st'.stop == st.stop
    ensures Tally(st')
  {
    WithKeyAdd(st.summary, i, if o == Update then KUpdate else KSkip);
  }

  /** The counters and the release state after a passing result. */
  lemma PassCountsKept(g: Graph, ids: seq<nat>, b2a: map<nat, seq<nat>>, st: Mp, st': Mp, i: nat, o: Outcome)
    requires Simple(g) && (forall x :: x in Get(b2a, i) <==> x in ids && DependsOn(g, x, i))
    requires Counted(g, ids, st) && Released(g, ids, st) && i in st.running && i !in st.summary && o != Fail
    requires forall n :: n in Get(b2a, i) ==> n in ids && n !in st.queue && n !in st.running && n !in st.summary && n != i
    requires st'.running == st.running - {i}
    requires st'.summary == st.summary[i := if o == Update then KUpdate else KSkip]
    requires st'.depCnt.Keys == st.depCnt.Keys
    requires forall n :: n in st'.depCnt ==> st'.depCnt[n] == if n in Get(b2a, i) then st.depCnt[n] - 1 else st.depCnt[n]
    requires forall n :: n in st'.queue <==> n in st.queue || (n in Get(b2a, i) && st.depCnt[n] == 1)
    ensures Counted(g, ids, st') && Released(g, ids, st')
  {
    var ok := OkSet(st.summary);
    OkSetAdd(st.summary, i, if o == Update then KUpdate else KSkip);
    PassCounts(g, ids, b2a, ok, i);
    PassCounted(g, ids, st, st', i, Get(b2a, i));
    PassReleased(g, ids, st, st', i, Get(b2a, i));
  }

  /** The slots, the places and the tally after a passing result. */
  lemma PassShape(ids: seq<nat>, njobs: int, st: Mp, st': Mp, i: nat, o: Outcome, nxts: seq<nat>)
    requires Slots(njobs, st) && Places(ids, st) && Tally(st) && i in st.running && o != Fail
    requires forall n :: n in nxts ==> n in ids && n in st.depCnt && n !in st.running && n !in st.summary && n != i
    requires st'.nidles == st.nidles + 1 && st'.running == st.running - {i} && st'.stop == st.stop
    requires st'.updated == (if o == Update then st.updated + {i} else st.updated)
    requires st'.summary == st.summary[i := if o == Update then KUpdate else KSkip]
    requires forall n :: n in st'.queue <==> n in st.queue || (n in nxts && st.depCnt[n] == 1)
    requires NoDup(st'.queue)
    ensures Slots(njobs, st') && Places(ids, st') && Tally(st')
  {
    assert i !in st.summary;
    MoveSlots(njobs, st, st', i);
    PassPlaces(ids, st, st', i, nxts);
    PassTally(st, st', i, o);
  }

  /** An update or a skip releases the dependents whose last dependency it was, and the invariant survives. */
  lemma PassKeeps(g: Graph, ids: seq<nat>, b2a: map<nat, seq<nat>>, njobs: int, st: Mp, i: nat, o: Outcome)
    requires Bookkeeping(g, ids, b2a, njobs, st) && i in st.running && o != Fail
    ensures Release(st.depCnt, st.queue, Get(b2a, i)).Ok?
    ensures var rel := Release(st.depCnt, st.queue, Get(b2a, i)).value;
      Bookkeeping(g, ids, b2a, njobs,
                  st.(nidles := st.nidles + 1, running := st.running - {i},
                      updated := if o == Update then st.updated + {i} else st.updated,
                      summary := st.summary[i := if o == Update then KUpdate else KSkip],
                      depCnt := rel.0, queue := rel.1))
  {
    var nxts := Get(b2a, i);
    assert i !in OkSet(st.summary);
    forall n | n in nxts
      ensures n in ids && n in st.depCnt && st.depCnt[n] >= 1
      ensures n !in st.queue && n !in st.running && n !in st.summary && n != i
    {
      WaitingDependent(g, ids, b2a, njobs, st, i, n);
    }
    ReleaseOk(st.depCnt, st.queue, nxts);
    var rel := Release(st.depCnt, st.queue, nxts).value;
    var st' := st.(nidles := st.nidles + 1, running := st.running - {i},
                   updated := if o == Update then st.updated + {i} else st.updated,
                   summary := st.summary[i := if o == Update then KUpdate else KSkip],
                   depCnt := rel.0, queue := rel.1);
    PassCountsKept(g, ids, b2a, st, st', i, o);
    PassShape(ids, njobs, st, st', i, o, nxts);
  }

  /** `set_result` for a job a worker holds never trips an assertion, and the invariant survives. */
  lemma SetResultKeeps(g: Graph, ids: seq<nat>, b2a: map<nat, seq<nat>>, keepGoing: bool, njobs: int, st: Mp, i: nat, res: Option<Outcome>)
    requires Bookkeeping(g, ids, b2a, njobs, st) && i in st.running
    ensures SetResult(b2a, keepGoing, njobs, st, i, res).Ok?
    ensures Bookkeeping(g, ids, b2a, njobs, SetResult(b2a, keepGoing, njobs, st, i, res).value)
  {
    if res.None? || res == Some(Fail) {
      FailKeeps(g, ids, b2a, njobs, st, i, res.None? || !keepGoing);
    } else {
      PassKeeps(g, ids, b2a, njobs, st, i, res.value);
    }
  }

  /** A rule with a failed dependency is never queued, run or reported. */
  lemma FailedBlocksDependents(g: Graph, ids: seq<nat>, b2a: map<nat, seq<nat>>, njobs: int, st: Mp, x: nat, k: nat)
    requires Bookkeeping(g, ids, b2a, njobs, st) && x in ids && x < |g| && k < |g[x]|
    requires g[x][k] in st.summary && st.summary[g[x][k]] == KFail
    ensures x !in st.queue && x !in st.running && x !in st.summary
  {
    PendingZero(g[x], OkSet(st.summary));
    assert g[x][k] in Elems(g[x]) && g[x][k] !in OkSet(st.summary);
  }

  // ---------------------------------------------------------------------------
  // make_mp_spawn, driven by one worker at a time

  /** Every call of `process` returns a result: no worker reports a fatal error. */
  ghost predicate NeverRaises<S(!new)>(process: (S, nat, bool, bool) -> (Option<Outcome>, S)) {
    forall s, i, p, m :: process(s, i, p, m).0.Some?
  }

  /** A reported rule ran only after all its dependencies passed, and keeps its key. */
  lemma FinalRan(g: Graph, ids: seq<nat>, njobs: int, st: Mp)
    requires Valid(g) && Places(ids, st) && Counted(g, ids, st) && Released(g, ids, st)
    ensures var d := FillDiscards(st.summary, ids);
      && d.Keys == Elems(ids)
      && (forall x :: x in st.summary ==> d[x] == st.summary[x])
      && (forall x, k :: x in d && d[x] != KDiscard && x < |g| && 0 <= k < |g[x]| ==> g[x][k] in d && Passed(d[g[x][k]]))
  {
    var d := FillDiscards(st.summary, ids);
    forall x, k | x in d && d[x] != KDiscard && x < |g| && 0 <= k < |g[x]|
      ensures g[x][k] in d && Passed(d[g[x][k]])
    {
      assert x in st.summary;
      PendingZero(g[x], OkSet(st.summary));
      assert g[x][k] in Elems(g[x]);
    }
  }

  /** Once the queue is empty and no worker holds a job, a rule left out waits on a dependency that did not pass. */
  lemma FinalDiscarded(g: Graph, ids: seq<nat>, njobs: int, st: Mp)
    requires Valid(g) && Closed(g, Elems(ids)) && Places(ids, st) && Counted(g, ids, st) && Released(g, ids, st)
    requires Tally(st) && st.running == {} && |st.queue| == 0
    ensures var d := FillDiscards(st.summary, ids);
      forall x :: x in d && d[x] == KDiscard ==> x < |g| && HasFailedDep(g, d, x)
  {
    var d := FillDiscards(st.summary, ids);
    forall x | x in d && d[x] == KDiscard
      ensures x < |g| && HasFailedDep(g, d, x)
    {
      assert x !in WithKey(st.summary, KDiscard);
      assert x !in st.summary && x in ids;
      var k := PendingWitness(g[x], OkSet(st.summary));
      assert g[x][k] in Elems(ids);
      assert d[g[x][k]] in {KFail, KDiscard};
    }
  }

  /** One turn of a worker that holds no job: take one, run it, report it. */
  lemma TurnKeeps(g: Graph, ids: seq<nat>, b2a: map<nat, seq<nat>>, keepGoing: bool, njobs: int, st: Mp, res: Option<Outcome>)
    requires Bookkeeping(g, ids, b2a, njobs, st) && st.running == {} && njobs >= 1
    requires GetJob(st, njobs).Ok? && GetJob(st, njobs).value.0.Job?
    ensures var (job, st1) := GetJob(st, njobs).value;
      && job.id in ids && job.id < |g| && job.id !in st.summary
      && SetResult(b2a, keepGoing, njobs, st1, job.id, res).Ok?
      && var st2 := SetResult(b2a, keepGoing, njobs, st1, job.id, res).value;
      && Bookkeeping(g, ids, b2a, njobs, st2) && st2.running == {}
      && st2.summary.Keys == st.summary.Keys + {job.id}
      && (st2.stop ==> st.stop || res.None? || (res == Some(Fail) && !keepGoing))
  {
    GetJobKeeps(g, ids, b2a, njobs, st);
    var (job, st1) := GetJob(st, njobs).value;
    assert st1.running == {job.id};
    SetResultKeeps(g, ids, b2a, keepGoing, njobs, st1, job.id, res);
  }

  /** With no rule running, a worker either gets a rule or finds the run over. */
  lemma JobOrDone(g: Graph, ids: seq<nat>, b2a: map<nat, seq<nat>>, njobs: int, st: Mp)
    requires Bookkeeping(g, ids, b2a, njobs, st) && st.running == {} && njobs >= 1
    ensures GetJob(st, njobs).Ok?
    ensures !GetJob(st, njobs).value.0.Job? ==> st.stop || |st.queue| == 0
    ensures GetJob(st, njobs).value.0.Job? ==> GetJob(st, njobs).value.0.id < |g|
  {
    GetJobKeeps(g, ids, b2a, njobs, st);
  }

  /** A turn keeps the bookkeeping and settles one more rule. */
  lemma TurnProgress(g: Graph, ids: seq<nat>, b2a: map<nat, seq<nat>>, keepGoing: bool, njobs: int, st: Mp, res: Option<Outcome>)
    requires Bookkeeping(g, ids, b2a, njobs, st) && st.running == {} && njobs >= 1
    requires GetJob(st, njobs).Ok? && GetJob(st, njobs).value.0.Job?
    ensures var (job, st1) := GetJob(st, njobs).value;
      && SetResult(b2a, keepGoing, njobs, st1, job.id, res).Ok?
      && var st2 := SetResult(b2a, keepGoing, njobs, st1, job.id, res).value;
      && Bookkeeping(g, ids, b2a, njobs, st2) && st2.running == {}
      && |Elems(ids) - st2.summary.Keys| < |Elems(ids) - st.summary.Keys|
      && (st2.stop ==> st.stop || res.None? || (res == Some(Fail) && !keepGoing))
  {
    TurnKeeps(g, ids, b2a, keepGoing, njobs, st, res);
    var job := GetJob(st, njobs).value.0;
    DiffShrinksStrictly(Elems(ids), st.summary.Keys, job.id);
  }

  /** What the workers leave behind once they have quit, in the terms `make_mp_spawn` reports it. */
  lemma Finish(g: Graph, seeds: seq<nat>, njobs: int, st: Mp)
    requires Valid(g) && ValidIds(g, seeds)
    requires var c := CollectRules(g, seeds);
      Bookkeeping(g, c.ids, c.b2a, njobs, st) && st.running == {} && (st.stop || |st.queue| == 0)
    ensures var d := FillDiscards(st.summary, CollectRules(g, seeds).ids);
      && d.Keys == Elems(TopoSort(g, seeds))
      && (forall x, k :: x in d && d[x] != KDiscard && x < |g| && 0 <= k < |g[x]| ==> g[x][k] in d && Passed(d[g[x][k]]))
      && (WithKey(d, KFail) == {} ==> !st.stop)
      && (!st.stop ==> forall x :: x in d && d[x] == KDiscard ==> x < |g| && HasFailedDep(g, d, x))
  {
    var c := CollectRules(g, seeds);
    var d := FillDiscards(st.summary, c.ids);
    FinalRan(g, c.ids, njobs, st);
    if !st.stop {
      FinalDiscarded(g, c.ids, njobs, st);
    } else {
      var x :| x in WithKey(st.summary, KFail);
      assert x in WithKey(d, KFail);
    }
  }

  /**
   * The workers taking turns until `get_job` gives one of them nothing:
   * each turn runs `process` on the job and reports it with `set_result`.
   */
  method Workers<S(!new)>(g: Graph, main: seq<nat>, ids: seq<nat>, b2a: map<nat, seq<nat>>, keepGoing: bool, njobs: int,
                         st0: Mp, s0: S, process: (S, nat, bool, bool) -> (Option<Outcome>, S))
    returns (st: Mp, s: S)
    requires Bookkeeping(g, ids, b2a, njobs, st0) && st0.running == {} && njobs >= 1 && !st0.stop
    ensures Bookkeeping(g, ids, b2a, njobs, st) && st.running == {} && (st.stop || |st.queue| == 0)
    ensures keepGoing && NeverRaises(process) ==> !st.stop
  {
    st, s := st0, s0;
    while true
      invariant Bookkeeping(g, ids, b2a, njobs, st) && st.running == {}
      invariant keepGoing && NeverRaises(process) ==> !st.stop
      decreases |Elems(ids) - st.summary.Keys|
    {
      JobOrDone(g, ids, b2a, njobs, st);
      var (job, st1) := GetJob(st, njobs).value;
      if !job.Job? {
        return;
      }
      var i := job.id;
      var (res, s1) := process(s, i, AnyIn(g[i], st1.updated), i in main);
      s := s1;
      assert NeverRaises(process) ==> res.Some?;
      TurnProgress(g, ids, b2a, keepGoing, njobs, st, res);
      st := SetResult(b2a, keepGoing, njobs, st1, i, res).value;
    }
  }

  /**
   * `make_mp_spawn(id2rule, ids, dry_run, keep_going, callback, njobs)`
   * with its workers taking turns: each `get_job` is followed by
   * `process(s, i, par_updated, is_main)`, which stands for `process_rule`
   * on rule `i` (`None` when it raised), and by `set_result`.
   */
  method MakeMp<S(!new)>(g: Graph, ids: seq<nat>, keepGoing: bool, njobs: int, s0: S,
                   process: (S, nat, bool, bool) -> (Option<Outcome>, S))
    returns (r: Result<MakeSummary>, s: S)
    requires Valid(g) && Simple(g) && ValidIds(g, ids)
    ensures |ids| == 0 ==> r == Ok(EmptySummary)
    ensures |ids| > 0 && njobs < 2 ==> r == Err(AssertionError)
    ensures |ids| > 0 && njobs >= 2 ==> r.Ok?
    ensures r.Ok? ==> r.value == Create(r.value.detail)
    ensures r.Ok? ==> r.value.detail.Keys == Elems(TopoSort(g, ids))
    ensures r.Ok? ==> forall x, k :: x in r.value.detail && r.value.detail[x] != KDiscard && x < |g| && 0 <= k < |g[x]| ==>
      g[x][k] in r.value.detail && Passed(r.value.detail[g[x][k]])
    ensures r.Ok? && (WithKey(r.value.detail, KFail) == {} || (keepGoing && NeverRaises(process))) ==>
      forall x :: x in r.value.detail && r.value.detail[x] == KDiscard ==> x < |g| && HasFailedDep(g, r.value.detail, x)
  {
    s := s0;
    if |ids| == 0 {
      return Ok(EmptySummary), s;
    }
    if njobs < 2 {
      return Err(AssertionError), s;
    }
    var c := CollectRules(g, ids);
    InitKeeps(g, ids, njobs);
    var st;
    st, s := Workers(g, ids, c.ids, c.b2a, keepGoing, njobs, Init(g, c.ids, njobs), s, process);
    Finish(g, ids, njobs, st);
    r := Ok(Create(FillDiscards(st.summary, c.ids)));
  }

  /**
   * On an ordered graph a run in which no rule failed discards nothing:
   * each discarded rule would need a discarded dependency with a smaller id.
   */
  lemma {:induction false} NoFailureNoDiscard(g: Graph, detail: map<nat, SummaryKey>, n: nat)
    requires Ordered(g) && WithKey(detail, KFail) == {}
    requires forall x :: x in detail && detail[x] == KDiscard ==> x < |g| && HasFailedDep(g, detail, x)
    ensures forall x :: x in detail && x < n ==> detail[x] != KDiscard
  {
    if n > 0 {
      NoFailureNoDiscard(g, detail, n - 1);
      var i := n - 1;
      if i < |g| {
        var row := g[i];
        forall m | 0 <= m < |row| && row[m] in detail
          ensures detail[row[m]] !in {KFail, KDiscard}
        {
          assert row[m] < i;
          assert row[m] !in WithKey(detail, KFail);
        }
        assert !HasFailedDep(g, detail, i);
      }
    }
  }
}
