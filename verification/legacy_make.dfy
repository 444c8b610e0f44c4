/**
 * The sequential `make` loops of the two legacy engines:
 * `omochamake/core/make_.py` (boolean results, a failed set, `FatalError`),
 * `omochamake/core/make.py` (result codes) and `lightmake/core/make.py`
 * (boolean results). All three walk the post-order DFS of the requested
 * rules; they differ in what a failure and an exception do.
 */
module LegacyMake {
  import opened Wrappers
  import opened Topo
  import opened Paths
  import opened Fs
  import LegacyUtils
  import Make

  /** Which loop: `make_.py`, `make.py` (result codes) or lightmake. */
  datatype Engine = Omocha | Coded | Light

  /** What `process_rule` did as the loop sees it: returned a truthy or falsy result, or raised. */
  datatype Res = Returned(ok: bool) | Raised

  /** How `make` ended: the list ran out, a failure stopped it, or (`make_.py` only) an exception did. */
  datatype Stop = Finished | StopOnFail | FatalError

  /** One `process_rule` call: the rule at position `pos` of the list `taskq` and its result. */
  datatype Call = Call(pos: nat, id: nat, res: Res)

  /** `failed_rule`, the calls made so far and the loop's position. */
  datatype Walk = Walk(idx: nat, failed: set<nat>, calls: seq<Call>, stop: Stop)

  /** The result counts as a failure: falsy, or (outside `make_.py`) an exception turned into one. */
  predicate Fails(eng: Engine, r: Res) {
    r == Returned(false) || (eng != Omocha && r == Raised)
  }

  /** The result ends the loop. */
  predicate Ends(eng: Engine, stopOnFail: bool, r: Res) {
    (eng == Omocha && r == Raised) || (stopOnFail && Fails(eng, r))
  }

  /** Only `make_.py` adds a failing rule to `failed_rule`. */
  function After(eng: Engine, stopOnFail: bool, w: Walk, t: nat, r: Res): (w': Walk)
    ensures w'.idx == w.idx + 1 && w'.calls == w.calls + [Call(w.idx, t, r)]
    ensures w'.failed == if eng == Omocha && r == Returned(false) then w.failed + {t} else w.failed
    ensures w'.stop == Finished <==> !Ends(eng, stopOnFail, r)
    ensures w'.stop == FatalError <==> eng == Omocha && r == Raised
  {
    var failed := if eng == Omocha && r == Returned(false) then w.failed + {t} else w.failed;
    var stop := if eng == Omocha && r == Raised then FatalError
                else if stopOnFail && Fails(eng, r) then StopOnFail
                else Finished;
    Walk(w.idx + 1, failed, w.calls + [Call(w.idx, t, r)], stop)
  }

  function OkIds(calls: seq<Call>): set<nat> {
    set k | 0 <= k < |calls| && calls[k].res == Returned(true) :: calls[k].id
  }

  function CalledIds(calls: seq<Call>): set<nat> {
    set k | 0 <= k < |calls| :: calls[k].id
  }

  function FalseIds(calls: seq<Call>): set<nat> {
    set k | 0 <= k < |calls| && calls[k].res == Returned(false) :: calls[k].id
  }

  lemma IdsAppend(calls: seq<Call>, c: Call)
    ensures CalledIds(calls + [c]) == CalledIds(calls) + {c.id}
    ensures OkIds(calls + [c]) == OkIds(calls) + (if c.res == Returned(true) then {c.id} else {})
    ensures FalseIds(calls + [c]) == FalseIds(calls) + (if c.res == Returned(false) then {c.id} else {})
  {
    var cs := calls + [c];
    assert forall k :: 0 <= k < |calls| ==> cs[k] == calls[k];
    assert cs[|calls|] == c;
  }

  /** Every call names the rule at its position; positions increase. */
  predicate Positions(q: seq<nat>, w: Walk) {
    && w.idx <= |q|
    && (forall k :: 0 <= k < |w.calls| ==> w.calls[k].pos < w.idx && q[w.calls[k].pos] == w.calls[k].id)
    && (forall j, k :: 0 <= j < k < |w.calls| ==> w.calls[j].pos < w.calls[k].pos)
  }

  /** Only the last call may have ended the loop, and then it did. */
  predicate Stopping(eng: Engine, stopOnFail: bool, w: Walk) {
    && (forall k :: 0 <= k < |w.calls| - 1 ==> !Ends(eng, stopOnFail, w.calls[k].res))
    && (w.stop == Finished ==> forall k :: 0 <= k < |w.calls| ==> !Ends(eng, stopOnFail, w.calls[k].res))
    && (w.stop != Finished ==>
          && |w.calls| > 0
          && w.calls[|w.calls| - 1].pos + 1 == w.idx
          && Ends(eng, stopOnFail, w.calls[|w.calls| - 1].res)
          && (w.stop == FatalError <==> eng == Omocha && w.calls[|w.calls| - 1].res == Raised))
  }

  /**
   * `make_.py`: the failed set is every rule passed so far that did not
   * return a truthy result; a rule not called had a failed dependency; a
   * called rule's dependencies listed before it had all succeeded.
   */
  predicate FailedBooks(g: Graph, q: seq<nat>, w: Walk) {
    && w.idx <= |q|
    && w.failed == (Elems(q[..w.idx]) - CalledIds(w.calls)) + FalseIds(w.calls)
    && Blocked(g, w.failed, w.calls)
    && DepsOk(g, q, w.calls)
  }

  /** A rule in `failed_rule` that was never called had a dependency in it. */
  predicate Blocked(g: Graph, failed: set<nat>, calls: seq<Call>) {
    forall t :: t in failed && t !in CalledIds(calls) ==> t < |g| && exists m :: 0 <= m < |g[t]| && g[t][m] in failed
  }

  /** Each call's dependencies listed before it had returned a truthy result. */
  predicate DepsOk(g: Graph, q: seq<nat>, calls: seq<Call>) {
    forall k, m :: (0 <= k < |calls| && calls[k].id < |g| && 0 <= m < |g[calls[k].id]| && calls[k].pos <= |q| &&
      g[calls[k].id][m] in q[..calls[k].pos]) ==> g[calls[k].id][m] in OkIds(calls[..k])
  }

  /** `make.py` and lightmake: `failed_rule` stays empty, so every rule up to `idx` was called. */
  predicate Inert(w: Walk) {
    && w.failed == {}
    && |w.calls| == w.idx
    && (forall k :: 0 <= k < |w.calls| ==> w.calls[k].pos == k)
  }

  predicate Inv(eng: Engine, g: Graph, q: seq<nat>, stopOnFail: bool, w: Walk) {
    && Positions(q, w)
    && Stopping(eng, stopOnFail, w)
    && (eng == Omocha ==> FailedBooks(g, q, w))
    && (eng != Omocha ==> Inert(w))
  }

  /** What the post-order DFS promises about the list `taskq`. */
  predicate TaskList(g: Graph, q: seq<nat>) {
    Valid(g) && NoDup(q) && (forall p :: 0 <= p < |q| ==> q[p] < |g|)
  }

  /** Skipping a rule with a failed dependency keeps the books (only `make_.py` can get here). */
  lemma SkipKeeps(eng: Engine, g: Graph, q: seq<nat>, stopOnFail: bool, w: Walk)
    requires TaskList(g, q)
    requires Inv(eng, g, q, stopOnFail, w) && w.idx < |q| && w.stop == Finished && Make.AnyIn(g[q[w.idx]], w.failed)
    ensures eng == Omocha
    ensures Inv(eng, g, q, stopOnFail, w.(idx := w.idx + 1, failed := w.failed + {q[w.idx]}))
  {
    var t := q[w.idx];
    var w' := w.(idx := w.idx + 1, failed := w.failed + {t});
    NotCalledYet(q, w);
    SkipBooks(g, q, w, w');
  }

  lemma SkipBooks(g: Graph, q: seq<nat>, w: Walk, w': Walk)
    requires Positions(q, w) && FailedBooks(g, q, w) && w.idx < |q| && q[w.idx] < |g|
    requires q[w.idx] !in CalledIds(w.calls) && Make.AnyIn(g[q[w.idx]], w.failed)
    requires w' == w.(idx := w.idx + 1, failed := w.failed + {q[w.idx]})
    ensures Positions(q, w') && FailedBooks(g, q, w')
  {
    var t := q[w.idx];
    ElemsStep(q, w.idx);
    SetStep(Elems(q[..w.idx]), Elems(q[..w'.idx]), CalledIds(w.calls), FalseIds(w.calls), w.failed, t);
    var m :| 0 <= m < |g[t]| && g[t][m] in w.failed;
    BlockedAdd(g, w.failed, w.calls, t, m);
  }

  lemma ElemsStep(q: seq<nat>, i: nat)
    requires i < |q|
    ensures Elems(q[..i + 1]) == Elems(q[..i]) + {q[i]}
  {
    assert q[..i + 1] == q[..i] + [q[i]];
  }

  lemma SetStep(e: set<nat>, e': set<nat>, called: set<nat>, falses: set<nat>, failed: set<nat>, t: nat)
    requires failed == (e - called) + falses && e' == e + {t} && t !in called
    ensures failed + {t} == (e' - called) + falses
  {
  }

  /** The rule at `idx` has not been called: the list `taskq` has no repeats. */
  lemma NotCalledYet(q: seq<nat>, w: Walk)
    requires NoDup(q) && Positions(q, w) && w.idx < |q|
    ensures q[w.idx] !in CalledIds(w.calls)
  {
    forall k | 0 <= k < |w.calls|
      ensures w.calls[k].id != q[w.idx]
    {
      assert q[w.calls[k].pos] == w.calls[k].id;
    }
  }

  lemma BlockedAdd(g: Graph, failed: set<nat>, calls: seq<Call>, t: nat, m: nat)
    requires Blocked(g, failed, calls) && t < |g| && m < |g[t]| && g[t][m] in failed
    ensures Blocked(g, failed + {t}, calls)
  {
  }

  /** A call on a rule with no failed dependency keeps the books. */
  lemma CallKeeps(eng: Engine, g: Graph, q: seq<nat>, stopOnFail: bool, w: Walk, r: Res)
    requires TaskList(g, q)
    requires Inv(eng, g, q, stopOnFail, w) && w.idx < |q| && w.stop == Finished && !Make.AnyIn(g[q[w.idx]], w.failed)
    ensures Inv(eng, g, q, stopOnFail, After(eng, stopOnFail, w, q[w.idx], r))
  {
    var t := q[w.idx];
    var w' := After(eng, stopOnFail, w, t, r);
    assert q[..w'.idx] == q[..w.idx] + [t];
    if eng == Omocha {
      CallBooks(g, q, w, w', r);
    }
  }

  lemma CallBooks(g: Graph, q: seq<nat>, w: Walk, w': Walk, r: Res)
    requires TaskList(g, q) && Positions(q, w) && FailedBooks(g, q, w) && w.idx < |q|
    requires forall k :: 0 <= k < |w.calls| ==> w.calls[k].res != Raised
    requires !Make.AnyIn(g[q[w.idx]], w.failed)
    requires w'.idx == w.idx + 1 && w'.calls == w.calls + [Call(w.idx, q[w.idx], r)]
    requires w'.failed == if r == Returned(false) then w.failed + {q[w.idx]} else w.failed
    ensures FailedBooks(g, q, w')
  {
    var t := q[w.idx];
    var extra: set<nat> := if r == Returned(false) then {t} else {};
    IdsAppend(w.calls, Call(w.idx, t, r));
    NotCalledYet(q, w);
    NotListedYet(q, w.idx);
    ElemsStep(q, w.idx);
    CallSetStep(Elems(q[..w.idx]), Elems(q[..w'.idx]), CalledIds(w.calls), FalseIds(w.calls), w.failed, t, extra);
    BlockedCall(g, w.failed, w.calls, Call(w.idx, t, r), extra);
    DepsOkCall(g, q, w, r);
  }

  /** A rule of the list `taskq` is not listed before its own position. */
  lemma NotListedYet(q: seq<nat>, i: nat)
    requires NoDup(q) && i < |q|
    ensures q[i] !in Elems(q[..i])
  {
  }

  lemma CallSetStep(e: set<nat>, e': set<nat>, called: set<nat>, falses: set<nat>, failed: set<nat>, t: nat, extra: set<nat>)
    requires failed == (e - called) + falses && e' == e + {t} && t !in called && t !in e
    ensures failed + extra == (e' - (called + {t})) + (falses + extra)
  {
  }

  lemma BlockedCall(g: Graph, failed: set<nat>, calls: seq<Call>, c: Call, extra: set<nat>)
    requires Blocked(g, failed, calls) && CalledIds(calls + [c]) == CalledIds(calls) + {c.id} && extra <= {c.id}
    ensures Blocked(g, failed + extra, calls + [c])
  {
  }

  /** The new call's dependencies listed before it are outside `failed_rule`, so they returned a truthy result. */
  lemma DepsOkCall(g: Graph, q: seq<nat>, w: Walk, r: Res)
    requires Positions(q, w) && FailedBooks(g, q, w) && w.idx < |q| && q[w.idx] < |g|
    requires forall k :: 0 <= k < |w.calls| ==> w.calls[k].res != Raised
    requires !Make.AnyIn(g[q[w.idx]], w.failed)
    ensures DepsOk(g, q, w.calls + [Call(w.idx, q[w.idx], r)])
  {
    var t := q[w.idx];
    var cs := w.calls + [Call(w.idx, t, r)];
    var n := |w.calls|;
    assert cs[..n] == w.calls;
    forall m | 0 <= m < |g[t]| && g[t][m] in q[..w.idx]
      ensures g[t][m] in OkIds(w.calls)
    {
      assert g[t][m] !in w.failed;
      var k :| 0 <= k < |w.calls| && w.calls[k].id == g[t][m];
      assert w.calls[k].res == Returned(true);
    }
    forall k | 0 <= k < n
      ensures cs[..k] == w.calls[..k] && cs[k] == w.calls[k]
    {
    }
  }

  // ---------------------------------------------------------------------------
  // The loop

  /** `for t in taskq` with the failed-dependency skip, until the list ends or a result ends it. */
  method WalkTasks<S>(eng: Engine, g: Graph, q: seq<nat>, stopOnFail: bool, s0: S, process: (S, nat) -> (Res, S))
    returns (w: Walk, s: S)
    requires TaskList(g, q)
    ensures Inv(eng, g, q, stopOnFail, w)
    ensures w.stop == Finished ==> w.idx == |q|
  {
    w, s := Walk(0, {}, [], Finished), s0;
    while w.idx < |q| && w.stop == Finished
      invariant Inv(eng, g, q, stopOnFail, w)
      decreases |q| - w.idx
    {
      var t := q[w.idx];
      if Make.AnyIn(g[t], w.failed) {
        SkipKeeps(eng, g, q, stopOnFail, w);
        w := w.(idx := w.idx + 1, failed := w.failed + {t});
      } else {
        var r := process(s, t);
        s := r.1;
        CallKeeps(eng, g, q, stopOnFail, w, r.0);
        w := After(eng, stopOnFail, w, t, r.0);
      }
    }
  }

  /**
   * `make(rules, dry_run, stop_on_fail, ...)` of the engine `eng`.
   * `process(s, t)` stands for `process_rule` on rule `t` (for `make.py`
   * its code mapped by `CodeRes`), `s` for the state it acts on.
   */
  method Run<S>(eng: Engine, g: Graph, rules: seq<nat>, stopOnFail: bool, s0: S, process: (S, nat) -> (Res, S))
    returns (w: Walk, s: S)
    requires Valid(g) && ValidIds(g, rules)
    ensures |rules| == 0 ==> w.calls == [] && w.stop == Finished
    ensures Outcome(eng, g, TopoSort(g, rules), stopOnFail, w)
  {
    var q := TopoSort(g, rules);
    if |rules| == 0 {
      w, s := Walk(0, {}, [], Finished), s0;
      assert Inv(eng, g, q, stopOnFail, w);
    } else {
      w, s := WalkTasks(eng, g, q, stopOnFail, s0, process);
    }
    if Ordered(g) {
      TopoSortOrdered(g, rules);
    }
    RunDone(eng, g, q, stopOnFail, w);
  }

  /**
   * What `make` promises about its calls on the list `taskq` (here `q`): each rule
   * at most once, only the last call ended the loop, and a rule was
   * skipped only for a failed dependency (`make_.py`) or never
   * (`make.py`, lightmake, whose `failed_rule` stays empty).
   */
  predicate Outcome(eng: Engine, g: Graph, q: seq<nat>, stopOnFail: bool, w: Walk) {
    && (forall k :: 0 <= k < |w.calls| ==> w.calls[k].id in q)
    && (forall j, k :: 0 <= j < k < |w.calls| ==> w.calls[j].id != w.calls[k].id)
    && (forall k :: 0 <= k < |w.calls| - 1 ==> !Ends(eng, stopOnFail, w.calls[k].res))
    && (w.stop != Finished ==> |w.calls| > 0 && Ends(eng, stopOnFail, w.calls[|w.calls| - 1].res))
    && (w.stop == FatalError <==> eng == Omocha && |w.calls| > 0 && w.calls[|w.calls| - 1].res == Raised)
    && (w.stop == StopOnFail ==> |w.calls| > 0 && stopOnFail && Fails(eng, w.calls[|w.calls| - 1].res))
    && (eng != Omocha ==> w.failed == {} && |w.calls| <= |q| && forall k :: 0 <= k < |w.calls| ==> w.calls[k].id == q[k])
    && (eng != Omocha && w.stop == Finished ==> |w.calls| == |q|)
    && (eng == Omocha && w.stop == Finished ==>
          forall t :: t in q && t !in CalledIds(w.calls) ==>
            t in w.failed && t < |g| && exists m :: 0 <= m < |g[t]| && g[t][m] in w.failed)
    && (eng == Omocha && Ordered(g) ==>
          forall k, m :: 0 <= k < |w.calls| && w.calls[k].id < |g| && 0 <= m < |g[w.calls[k].id]| ==>
            g[w.calls[k].id][m] in OkIds(w.calls[..k]))
  }

  /** What the finished loop leaves behind, read off its invariant. */
  lemma RunDone(eng: Engine, g: Graph, q: seq<nat>, stopOnFail: bool, w: Walk)
    requires TaskList(g, q) && Inv(eng, g, q, stopOnFail, w) && (w.stop == Finished ==> w.idx == |q|)
    requires Ordered(g) ==> TopoOrdered(g, q)
    ensures Outcome(eng, g, q, stopOnFail, w)
  {
    forall j, k | 0 <= j < k < |w.calls|
      ensures w.calls[j].id != w.calls[k].id
    {
      assert q[w.calls[j].pos] == w.calls[j].id && q[w.calls[k].pos] == w.calls[k].id;
    }
    if eng == Omocha && w.stop == Finished {
      assert q[..w.idx] == q;
      forall t | t in q && t !in CalledIds(w.calls)
        ensures t in w.failed
      {
        assert t in Elems(q[..w.idx]);
      }
    }
    if eng == Omocha && Ordered(g) {
      OrderedDepsOk(g, q, w);
    }
  }

  /** With dependencies listed before their dependents, every dependency of a called rule had succeeded. */
  lemma OrderedDepsOk(g: Graph, q: seq<nat>, w: Walk)
    requires TaskList(g, q) && TopoOrdered(g, q) && Positions(q, w) && DepsOk(g, q, w.calls)
    ensures forall k, m :: 0 <= k < |w.calls| && w.calls[k].id < |g| && 0 <= m < |g[w.calls[k].id]| ==>
      g[w.calls[k].id][m] in OkIds(w.calls[..k])
  {
    forall k, m | 0 <= k < |w.calls| && w.calls[k].id < |g| && 0 <= m < |g[w.calls[k].id]|
      ensures g[w.calls[k].id][m] in OkIds(w.calls[..k])
    {
      var p := w.calls[k].pos;
      assert g[q[p]][m] in q[..p];
    }
  }

  // ---------------------------------------------------------------------------
  // process_rule of omochamake/core/make_.py

  /** The events `make_.py`'s `process_rule` reports (directory creation left out). */
  datatype OEvent = SkipReadonly | UpdateCheckError | DryRunEvent | SkipEvent | Start | ExecError | PostProcError | Done

  /** Its return value, events, the dry run's potentially updated paths and the file state after it. */
  datatype ORun = ORun(ok: bool, events: seq<OEvent>, pups: set<Path>, disk: Disk)

  /**
   * `process_rule(rule, dry_run_info, callback)`. `nop` says the method is
   * `NOP`; `checkDry` and `check` are what `should_update_dryrun(pups)` and
   * `should_update()` return or raise; `methodOk` and `postOk` whether the
   * method and `post_process` return normally; `d` is the file state after
   * the method ran.
   */
  function OmochaProcess(nop: bool, dry: bool, checkDry: Result<bool>, check: Result<bool>, methodOk: bool, postOk: bool,
                         pups: set<Path>, opaths: seq<Path>, d: Disk): (r: ORun)
    ensures nop ==> r == ORun(true, [SkipReadonly], pups, d)
    ensures !nop && dry ==> r.disk == d && (r.ok <==> checkDry.Ok?)
    ensures !nop && dry ==> r.pups == if checkDry == Ok(true) then pups + (set p | p in opaths) else pups
    ensures !nop && !dry ==> r.pups == pups
    ensures !nop && !dry && check.Err? ==> r == ORun(false, [UpdateCheckError], pups, d)
    ensures !nop && !dry && check == Ok(false) ==> r == ORun(true, [SkipEvent], pups, d)
    ensures !nop && !dry && check == Ok(true) ==>
      && |r.events| > 0 && r.events[0] == Start
      && (r.ok <==> methodOk && postOk)
      && (Done in r.events <==> r.ok)
      && (r.disk == if methodOk then d else UtimeAll(d, opaths, 0))
  {
    if nop then ORun(true, [SkipReadonly], pups, d)
    else if dry then
      match checkDry
      case Err(_) => ORun(false, [UpdateCheckError], pups, d)
      case Ok(true) => ORun(true, [DryRunEvent], pups + (set p | p in opaths), d)
      case Ok(false) => ORun(true, [SkipEvent], pups, d)
    else
      match check
      case Err(_) => ORun(false, [UpdateCheckError], pups, d)
      case Ok(false) => ORun(true, [SkipEvent], pups, d)
      case Ok(true) =>
        if !methodOk then ORun(false, [Start, ExecError], pups, UtimeAll(d, opaths, 0))
        else if !postOk then ORun(false, [Start, PostProcError], pups, d)
        else ORun(true, [Start, Done], pups, d)
  }

  /** After a failed method every existing output has mtime 0, which no input predates. */
  lemma ExecErrorZeroes(checkDry: Result<bool>, postOk: bool, pups: set<Path>, opaths: seq<Path>, d: Disk)
    ensures var r := OmochaProcess(false, false, checkDry, Ok(true), false, postOk, pups, opaths, d);
      !r.ok && ExecError in r.events && r.disk.files.Keys == d.files.Keys &&
      forall p :: p in opaths && p in d.files ==> r.disk.files[p].mtime == 0 && r.disk.files[p].data == d.files[p].data
  {
  }

  // ---------------------------------------------------------------------------
  // process_rule of omochamake/core/make.py

  /** `OK`, `SKIP` and `FAIL`. */
  datatype Code = OK | SKIP | FAIL

  /** What `make` makes of a code or an exception: `FAIL` and anything raised count as a failure. */
  function CodeRes(c: Result<Code>): (r: Res)
    ensures Fails(Coded, r) <==> c.Err? || c == Ok(FAIL)
    ensures !Fails(Coded, r) ==> r == Returned(true)
  {
    match c
    case Ok(FAIL) => Returned(false)
    case Ok(_) => Returned(true)
    case Err(_) => Raised
  }

  /** The code (or exception), the potentially updated paths, the warned missing inputs, and whether `update_memo` ran. */
  datatype CRun = CRun(code: Result<Code>, pups: set<Path>, warnings: seq<Path>, memoUpdated: bool)

  /** The inputs that do not exist, in order: each one only draws a warning. */
  function Missing(d: Disk, ps: seq<Path>): (r: seq<Path>)
    ensures forall p :: p in r <==> p in ps && !Exists(d, p)
  {
    if |ps| == 0 then [] else (if Exists(d, ps[0]) then [] else [ps[0]]) + Missing(d, ps[1..])
  }

  /**
   * `process_rule(rule, dry_run_info, writer, ...)` of `make.py`.
   * `isMemo` says the rule is a `RuleMemo`; `memoOk` whether its
   * `update_memo()` returns normally; the other parameters are as for
   * `OmochaProcess`. `should_update` raising propagates to `make`.
   */
  function CodedProcess(nop: bool, dry: bool, checkDry: Result<bool>, check: Result<bool>, methodOk: bool,
                        isMemo: bool, memoOk: bool, pups: set<Path>, opaths: seq<Path>, ipaths: seq<Path>, d: Disk): (r: CRun)
    ensures nop ==> r == CRun(Ok(SKIP), pups, [], false)
    ensures !nop && dry ==> r.warnings == [] && !r.memoUpdated
    ensures !nop && dry ==> r.code == (match checkDry case Err(e) => Err(e) case Ok(b) => Ok(if b then OK else SKIP))
    ensures !nop && dry ==> r.pups == if checkDry == Ok(true) then pups + (set p | p in opaths) else pups
    ensures !nop && !dry ==> r.pups == pups && r.warnings == Missing(d, ipaths)
    ensures !nop && !dry ==> r.code == (match check
                                         case Err(e) => Err(e)
                                         case Ok(false) => Ok(SKIP)
                                         case Ok(true) => Ok(if methodOk && (!isMemo || memoOk) then OK else FAIL))
    ensures r.memoUpdated <==> !nop && !dry && check == Ok(true) && methodOk && isMemo && memoOk
  {
    if nop then CRun(Ok(SKIP), pups, [], false)
    else if dry then
      match checkDry
      case Err(e) => CRun(Err(e), pups, [], false)
      case Ok(true) => CRun(Ok(OK), pups + (set p | p in opaths), [], false)
      case Ok(false) => CRun(Ok(SKIP), pups, [], false)
    else
      var warnings := Missing(d, ipaths);
      match check
      case Err(e) => CRun(Err(e), pups, warnings, false)
      case Ok(false) => CRun(Ok(SKIP), pups, warnings, false)
      case Ok(true) =>
        if !methodOk then CRun(Ok(FAIL), pups, warnings, false)
        else if isMemo && !memoOk then CRun(Ok(FAIL), pups, warnings, false)
        else CRun(Ok(OK), pups, warnings, isMemo)
  }

  /** A missing input only draws a warning: the code does not depend on which inputs exist. */
  lemma MissingInputOnlyWarns(nop: bool, dry: bool, checkDry: Result<bool>, check: Result<bool>, methodOk: bool,
                              isMemo: bool, memoOk: bool, pups: set<Path>, opaths: seq<Path>, ipaths: seq<Path>, d1: Disk, d2: Disk)
    ensures CodedProcess(nop, dry, checkDry, check, methodOk, isMemo, memoOk, pups, opaths, ipaths, d1).code ==
            CodedProcess(nop, dry, checkDry, check, methodOk, isMemo, memoOk, pups, opaths, ipaths, d2).code
    ensures CodedProcess(nop, dry, checkDry, check, methodOk, isMemo, memoOk, pups, opaths, ipaths, d1).memoUpdated ==>
            methodOk
  {
  }

  // ---------------------------------------------------------------------------
  // process_rule of lightmake/core/make.py

  /** The boolean result and whether the method ran. */
  datatype LRun = LRun(ok: bool, ran: bool)

  /**
   * `process_rule(rule, dry_run, writer, ...)` of lightmake: `deps` and
   * `outs` are `dep_path_set` and `self_path_set`, `methodOk` whether the
   * method returns normally.
   */
  function LightProcess(nop: bool, dry: bool, d: Disk, outs: seq<Path>, deps: seq<Path>, methodOk: bool): (r: LRun)
    ensures r.ran ==> !nop && !dry && (forall p :: p in deps ==> Exists(d, p)) && LegacyUtils.ShouldUpdate(d, outs, deps)
    ensures r.ok <==> nop || dry || ((forall p :: p in deps ==> Exists(d, p)) && (r.ran ==> methodOk))
    ensures !nop && !dry && (forall p :: p in deps ==> Exists(d, p)) ==> (r.ran <==> LegacyUtils.ShouldUpdate(d, outs, deps))
  {
    if nop || dry then LRun(true, false)
    else if |Missing(d, deps)| > 0 then
      assert Missing(d, deps)[0] in deps;
      LRun(false, false)
    else if !LegacyUtils.ShouldUpdate(d, outs, deps) then LRun(true, false)
    else LRun(methodOk, true)
  }

  /** A missing dependency path fails the rule whatever the outputs' times. */
  lemma MissingDepFails(d: Disk, outs: seq<Path>, outs': seq<Path>, deps: seq<Path>, methodOk: bool, p: Path)
    requires p in deps && !Exists(d, p)
    ensures LightProcess(false, false, d, outs, deps, methodOk) == LightProcess(false, false, d, outs', deps, methodOk) == LRun(false, false)
  {
  }
}
