/**
 * The sequential scheduler of `core/make.py`: `process_rule` drives one
 * rule through `check_update` and its hooks, and `make` walks the
 * dependency closure of the requested rules in topological order, skipping
 * the dependents of failed rules and stopping on a fatal error (or on a
 * failure unless `keep_going`), then folds the outcomes into a
 * `MakeSummary`.
 */
module Make {
  import opened Wrappers
  import opened Topo
  import opened UpdateResults

  /** `Result` of `core/make.py`. */
  datatype Outcome = Update | Skip | Fail | Fatal

  /** `SummaryKey`. */
  datatype SummaryKey = KUpdate | KSkip | KFail | KDiscard

  datatype MakeSummary = MakeSummary(total: nat, update: nat, skip: nat, fail: nat, discard: nat, detail: map<nat, SummaryKey>)

  const EmptySummary := MakeSummary(0, 0, 0, 0, 0, map[])

  // ---------------------------------------------------------------------------
  // MakeSummary.create

  /** The ids `detail` reports with `key`. */
  function WithKey(detail: map<nat, SummaryKey>, key: SummaryKey): set<nat> {
    set i | i in detail && detail[i] == key
  }

  /** `MakeSummary.create(detail)`: one count per key, and the total. */
  function Create(detail: map<nat, SummaryKey>): (r: MakeSummary)
    ensures r.detail == detail
    ensures r.total == |detail|
    ensures r.update + r.skip + r.fail + r.discard == r.total
    ensures r.update == |WithKey(detail, KUpdate)| && r.skip == |WithKey(detail, KSkip)|
    ensures r.fail == |WithKey(detail, KFail)| && r.discard == |WithKey(detail, KDiscard)|
  {
    KeysPartition(detail);
    MakeSummary(|detail|, |WithKey(detail, KUpdate)|, |WithKey(detail, KSkip)|,
                |WithKey(detail, KFail)|, |WithKey(detail, KDiscard)|, detail)
  }

  /** Every reported id has exactly one of the four keys. */
  lemma KeysPartition(detail: map<nat, SummaryKey>)
    ensures |WithKey(detail, KUpdate)| + |WithKey(detail, KSkip)| + |WithKey(detail, KFail)| + |WithKey(detail, KDiscard)| == |detail|
  {
    var u, s, f, d := WithKey(detail, KUpdate), WithKey(detail, KSkip), WithKey(detail, KFail), WithKey(detail, KDiscard);
    assert detail.Keys == u + s + f + d;
    assert |u + s| == |u| + |s|;
    assert |u + s + f| == |u + s| + |f|;
    assert |u + s + f + d| == |u + s + f| + |d|;
  }

  // ---------------------------------------------------------------------------
  // process_rule

  /** The events `process_rule` reports through its callback. */
  datatype Event =
    | UpdateInfeasible
    | DryRun
    | SkipEvent(isMain: bool)
    | Start
    | PreProcError
    | ExecError
    | PostProcError
    | Done

  /** The calls `process_rule` makes into the rule. */
  datatype Hook = Preprocess | Method | Postprocess(succ: bool)

  /** What one `process_rule` call did; an `Err` outcome is an exception it let through. */
  datatype Run = Run(outcome: Result<Outcome>, events: seq<Event>, hooks: seq<Hook>)

  /**
   * `process_rule(rule, dry_run, par_updated, is_main, ...)`. `verdict` is
   * what `rule.check_update(par_updated, dry_run)` returned or raised;
   * `preOk`, `methodOk` and `postOk` say whether `preprocess`, `method`
   * and `postprocess(succ)` return normally.
   */
  function ProcessRule(dry: bool, isMain: bool, verdict: Result<Verdict>, preOk: bool, methodOk: bool, postOk: bool): (r: Run)
    ensures verdict.Err? ==> r == Run(Err(verdict.error), [], [])
    ensures dry ==> r.hooks == []
    ensures dry && verdict.Ok? ==> r.outcome == Ok(match verdict.value
                                                   case Infeasible => Fail
                                                   case Necessary => Update
                                                   case PossiblyNecessary => Update
                                                   case UpToDate => Skip)
    ensures !dry && verdict == Ok(UpToDate) ==> r == Run(Ok(Skip), [SkipEvent(isMain)], [])
    ensures !dry && verdict == Ok(Infeasible) ==> r == Run(Ok(Fail), [UpdateInfeasible], [])
    ensures !dry && verdict == Ok(PossiblyNecessary) ==> r.outcome == Err(Failure) && r.hooks == []
    ensures !dry && verdict == Ok(Necessary) ==>
      && r.outcome.Ok?
      && r.hooks == (if preOk then [Preprocess, Method, Postprocess(methodOk)] else [Preprocess])
      && (r.outcome.value == Update <==> preOk && methodOk && postOk)
      && (r.outcome.value != Update ==> r.outcome.value == Fail)
  {
    if verdict.Err? then Run(Err(verdict.error), [], [])
    else if dry then
      match verdict.value
      case Infeasible => Run(Ok(Fail), [UpdateInfeasible], [])
      case Necessary => Run(Ok(Update), [DryRun], [])
      case PossiblyNecessary => Run(Ok(Update), [DryRun], [])
      case UpToDate => Run(Ok(Skip), [SkipEvent(isMain)], [])
    else
      match verdict.value
      case Infeasible => Run(Ok(Fail), [UpdateInfeasible], [])
      case UpToDate => Run(Ok(Skip), [SkipEvent(isMain)], [])
      case PossiblyNecessary => Run(Err(Failure), [], [])
      case Necessary =>
        if !preOk then Run(Ok(Fail), [Start, PreProcError], [Preprocess])
        else
          var hooks := [Preprocess, Method, Postprocess(methodOk)];
          var execEvents := if methodOk then [] else [ExecError];
          if !postOk then Run(Ok(Fail), [Start] + execEvents + [PostProcError], hooks)
          else if methodOk then Run(Ok(Update), [Start, Done], hooks)
          else Run(Ok(Fail), [Start, ExecError], hooks)
  }

  /**
   * A rule is reported updated only when its verdict called for an update
   * and, outside a dry run, its method and postprocess both succeeded; the
   * `Done` event is emitted exactly then.
   */
  lemma UpdateNeedsSuccess(dry: bool, isMain: bool, verdict: Result<Verdict>, preOk: bool, methodOk: bool, postOk: bool)
    ensures var r := ProcessRule(dry, isMain, verdict, preOk, methodOk, postOk);
      r.outcome == Ok(Update) <==>
        verdict.Ok? && (if dry then verdict.value in {Necessary, PossiblyNecessary}
                        else verdict.value == Necessary && preOk && methodOk && postOk)
    ensures var r := ProcessRule(dry, isMain, verdict, preOk, methodOk, postOk);
      !dry ==> (Done in r.events <==> r.outcome == Ok(Update))
    ensures var r := ProcessRule(dry, isMain, verdict, preOk, methodOk, postOk);
      Method in r.hooks ==> Postprocess(methodOk) in r.hooks
  {
  }

  /** The `try`/`except` around `process_rule` in `make`: anything raised is `Fatal`. */
  function Settle(r: Result<Outcome>): (o: Outcome)
    ensures r.Ok? ==> o == r.value
    ensures r.Err? ==> o == Fatal
  {
    match r
    case Ok(o) => o
    case Err(_) => Fatal
  }

  // ---------------------------------------------------------------------------
  // make

  /** One `process_rule` call of the walk. */
  datatype Call = Call(id: nat, par: bool, isMain: bool, outcome: Outcome)

  /** The summary key of a processed rule. */
  function KeyOf(o: Outcome): (k: SummaryKey)
    ensures k != KDiscard
    ensures k == KFail <==> o in {Fail, Fatal}
  {
    match o
    case Update => KUpdate
    case Skip => KSkip
    case Fail => KFail
    case Fatal => KFail
  }

  /** An outcome after which the walk breaks. */
  predicate Stops(o: Outcome, keepGoing: bool) {
    o == Fatal || (o == Fail && !keepGoing)
  }

  predicate Succeeded(o: Outcome) {
    o == Update || o == Skip
  }

  function CalledIds(calls: seq<Call>): set<nat> {
    set k | 0 <= k < |calls| :: calls[k].id
  }

  function SucceededIds(calls: seq<Call>): set<nat> {
    set k | 0 <= k < |calls| && Succeeded(calls[k].outcome) :: calls[k].id
  }

  function UpdatedIds(calls: seq<Call>): set<nat> {
    set k | 0 <= k < |calls| && calls[k].outcome == Update :: calls[k].id
  }

  /** `any(dep in s for dep in deps)`. */
  function AnyIn(ds: seq<nat>, s: set<nat>): (r: bool)
    ensures r <==> exists m :: 0 <= m < |ds| && ds[m] in s
  {
    if |ds| == 0 then false else ds[0] in s || AnyIn(ds[1..], s)
  }

  /** The closing loop of `make`: every listed id not yet reported is "discard". */
  function FillDiscards(detail: map<nat, SummaryKey>, target: seq<nat>): (r: map<nat, SummaryKey>)
    ensures r.Keys == detail.Keys + Elems(target)
    ensures forall i :: i in detail ==> r[i] == detail[i]
    ensures forall i :: i in r && i !in detail ==> r[i] == KDiscard
  {
    map i | i in detail.Keys + Elems(target) :: if i in detail then detail[i] else KDiscard
  }

  /** `par_updated` of the `k`-th call: an earlier call updated one of its dependencies. */
  predicate ParOk(g: Graph, calls: seq<Call>, k: nat)
    requires k < |calls| && calls[k].id < |g|
  {
    calls[k].par <==> exists j :: 0 <= j < k && calls[j].outcome == Update && calls[j].id in g[calls[k].id]
  }

  /** No call follows a call of one of its dependencies that failed. */
  predicate NoFailedDep(g: Graph, calls: seq<Call>) {
    forall k, j :: 0 <= j < k < |calls| && calls[k].id < |g| && calls[j].id in g[calls[k].id] ==> Succeeded(calls[j].outcome)
  }

  /** Each dependency of a called rule was called earlier and succeeded. */
  predicate DepsSucceededEarlier(g: Graph, calls: seq<Call>) {
    forall k, m :: 0 <= k < |calls| && calls[k].id < |g| && 0 <= m < |g[calls[k].id]| ==>
      exists j :: 0 <= j < k && calls[j].id == g[calls[k].id][m] && Succeeded(calls[j].outcome)
  }

  /** The walk breaks only at its last call. */
  predicate StopsOnlyLast(calls: seq<Call>, keepGoing: bool) {
    forall k :: 0 <= k < |calls| - 1 ==> !Stops(calls[k].outcome, keepGoing)
  }

  /** Some dependency of `i` failed or was discarded. */
  predicate HasFailedDep(g: Graph, detail: map<nat, SummaryKey>, i: nat)
    requires i < |g|
  {
    exists m :: 0 <= m < |g[i]| && g[i][m] in detail && detail[g[i][m]] in {KFail, KDiscard}
  }

  // ---------------------------------------------------------------------------
  // The loop state of `make` and its invariant

  /** `failed_ids`, `updated_ids`, `summary` and the walk's position; `calls` records the `process_rule` calls. */
  datatype Walk = Walk(idx: nat, failed: set<nat>, updated: set<nat>, detail: map<nat, SummaryKey>,
                       calls: seq<Call>, stopped: bool, stopEvent: bool)

  /** What `_toplogical_sort` promises about the list the loop walks. */
  predicate Target(g: Graph, target: seq<nat>) {
    && Valid(g)
    && NoDup(target)
    && (forall m :: 0 <= m < |target| ==> target[m] < |g|)
    && (Ordered(g) ==> TopoOrdered(g, target))
  }

  /** The calls and `summary` so far: one call per processed rule, in `summary` with its key. */
  predicate CallBooks(ids: seq<nat>, target: seq<nat>, w: Walk) {
    && w.idx <= |target|
    && w.detail.Keys == CalledIds(w.calls)
    && (forall k :: 0 <= k < |w.calls| ==> w.calls[k].id in w.detail && w.detail[w.calls[k].id] == KeyOf(w.calls[k].outcome))
    && (forall k :: 0 <= k < |w.calls| ==> w.calls[k].id in target[..w.idx])
    && (forall k, j :: 0 <= j < k < |w.calls| ==> w.calls[j].id != w.calls[k].id)
    && (forall k :: 0 <= k < |w.calls| ==> (w.calls[k].isMain <==> w.calls[k].id in ids))
  }

  /** `updated_ids` and `failed_ids` agree with the calls made on the first `idx` listed rules. */
  predicate SetBooks(g: Graph, target: seq<nat>, w: Walk) {
    && w.idx <= |target|
    && w.updated == UpdatedIds(w.calls)
    && w.failed == Elems(target[..w.idx]) - SucceededIds(w.calls)
    && (forall i :: i in w.failed && i !in w.detail ==> i < |g| && exists m :: 0 <= m < |g[i]| && g[i][m] in w.failed)
  }

  predicate Books(g: Graph, ids: seq<nat>, target: seq<nat>, w: Walk) {
    CallBooks(ids, target, w) && SetBooks(g, target, w)
  }

  /** What each call saw of its dependencies. */
  predicate DepsSeen(g: Graph, calls: seq<Call>) {
    && (forall k :: 0 <= k < |calls| ==> calls[k].id < |g| && ParOk(g, calls, k))
    && NoFailedDep(g, calls)
    && (Ordered(g) ==> DepsSucceededEarlier(g, calls))
  }

  /** The walk stops right after the call that breaks it. */
  predicate StopState(keepGoing: bool, w: Walk) {
    && StopsOnlyLast(w.calls, keepGoing)
    && (!w.stopped ==> forall k :: 0 <= k < |w.calls| ==> !Stops(w.calls[k].outcome, keepGoing))
    && (w.stopped ==> |w.calls| > 0 && Stops(w.calls[|w.calls| - 1].outcome, keepGoing))
    && (w.stopEvent <==> w.stopped && w.calls[|w.calls| - 1].outcome == Fail && !keepGoing)
  }

  predicate Inv(g: Graph, ids: seq<nat>, target: seq<nat>, keepGoing: bool, w: Walk) {
    Books(g, ids, target, w) && DepsSeen(g, w.calls) && StopState(keepGoing, w)
  }

  /** A rule with a failed dependency joins `failed_ids` and is not processed. */
  function SkipRule(w: Walk, i: nat): Walk {
    w.(idx := w.idx + 1, failed := w.failed + {i})
  }

  /** The bookkeeping after `process_rule` returned `o` for rule `i`. */
  function RecordCall(w: Walk, i: nat, par: bool, isMain: bool, o: Outcome, keepGoing: bool): Walk {
    Walk(w.idx + 1,
         if Succeeded(o) then w.failed else w.failed + {i},
         if o == Update then w.updated + {i} else w.updated,
         w.detail[i := KeyOf(o)],
         w.calls + [Call(i, par, isMain, o)],
         w.stopped || Stops(o, keepGoing),
         if Stops(o, keepGoing) then o == Fail else w.stopEvent)
  }

  /** The id sets of the calls grow by the new call's id. */
  lemma AppendIds(calls: seq<Call>, c: Call)
    ensures CalledIds(calls + [c]) == CalledIds(calls) + {c.id}
    ensures SucceededIds(calls + [c]) == SucceededIds(calls) + (if Succeeded(c.outcome) then {c.id} else {})
    ensures UpdatedIds(calls + [c]) == UpdatedIds(calls) + (if c.outcome == Update then {c.id} else {})
  {
    var calls' := calls + [c];
    assert forall k :: 0 <= k < |calls| ==> calls'[k] == calls[k];
    assert calls'[|calls|] == c;
  }

  lemma SkipKeeps(g: Graph, ids: seq<nat>, target: seq<nat>, keepGoing: bool, w: Walk)
    requires Target(g, target) && Inv(g, ids, target, keepGoing, w)
    requires w.idx < |target| && !w.stopped && AnyIn(g[target[w.idx]], w.failed)
    ensures Inv(g, ids, target, keepGoing, SkipRule(w, target[w.idx]))
  {
    var i := target[w.idx];
    var w' := SkipRule(w, i);
    assert target[..w.idx + 1] == target[..w.idx] + [i];
    assert i !in SucceededIds(w.calls);
    forall x | x in w'.failed && x !in w'.detail
      ensures x < |g| && exists m :: 0 <= m < |g[x]| && g[x][m] in w'.failed
    {
      if x != i {
        var m :| 0 <= m < |g[x]| && g[x][m] in w.failed;
      }
    }
  }

  lemma RecordCallBooks(ids: seq<nat>, target: seq<nat>, keepGoing: bool, w: Walk, par: bool, o: Outcome)
    requires NoDup(target) && CallBooks(ids, target, w) && w.idx < |target|
    ensures CallBooks(ids, target, RecordCall(w, target[w.idx], par, target[w.idx] in ids, o, keepGoing))
  {
    var i := target[w.idx];
    var c := Call(i, par, i in ids, o);
    var calls' := w.calls + [c];
    var w' := RecordCall(w, i, par, i in ids, o, keepGoing);
    AppendIds(w.calls, c);
    assert target[..w.idx + 1] == target[..w.idx] + [i];
    assert i !in CalledIds(w.calls);
    forall k | 0 <= k < |calls'|
      ensures calls'[k].id in target[..w.idx + 1]
      ensures calls'[k].id in w'.detail && w'.detail[calls'[k].id] == KeyOf(calls'[k].outcome)
      ensures calls'[k].isMain <==> calls'[k].id in ids
    {
      if k < |w.calls| {
        assert calls'[k] == w.calls[k];
      }
    }
    forall k, j | 0 <= j < k < |calls'|
      ensures calls'[j].id != calls'[k].id
    {
      assert calls'[j] == w.calls[j];
      if k == |w.calls| {
        assert calls'[j].id in CalledIds(w.calls);
      } else {
        assert calls'[k] == w.calls[k];
      }
    }
  }

  lemma RecordSetBooks(g: Graph, ids: seq<nat>, target: seq<nat>, keepGoing: bool, w: Walk, par: bool, o: Outcome)
    requires NoDup(target) && CallBooks(ids, target, w) && SetBooks(g, target, w) && w.idx < |target|
    ensures SetBooks(g, target, RecordCall(w, target[w.idx], par, target[w.idx] in ids, o, keepGoing))
  {
    var i := target[w.idx];
    var c := Call(i, par, i in ids, o);
    var w' := RecordCall(w, i, par, i in ids, o, keepGoing);
    AppendIds(w.calls, c);
    assert target[..w.idx + 1] == target[..w.idx] + [i];
    assert i !in SucceededIds(w.calls);
    forall x | x in w'.failed && x !in w'.detail
      ensures x < |g| && exists m :: 0 <= m < |g[x]| && g[x][m] in w'.failed
    {
      var m :| 0 <= m < |g[x]| && g[x][m] in w.failed;
    }
  }

  lemma RecordBooks(g: Graph, ids: seq<nat>, target: seq<nat>, keepGoing: bool, w: Walk, par: bool, o: Outcome)
    requires Target(g, target) && Books(g, ids, target, w)
    requires w.idx < |target|
    ensures Books(g, ids, target, RecordCall(w, target[w.idx], par, target[w.idx] in ids, o, keepGoing))
  {
    RecordCallBooks(ids, target, keepGoing, w, par, o);
    RecordSetBooks(g, ids, target, keepGoing, w, par, o);
  }

  /** The new call's `par_updated` reads `updated_ids`, which holds the earlier updated calls. */
  lemma RecordPar(g: Graph, calls: seq<Call>, c: Call, updated: set<nat>)
    requires Valid(g) && c.id < |g|
    requires forall k :: 0 <= k < |calls| ==> calls[k].id < |g| && ParOk(g, calls, k)
    requires updated == UpdatedIds(calls) && c.par == AnyIn(g[c.id], updated)
    ensures forall k :: 0 <= k < |calls + [c]| ==> (calls + [c])[k].id < |g| && ParOk(g, calls + [c], k)
  {
    var calls1 := calls + [c];
    var n := |calls|;
    forall k | 0 <= k < |calls1|
      ensures calls1[k].id < |g| && ParOk(g, calls1, k)
    {
      if k < n {
        assert calls1[k] == calls[k];
        assert ParOk(g, calls, k);
        assert forall j :: 0 <= j < k ==> calls1[j] == calls[j];
      } else if c.par {
        var m :| 0 <= m < |g[c.id]| && g[c.id][m] in updated;
        var j :| 0 <= j < n && calls[j].outcome == Update && calls[j].id == g[c.id][m];
        assert calls1[j] == calls[j];
      } else {
        assert forall j :: 0 <= j < n ==> calls1[j] == calls[j];
      }
    }
  }

  /** The new call has no failed dependency among the earlier calls. */
  lemma RecordNoFailedDep(g: Graph, target: seq<nat>, idx: nat, calls: seq<Call>, c: Call, failed: set<nat>)
    requires Valid(g) && idx < |target| && c.id == target[idx] && c.id < |g|
    requires forall k :: 0 <= k < |calls| ==> calls[k].id in target[..idx]
    requires forall k, j :: 0 <= j < k < |calls| ==> calls[j].id != calls[k].id
    requires failed == Elems(target[..idx]) - SucceededIds(calls)
    requires !AnyIn(g[c.id], failed)
    requires NoFailedDep(g, calls)
    ensures NoFailedDep(g, calls + [c])
  {
    var calls1 := calls + [c];
    var n := |calls|;
    forall k, j | 0 <= j < k < |calls1| && calls1[k].id < |g| && calls1[j].id in g[calls1[k].id]
      ensures Succeeded(calls1[j].outcome)
    {
      assert calls1[j] == calls[j];
      if k < n {
        assert calls1[k] == calls[k];
      }
    }
  }

  /** On an ordered graph every dependency of the new call has a succeeded earlier call. */
  lemma RecordDepsSucceeded(g: Graph, target: seq<nat>, idx: nat, calls: seq<Call>, c: Call, failed: set<nat>)
    requires Valid(g) && Ordered(g) && TopoOrdered(g, target)
    requires idx < |target| && c.id == target[idx] && c.id < |g|
    requires failed == Elems(target[..idx]) - SucceededIds(calls)
    requires !AnyIn(g[c.id], failed)
    requires DepsSucceededEarlier(g, calls)
    ensures DepsSucceededEarlier(g, calls + [c])
  {
    var calls1 := calls + [c];
    var n := |calls|;
    forall k, m | 0 <= k < |calls1| && calls1[k].id < |g| && 0 <= m < |g[calls1[k].id]|
      ensures exists j :: 0 <= j < k && calls1[j].id == g[calls1[k].id][m] && Succeeded(calls1[j].outcome)
    {
      if k < n {
        assert calls1[k] == calls[k];
        var j :| 0 <= j < k && calls[j].id == g[calls[k].id][m] && Succeeded(calls[j].outcome);
        assert calls1[j] == calls[j];
      } else {
        var d := g[c.id][m];
        assert d in target[..idx];
        assert d !in failed;
        assert d in SucceededIds(calls);
        var j :| 0 <= j < n && Succeeded(calls[j].outcome) && calls[j].id == d;
        assert calls1[j] == calls[j];
      }
    }
  }

  lemma RecordDeps(g: Graph, ids: seq<nat>, target: seq<nat>, keepGoing: bool, w: Walk, o: Outcome)
    requires Target(g, target) && Books(g, ids, target, w) && DepsSeen(g, w.calls)
    requires w.idx < |target| && !AnyIn(g[target[w.idx]], w.failed)
    ensures DepsSeen(g, RecordCall(w, target[w.idx], AnyIn(g[target[w.idx]], w.updated), target[w.idx] in ids, o, keepGoing).calls)
  {
    var i := target[w.idx];
    var c := Call(i, AnyIn(g[i], w.updated), i in ids, o);
    assert RecordCall(w, i, c.par, c.isMain, o, keepGoing).calls == w.calls + [c];
    RecordPar(g, w.calls, c, w.updated);
    RecordNoFailedDep(g, target, w.idx, w.calls, c, w.failed);
    if Ordered(g) {
      RecordDepsSucceeded(g, target, w.idx, w.calls, c, w.failed);
    }
  }

  lemma RecordStop(keepGoing: bool, w: Walk, i: nat, par: bool, isMain: bool, o: Outcome)
    requires StopState(keepGoing, w) && !w.stopped
    ensures StopState(keepGoing, RecordCall(w, i, par, isMain, o, keepGoing))
  {
  }

  /** One more call keeps the invariant. */
  lemma RecordKeeps(g: Graph, ids: seq<nat>, target: seq<nat>, keepGoing: bool, w: Walk, o: Outcome)
    requires Target(g, target) && Inv(g, ids, target, keepGoing, w)
    requires w.idx < |target| && !w.stopped && !AnyIn(g[target[w.idx]], w.failed)
    ensures Inv(g, ids, target, keepGoing,
                RecordCall(w, target[w.idx], AnyIn(g[target[w.idx]], w.updated), target[w.idx] in ids, o, keepGoing))
  {
    var i := target[w.idx];
    RecordBooks(g, ids, target, keepGoing, w, AnyIn(g[i], w.updated), o);
    RecordDeps(g, ids, target, keepGoing, w, o);
    RecordStop(keepGoing, w, i, AnyIn(g[i], w.updated), i in ids, o);
  }

  /** The summary `make` returns for the final loop state. */
  function Final(target: seq<nat>, w: Walk): MakeSummary {
    Create(FillDiscards(w.detail, target))
  }

  /** Every listed rule is reported, a processed one with its outcome's key and any other as "discard". */
  lemma FinalDetail(g: Graph, ids: seq<nat>, target: seq<nat>, w: Walk)
    requires Target(g, target) && CallBooks(ids, target, w)
    ensures Final(target, w).detail.Keys == Elems(target)
    ensures forall k :: 0 <= k < |w.calls| ==> w.calls[k].id in Final(target, w).detail && Final(target, w).detail[w.calls[k].id] == KeyOf(w.calls[k].outcome)
    ensures forall i :: i in Final(target, w).detail ==> (Final(target, w).detail[i] == KDiscard <==> i !in CalledIds(w.calls))
  {
    var full := FillDiscards(w.detail, target);
    assert Elems(target[..w.idx]) <= Elems(target);
    forall i | i in full
      ensures full[i] == KDiscard <==> i !in CalledIds(w.calls)
    {
      if i in CalledIds(w.calls) {
        var k :| 0 <= k < |w.calls| && w.calls[k].id == i;
      }
    }
  }

  /** When the walk ran to the end, a rule is discarded only for a failed or discarded dependency. */
  lemma FinalDiscards(g: Graph, ids: seq<nat>, target: seq<nat>, keepGoing: bool, w: Walk)
    requires Target(g, target) && Books(g, ids, target, w) && w.idx == |target|
    ensures forall i :: i in Final(target, w).detail && Final(target, w).detail[i] == KDiscard ==>
      i < |g| && HasFailedDep(g, Final(target, w).detail, i)
  {
    var full := FillDiscards(w.detail, target);
    assert target[..w.idx] == target;
    forall i | i in full && full[i] == KDiscard
      ensures i < |g| && HasFailedDep(g, full, i)
    {
      assert i in w.failed;
      var m :| 0 <= m < |g[i]| && g[i][m] in w.failed;
      assert full[g[i][m]] in {KFail, KDiscard};
    }
  }

  /** The `for i in ids` loop of `make`, until the list ends or an outcome breaks it. */
  method WalkRules<S>(g: Graph, ids: seq<nat>, target: seq<nat>, keepGoing: bool, s0: S, process: (S, nat, bool, bool) -> (Outcome, S))
    returns (w: Walk, s: S)
    requires Target(g, target)
    ensures Inv(g, ids, target, keepGoing, w)
    ensures w.stopped || w.idx == |target|
  {
    w, s := Walk(0, {}, {}, map[], [], false, false), s0;
    while w.idx < |target| && !w.stopped
      invariant Inv(g, ids, target, keepGoing, w)
      decreases |target| - w.idx
    {
      var i := target[w.idx];
      if AnyIn(g[i], w.failed) {
        SkipKeeps(g, ids, target, keepGoing, w);
        w := SkipRule(w, i);
      } else {
        var par := AnyIn(g[i], w.updated);
        var r := process(s, i, par, i in ids);
        s := r.1;
        RecordKeeps(g, ids, target, keepGoing, w, r.0);
        w := RecordCall(w, i, par, i in ids, r.0, keepGoing);
      }
    }
  }

  /**
   * `make(id2rule, ids, dry_run, keep_going, callback)`. `process(s, i,
   * par_updated, is_main)` stands for `process_rule` on rule `i`, with any
   * exception it raises already settled to `Fatal`, and `s` for the state
   * it acts on (the file system and the callback's log).
   */
  method Make<S>(g: Graph, ids: seq<nat>, keepGoing: bool, s0: S, process: (S, nat, bool, bool) -> (Outcome, S))
    returns (summary: MakeSummary, calls: seq<Call>, stopEvent: bool, s: S)
    requires Valid(g) && ValidIds(g, ids)
    ensures |ids| == 0 ==> summary == EmptySummary && calls == []
    ensures summary == Create(summary.detail)
    ensures summary.detail.Keys == Elems(TopoSort(g, ids))
    ensures forall k :: 0 <= k < |calls| ==> calls[k].id in summary.detail && summary.detail[calls[k].id] == KeyOf(calls[k].outcome)
    ensures forall i :: i in summary.detail ==> (summary.detail[i] == KDiscard <==> i !in CalledIds(calls))
    ensures forall k, j :: 0 <= j < k < |calls| ==> calls[j].id != calls[k].id
    ensures forall k :: 0 <= k < |calls| ==> (calls[k].isMain <==> calls[k].id in ids)
    ensures DepsSeen(g, calls)
    ensures StopsOnlyLast(calls, keepGoing)
    ensures stopEvent <==> |calls| > 0 && calls[|calls| - 1].outcome == Fail && !keepGoing
    ensures (forall k :: 0 <= k < |calls| ==> !Stops(calls[k].outcome, keepGoing)) ==>
      forall i :: i in summary.detail && summary.detail[i] == KDiscard ==> i < |g| && HasFailedDep(g, summary.detail, i)
  {
    calls, stopEvent, s := [], false, s0;
    if |ids| == 0 {
      summary := EmptySummary;
      return;
    }
    var target := TopoSort(g, ids);
    if Ordered(g) {
      TopoSortOrdered(g, ids);
    }
    var w;
    w, s := WalkRules(g, ids, target, keepGoing, s0, process);
    calls, stopEvent := w.calls, w.stopEvent;
    WalkDone(g, ids, target, keepGoing, w);
    summary := Final(target, w);
  }

  /** What the finished walk leaves behind: the summary's keys, the calls and the discards. */
  lemma WalkDone(g: Graph, ids: seq<nat>, target: seq<nat>, keepGoing: bool, w: Walk)
    requires Target(g, target) && Inv(g, ids, target, keepGoing, w) && (w.stopped || w.idx == |target|)
    ensures Final(target, w) == Create(Final(target, w).detail)
    ensures Final(target, w).detail.Keys == Elems(target)
    ensures forall k :: 0 <= k < |w.calls| ==> w.calls[k].id in Final(target, w).detail && Final(target, w).detail[w.calls[k].id] == KeyOf(w.calls[k].outcome)
    ensures forall i :: i in Final(target, w).detail ==> (Final(target, w).detail[i] == KDiscard <==> i !in CalledIds(w.calls))
    ensures forall k, j :: 0 <= j < k < |w.calls| ==> w.calls[j].id != w.calls[k].id
    ensures forall k :: 0 <= k < |w.calls| ==> (w.calls[k].isMain <==> w.calls[k].id in ids)
    ensures DepsSeen(g, w.calls)
    ensures StopsOnlyLast(w.calls, keepGoing)
    ensures w.stopEvent <==> |w.calls| > 0 && w.calls[|w.calls| - 1].outcome == Fail && !keepGoing
    ensures (forall k :: 0 <= k < |w.calls| ==> !Stops(w.calls[k].outcome, keepGoing)) ==>
      forall i :: i in Final(target, w).detail && Final(target, w).detail[i] == KDiscard ==> i < |g| && HasFailedDep(g, Final(target, w).detail, i)
  {
    FinalDetail(g, ids, target, w);
    if !w.stopped {
      FinalDiscards(g, ids, target, keepGoing, w);
    }
  }

  /**
   * On an ordered graph a rule with a dependency that failed or was
   * discarded is itself discarded, and when the walk did not stop that is
   * the only way a rule is discarded.
   */
  lemma DiscardIff(g: Graph, detail: map<nat, SummaryKey>, calls: seq<Call>, i: nat)
    requires i in detail && i < |g| && Ordered(g)
    requires forall k :: 0 <= k < |calls| ==> calls[k].id in detail && detail[calls[k].id] == KeyOf(calls[k].outcome)
    requires forall x :: x in detail ==> (detail[x] == KDiscard <==> x !in CalledIds(calls))
    requires DepsSeen(g, calls)
    requires forall x :: x in detail && detail[x] == KDiscard ==> x < |g| && HasFailedDep(g, detail, x)
    ensures detail[i] == KDiscard <==> HasFailedDep(g, detail, i)
  {
  }
}
