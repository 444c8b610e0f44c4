/**
 * The rule of the `group_tree` engine (`raw_rule.py`): `check_update` runs
 * five checks in order and returns the first verdict one of them gives;
 * `postprocess` saves the memo after a success and invalidates the outputs
 * after a failure.
 *
 * The memo object is foreign to this file: `cmp(data)` stands for
 * `memo.compare(memo.loads(data))` on the bytes of the memo file, and
 * `dumped` for `b"".join(memo.dumps())`.
 */
module RawRule {
  import opened Wrappers
  import opened Paths
  import opened Fs
  import opened UpdateResults

  /** The fields `check_update` and `postprocess` read. */
  datatype Rule = Rule(ys: seq<Path>, xs: seq<Path>, xIsOrig: seq<bool>, xIsVf: seq<bool>)

  /** `Rule.__init__`: one "original" flag per input is asserted. */
  function NewRule(ys: seq<Path>, xs: seq<Path>, xIsOrig: seq<bool>, xIsVf: seq<bool>): (r: Result<Rule>)
    ensures r.Err? <==> |xs| != |xIsOrig|
    ensures r.Err? ==> r.error == AssertionError
    ensures r.Ok? ==> r.value == Rule(ys, xs, xIsOrig, xIsVf)
  {
    if |xs| != |xIsOrig| then Err(AssertionError) else Ok(Rule(ys, xs, xIsOrig, xIsVf))
  }

  /** `metadata_fname`: `ys[0].parent / ".jtcmake" / ys[0].name`; no outputs raises `IndexError`. */
  function MetadataFname(r: Rule): (m: Result<Path>)
    ensures m.Err? <==> |r.ys| == 0
    ensures m.Err? ==> m.error == IndexError
    ensures m.Ok? ==> m.value == MetadataPath(r.ys[0])
  {
    if |r.ys| == 0 then Err(IndexError) else Ok(MetadataPath(r.ys[0]))
  }

  /** A file the checks treat as unusable: missing, or with mtime 0. */
  predicate Invalid(d: Disk, p: Path) {
    !Exists(d, p) || d.files[p].mtime == 0
  }

  /** Input `j` is one step 1 looks at and may reject: `zip` stops at the shorter list, and a dry run only rejects originals. */
  predicate Checked(r: Rule, dry: bool, j: int) {
    0 <= j < |r.xs| && j < |r.xIsOrig| && (!dry || r.xIsOrig[j])
  }

  predicate BadInput(d: Disk, r: Rule, dry: bool) {
    exists j :: 0 <= j < |r.xs| && Checked(r, dry, j) && Invalid(d, r.xs[j])
  }

  predicate BadOutput(d: Disk, r: Rule) {
    exists i :: 0 <= i < |r.ys| && Invalid(d, r.ys[i])
  }

  /** `_check_update_1`, from input `i` on. */
  function Step1(d: Disk, r: Rule, dry: bool, i: nat): (v: Option<Verdict>)
    ensures v.Some? <==> exists j :: i <= j && Checked(r, dry, j) && Invalid(d, r.xs[j])
    ensures v.Some? ==> v.value == Infeasible
    decreases |r.xs| - i
  {
    if i >= |r.xs| || i >= |r.xIsOrig| then None
    else if Invalid(d, r.xs[i]) && (!dry || r.xIsOrig[i]) then Some(Infeasible)
    else Step1(d, r, dry, i + 1)
  }

  /** `_check_update_2`: a missing output, then an output with mtime 0. */
  function Step2(d: Disk, r: Rule): (v: Option<Verdict>)
    ensures v.Some? <==> BadOutput(d, r)
    ensures v.Some? ==> v.value == Necessary
  {
    if exists i :: 0 <= i < |r.ys| && !Exists(d, r.ys[i]) then Some(Necessary)
    else if exists i :: 0 <= i < |r.ys| && d.files[r.ys[i]].mtime == 0 then Some(Necessary)
    else None
  }

  /** `_check_update_3`. */
  function Step3(dry: bool, parUpdated: bool): (v: Option<Verdict>)
    ensures v.Some? <==> dry && parUpdated
    ensures v.Some? ==> v.value == PossiblyNecessary
  {
    if dry && parUpdated then Some(PossiblyNecessary) else None
  }

  /** Input `j` is a plain (not value) file newer than `oldest`. */
  predicate NewerPlain(d: Disk, r: Rule, oldest: int, j: int) {
    0 <= j < |r.xs| && j < |r.xIsVf| && !r.xIsVf[j] && Exists(d, r.xs[j]) && d.files[r.xs[j]].mtime > oldest
  }

  /** Every plain input of the `zip` exists, so step 4 can read its mtime. */
  predicate PlainInputsExist(d: Disk, r: Rule) {
    forall j :: 0 <= j < |r.xs| && j < |r.xIsVf| && !r.xIsVf[j] ==> Exists(d, r.xs[j])
  }

  /** The scan of step 4 from input `i` on; `getmtime` of a missing plain input raises. */
  function AnyNewer(d: Disk, r: Rule, oldest: int, i: nat): (v: Result<Option<Verdict>>)
    ensures PlainInputsExist(d, r) ==> v.Ok?
    ensures v.Ok? ==> (v.value.Some? <==> exists j :: i <= j && NewerPlain(d, r, oldest, j))
    ensures v.Ok? && v.value.Some? ==> v.value.value == Necessary
    ensures v.Err? ==> v.error == FileNotFound
    decreases |r.xs| - i
  {
    if i >= |r.xs| || i >= |r.xIsVf| then Ok(None)
    else if r.xIsVf[i] then AnyNewer(d, r, oldest, i + 1)
    else
      var m :- GetMtime(d, r.xs[i]);
      if m > oldest then
        assert NewerPlain(d, r, oldest, i);
        Ok(Some(Necessary))
      else AnyNewer(d, r, oldest, i + 1)
  }

  /** `_check_update_4`: a plain input strictly newer than the oldest output. */
  function Step4(d: Disk, r: Rule): (v: Result<Option<Verdict>>)
    ensures !AllExist(d, r.ys) ==> v == Err(AssertionError)
    ensures AllExist(d, r.ys) && |r.ys| == 0 ==> v == Err(ValueError)
    ensures AllExist(d, r.ys) && |r.ys| > 0 ==> v == AnyNewer(d, r, OldestMtime(d, r.ys), 0)
  {
    if !AllExist(d, r.ys) then Err(AssertionError)
    else if |r.ys| == 0 then Err(ValueError)
    else AnyNewer(d, r, OldestMtime(d, r.ys), 0)
  }

  /** `_check_update_5`: no memo file, or a stored memo that does not compare equal. */
  function Step5(d: Disk, meta: Path, cmp: Bytes -> Result<bool>): (v: Result<Option<Verdict>>)
    ensures !Exists(d, meta) ==> v == Ok(Some(Necessary))
    ensures Exists(d, meta) ==> (v.Err? <==> cmp(d.files[meta].data).Err?)
    ensures Exists(d, meta) && v.Ok? ==> (v.value.None? <==> cmp(d.files[meta].data) == Ok(true))
    ensures v.Ok? && v.value.Some? ==> v.value.value == Necessary
  {
    if !Exists(d, meta) then Ok(Some(Necessary))
    else
      var eq :- cmp(d.files[meta].data);
      if !eq then Ok(Some(Necessary)) else Ok(None)
  }

  /** `check_update(par_updated, dry_run)`: the first verdict of steps 1 to 5, else `UpToDate`. */
  function CheckUpdate(d: Disk, r: Rule, parUpdated: bool, dry: bool, cmp: Bytes -> Result<bool>): (v: Result<Verdict>)
  {
    var meta :- MetadataFname(r);
    var v1 := Step1(d, r, dry, 0);
    if v1.Some? then Ok(v1.value) else
    var v2 := Step2(d, r);
    if v2.Some? then Ok(v2.value) else
    var v3 := Step3(dry, parUpdated);
    if v3.Some? then Ok(v3.value) else
    var v4 :- Step4(d, r);
    if v4.Some? then Ok(v4.value) else
    var v5 :- Step5(d, meta, cmp);
    if v5.Some? then Ok(v5.value) else Ok(UpToDate)
  }

  // ---------------------------------------------------------------------------
  // postprocess

  /**
   * `postprocess(False)`: every output's mtime set to 0 and the memo file
   * removed; each failing call is ignored.
   */
  function PostprocessFail(d: Disk, r: Rule): (d': Disk)
    ensures forall i :: 0 <= i < |r.ys| ==> Invalid(d', r.ys[i])
    ensures |r.ys| > 0 ==> !Exists(d', MetadataPath(r.ys[0]))
  {
    var d1 := UtimeAll(d, r.ys, 0);
    match MetadataFname(r)
    case Err(_) => d1
    case Ok(meta) => Disk(d1.files - {meta})
  }

  /**
   * `postprocess(True)`, i.e. `update_memo()`: opening the memo file for
   * writing empties it before `dumps()` runs, so a raising `dumps()` leaves an
   * empty memo file behind. `now` is the mtime the write gives it.
   */
  function PostprocessOk(d: Disk, r: Rule, dumped: Result<Bytes>, now: int): (res: (Disk, Option<Exc>))
    ensures |r.ys| == 0 ==> res == (d, Some(IndexError))
    ensures |r.ys| > 0 && dumped.Ok? ==> res == (Disk(d.files[MetadataPath(r.ys[0]) := Stat(now, dumped.value)]), None)
    ensures |r.ys| > 0 && dumped.Err? ==> res == (Disk(d.files[MetadataPath(r.ys[0]) := Stat(now, [])]), Some(dumped.error))
  {
    match MetadataFname(r)
    case Err(e) => (d, Some(e))
    case Ok(meta) =>
      var truncated := Disk(d.files[meta := Stat(now, [])]);
      match dumped
      case Err(e) => (truncated, Some(e))
      case Ok(bs) =>
        assert truncated.files[meta := Stat(now, bs)] == d.files[meta := Stat(now, bs)];
        (Disk(truncated.files[meta := Stat(now, bs)]), None)
  }

  // ---------------------------------------------------------------------------
  // Properties of the cascade

  /** Only step 1 can make a rule infeasible. */
  lemma InfeasibleIff(d: Disk, r: Rule, parUpdated: bool, dry: bool, cmp: Bytes -> Result<bool>)
    requires |r.ys| > 0
    ensures CheckUpdate(d, r, parUpdated, dry, cmp) == Ok(Infeasible) <==> BadInput(d, r, dry)
  {
  }

  /** With usable inputs, a missing or zero-mtime output makes the rule necessary. */
  lemma BadOutputNecessary(d: Disk, r: Rule, parUpdated: bool, dry: bool, cmp: Bytes -> Result<bool>)
    requires |r.ys| > 0 && !BadInput(d, r, dry) && BadOutput(d, r)
    ensures CheckUpdate(d, r, parUpdated, dry, cmp) == Ok(Necessary)
  {
  }

  /** `PossiblyNecessary` is the dry-run verdict for a rule whose own files are fine but whose parent was updated. */
  lemma PossiblyNecessaryIff(d: Disk, r: Rule, parUpdated: bool, dry: bool, cmp: Bytes -> Result<bool>)
    requires |r.ys| > 0
    ensures CheckUpdate(d, r, parUpdated, dry, cmp) == Ok(PossiblyNecessary) <==>
      dry && parUpdated && !BadInput(d, r, dry) && !BadOutput(d, r)
  {
  }

  /** Outside a dry run an upstream update alone never changes the verdict. */
  lemma ParentIgnoredOutsideDryRun(d: Disk, r: Rule, cmp: Bytes -> Result<bool>)
    ensures CheckUpdate(d, r, true, false, cmp) == CheckUpdate(d, r, false, false, cmp)
  {
  }

  /**
   * Step 4 in words: once steps 1 to 3 pass and the plain inputs exist, the
   * rule is necessary exactly when a plain input is strictly newer than the
   * oldest output; value-file inputs and equal mtimes never count.
   */
  lemma NewerInputIff(d: Disk, r: Rule, parUpdated: bool, dry: bool, cmp: Bytes -> Result<bool>)
    requires |r.ys| > 0 && !BadInput(d, r, dry) && !BadOutput(d, r) && !(dry && parUpdated)
    requires PlainInputsExist(d, r)
    ensures Step4(d, r).Ok?
    ensures Step4(d, r).value.Some? <==> exists j :: NewerPlain(d, r, OldestMtime(d, r.ys), j)
    ensures Step4(d, r).value.Some? ==> CheckUpdate(d, r, parUpdated, dry, cmp) == Ok(Necessary)
  {
    assert AllExist(d, r.ys);
    var oldest := OldestMtime(d, r.ys);
    var v := AnyNewer(d, r, oldest, 0);
    assert Step4(d, r) == v && v.Ok?;
    if v.value.Some? {
      var j :| 0 <= j && NewerPlain(d, r, oldest, j);
      assert NewerPlain(d, r, OldestMtime(d, r.ys), j);
      assert Step4(d, r).value.Some?;
    } else {
      assert forall j :: NewerPlain(d, r, oldest, j) ==> 0 <= j && NewerPlain(d, r, oldest, j);
    }
  }

  /** Outside a dry run every input is checked by step 1, so step 4 never raises. */
  lemma NoRaiseOutsideDryRun(d: Disk, r: Rule, parUpdated: bool, cmp: Bytes -> Result<bool>)
    requires |r.ys| > 0 && |r.xs| == |r.xIsOrig|
    requires !BadInput(d, r, false) && !BadOutput(d, r)
    ensures PlainInputsExist(d, r)
    ensures Step4(d, r).Ok?
  {
    forall j | 0 <= j < |r.xs| && j < |r.xIsVf| && !r.xIsVf[j] ensures Exists(d, r.xs[j]) {
      assert Checked(r, false, j);
    }
  }

  /** `UpToDate` exactly when every step passes and the stored memo compares equal. */
  lemma UpToDateIff(d: Disk, r: Rule, parUpdated: bool, dry: bool, cmp: Bytes -> Result<bool>)
    requires |r.ys| > 0
    ensures CheckUpdate(d, r, parUpdated, dry, cmp) == Ok(UpToDate) <==>
      && !BadInput(d, r, dry) && !BadOutput(d, r) && !(dry && parUpdated)
      && Step4(d, r) == Ok(None)
      && Exists(d, MetadataPath(r.ys[0]))
      && cmp(d.files[MetadataPath(r.ys[0])].data) == Ok(true)
  {
  }

  /** After a failed run the rule is never up to date: the next check is `Infeasible` or `Necessary`. */
  lemma FailedRunIsRedone(d: Disk, r: Rule, parUpdated: bool, dry: bool, cmp: Bytes -> Result<bool>)
    requires |r.ys| > 0
    ensures CheckUpdate(PostprocessFail(d, r), r, parUpdated, dry, cmp) in {Ok(Infeasible), Ok(Necessary)}
  {
    var d' := PostprocessFail(d, r);
    assert Invalid(d', r.ys[0]);
    assert BadOutput(d', r);
  }

  /** A memo saved after a success is what step 5 compares against next time. */
  lemma SavedMemoIsChecked(d: Disk, r: Rule, bs: Bytes, now: int, cmp: Bytes -> Result<bool>)
    requires |r.ys| > 0
    ensures var (d', exc) := PostprocessOk(d, r, Ok(bs), now);
      exc.None? && Step5(d', MetadataPath(r.ys[0]), cmp) == (if cmp(bs) == Ok(true) then Ok(None) else if cmp(bs).Err? then Err(cmp(bs).error) else Ok(Some(Necessary)))
  {
  }
}
