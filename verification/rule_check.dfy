/**
 * The rule of the `rule/` layer (`rule/rule.py`): inputs and outputs are
 * `File`/`VFile` objects, the checks run in a fixed order inline, and the
 * memo is a `rule/memo` `StrHashMemo` saved as a typed JSON object.
 *
 * The JSON file format is foreign: `parse` reads the bytes of a memo file
 * into its `(type, data)` pair and `serialize` writes one.
 */
module RuleCheck {
  import opened Wrappers
  import opened Paths
  import opened Fs
  import opened Files
  import opened UpdateResults
  import RuleMemos
  import Stringify
  import Memos
  import MemoAtoms

  datatype Rule = Rule(ys: seq<File>, xs: seq<File>, xIsOrig: seq<bool>, memo: RuleMemos.StrHashMemo)

  /** The foreign parts the memo needs. */
  datatype MemoCtx = MemoCtx(
    hashFn: string -> Memos.Digest,
    env: Stringify.Env,
    md5: Bytes -> string,
    parse: Bytes -> Result<(string, seq<string>)>,
    serialize: (string, seq<string>) -> Bytes)

  /** `Rule.__init__`: one "original" flag per input is asserted. */
  function NewRule(ys: seq<File>, xs: seq<File>, xIsOrig: seq<bool>, memo: RuleMemos.StrHashMemo): (r: Result<Rule>)
    ensures r.Err? <==> |xs| != |xIsOrig|
    ensures r.Err? ==> r.error == AssertionError
    ensures r.Ok? ==> r.value == Rule(ys, xs, xIsOrig, memo)
  {
    if |xs| != |xIsOrig| then Err(AssertionError) else Ok(Rule(ys, xs, xIsOrig, memo))
  }

  function PathsOf(fs: seq<File>): (ps: seq<Path>)
    ensures |ps| == |fs|
    ensures forall i :: 0 <= i < |fs| ==> ps[i] == fs[i].path
  {
    if |fs| == 0 then [] else [fs[0].path] + PathsOf(fs[1..])
  }

  /** `metadata_fname`: beside the first output; no outputs raises `IndexError`. */
  function MetadataFname(r: Rule): (m: Result<Path>)
    ensures m.Err? <==> |r.ys| == 0
    ensures m.Err? ==> m.error == IndexError
    ensures m.Ok? ==> m.value == MetadataPath(r.ys[0].path)
  {
    if |r.ys| == 0 then Err(IndexError) else Ok(MetadataPath(r.ys[0].path))
  }

  predicate Invalid(d: Disk, p: Path) {
    !Exists(d, p) || d.files[p].mtime == 0
  }

  predicate Checked(r: Rule, dry: bool, j: int) {
    0 <= j < |r.xs| && j < |r.xIsOrig| && (!dry || r.xIsOrig[j])
  }

  predicate BadInput(d: Disk, r: Rule, dry: bool) {
    exists j :: 0 <= j < |r.xs| && Checked(r, dry, j) && Invalid(d, r.xs[j].path)
  }

  /** The loop over `zip(xfiles, xfile_is_orig)`, from input `i` on. */
  function InputCheck(d: Disk, r: Rule, dry: bool, i: nat): (v: Option<Verdict>)
    ensures v.Some? <==> exists j :: i <= j && Checked(r, dry, j) && Invalid(d, r.xs[j].path)
    ensures v.Some? ==> v.value == Infeasible
    decreases |r.xs| - i
  {
    if i >= |r.xs| || i >= |r.xIsOrig| then None
    else if Invalid(d, r.xs[i].path) && (!dry || r.xIsOrig[i]) then Some(Infeasible)
    else InputCheck(d, r, dry, i + 1)
  }

  /** Input `j` is a `File` (not a `VFile`) newer than `oldest`. */
  predicate NewerPlain(d: Disk, r: Rule, oldest: int, j: int) {
    0 <= j < |r.xs| && r.xs[j].kind == KFile && Exists(d, r.xs[j].path) && d.files[r.xs[j].path].mtime > oldest
  }

  predicate PlainInputsExist(d: Disk, r: Rule) {
    forall j :: 0 <= j < |r.xs| && r.xs[j].kind == KFile ==> Exists(d, r.xs[j].path)
  }

  /** The loop over all `xfiles`: `getmtime` of a missing `File` raises. */
  function AnyNewer(d: Disk, r: Rule, oldest: int, i: nat): (v: Result<bool>)
    ensures PlainInputsExist(d, r) ==> v.Ok?
    ensures v.Ok? ==> (v.value <==> exists j :: i <= j && NewerPlain(d, r, oldest, j))
    ensures v.Err? ==> v.error == FileNotFound
    decreases |r.xs| - i
  {
    if i >= |r.xs| then Ok(false)
    else if r.xs[i].kind != KFile then AnyNewer(d, r, oldest, i + 1)
    else
      var m :- GetMtime(d, r.xs[i].path);
      if m > oldest then
        assert NewerPlain(d, r, oldest, i);
        Ok(true)
      else AnyNewer(d, r, oldest, i + 1)
  }

  /** `IMemoInstance.load(fname)`: open, parse, check the type tag, `from_obj`. */
  function LoadMemo(c: MemoCtx, d: Disk, meta: Path): (v: Result<RuleMemos.Instance>)
    ensures !Exists(d, meta) ==> v == Err(FileNotFound)
    ensures Exists(d, meta) && c.parse(d.files[meta].data).Err? ==> v.Err?
    ensures Exists(d, meta) && c.parse(d.files[meta].data).Ok? ==>
      v == RuleMemos.Load(c.parse(d.files[meta].data).value.0, c.parse(d.files[meta].data).value.1)
  {
    if !Exists(d, meta) then Err(FileNotFound)
    else
      var (tag, obj) :- c.parse(d.files[meta].data);
      RuleMemos.Load(tag, obj)
  }

  /** The memo of the rule now: its lazy values evaluated on the current disk. */
  function MemoNow(c: MemoCtx, d: Disk, r: Rule): (v: Result<RuleMemos.Instance>)
    ensures v.Ok? ==> v.value.StrHashInstance?
    ensures v.Err? ==> v.error == FileNotFound
  {
    RuleMemos.MemoOf(c.hashFn, c.env, c.md5, d, r.memo)
  }

  /** The checks before the memo, common to the code as written and as corrected. */
  function FileChecks(d: Disk, r: Rule, parUpdated: bool, dry: bool): (v: Result<Option<Verdict>>)
    ensures v == Ok(Some(Infeasible)) <==> BadInput(d, r, dry)
    ensures !BadInput(d, r, dry) && !AllExist(d, PathsOf(r.ys)) ==> v == Ok(Some(Necessary))
    ensures !BadInput(d, r, dry) && AllExist(d, PathsOf(r.ys)) && |r.ys| == 0 ==> v == Err(ValueError)
    ensures v == Ok(Some(PossiblyNecessary)) <==>
      !BadInput(d, r, dry) && |r.ys| > 0 && AllExist(d, PathsOf(r.ys)) && OldestMtime(d, PathsOf(r.ys)) > 0 && dry && parUpdated
    ensures v.Ok? && v.value.Some? ==> v.value.value != UpToDate
  {
    var v1 := InputCheck(d, r, dry, 0);
    if v1.Some? then Ok(v1)
    else if !AllExist(d, PathsOf(r.ys)) then Ok(Some(Necessary))
    else if |r.ys| == 0 then Err(ValueError)
    else
      var oldest := OldestMtime(d, PathsOf(r.ys));
      if oldest <= 0 then Ok(Some(Necessary))
      else if dry && parUpdated then Ok(Some(PossiblyNecessary))
      else
        var newer :- AnyNewer(d, r, oldest, 0);
        if newer then Ok(Some(Necessary)) else Ok(None)
  }

  /** `check_update` as written: a missing memo file makes `load` raise. */
  function CheckUpdateAsWritten(c: MemoCtx, d: Disk, r: Rule, parUpdated: bool, dry: bool): (v: Result<Verdict>)
    ensures FileChecks(d, r, parUpdated, dry) == Ok(None) && MemoNow(c, d, r).Ok? && !Exists(d, MetadataPath(r.ys[0].path)) ==>
      v == Err(FileNotFound)
  {
    var v0 :- FileChecks(d, r, parUpdated, dry);
    if v0.Some? then Ok(v0.value) else
    var now :- MemoNow(c, d, r);
    var stored :- LoadMemo(c, d, MetadataPath(r.ys[0].path));
    if !RuleMemos.Compare(now, stored) then Ok(Necessary) else Ok(UpToDate)
  }

  /** `check_update` with a missing memo file treated as a changed memo, as `raw_rule.py` does. */
  function CheckUpdate(c: MemoCtx, d: Disk, r: Rule, parUpdated: bool, dry: bool): (v: Result<Verdict>)
    ensures FileChecks(d, r, parUpdated, dry) == Ok(None) && MemoNow(c, d, r).Ok? && !Exists(d, MetadataPath(r.ys[0].path)) ==>
      v == Ok(Necessary)
    ensures v == Ok(UpToDate) ==> |r.ys| > 0 && Exists(d, MetadataPath(r.ys[0].path))
    ensures FileChecks(d, r, parUpdated, dry).Ok? && FileChecks(d, r, parUpdated, dry).value.Some? ==>
      v == Ok(FileChecks(d, r, parUpdated, dry).value.value)
    ensures FileChecks(d, r, parUpdated, dry) == Ok(None) ==> v != Ok(Infeasible) && v != Ok(PossiblyNecessary)
    ensures FileChecks(d, r, parUpdated, dry).Err? ==> v.Err?
  {
    var v0 :- FileChecks(d, r, parUpdated, dry);
    if v0.Some? then Ok(v0.value) else
    var now :- MemoNow(c, d, r);
    var meta := MetadataPath(r.ys[0].path);
    if !Exists(d, meta) then Ok(Necessary) else
    var stored :- LoadMemo(c, d, meta);
    if !RuleMemos.Compare(now, stored) then Ok(Necessary) else Ok(UpToDate)
  }

  /** `postprocess(False)`: outputs' mtimes set to 0 and the memo file removed, failures ignored. */
  function PostprocessFail(d: Disk, r: Rule): (d': Disk)
    ensures forall i :: 0 <= i < |r.ys| ==> Invalid(d', r.ys[i].path)
    ensures |r.ys| > 0 ==> !Exists(d', MetadataPath(r.ys[0].path))
  {
    var d1 := UtimeAll(d, PathsOf(r.ys), 0);
    match MetadataFname(r)
    case Err(_) => d1
    case Ok(meta) => Disk(d1.files - {meta})
  }

  /**
   * `postprocess(True)`, i.e. `update_memo()`: the memo is taken (evaluating
   * the lazy values) before `save` opens the file, then written as
   * `{"type": ..., "data": to_obj()}` with mtime `now`.
   */
  function PostprocessOk(c: MemoCtx, d: Disk, r: Rule, now: int): (res: Result<Disk>)
    ensures |r.ys| == 0 ==> res == Err(IndexError)
    ensures |r.ys| > 0 ==> (res.Ok? <==> MemoNow(c, d, r).Ok?)
    ensures res.Ok? ==> res.value == Disk(d.files[MetadataPath(r.ys[0].path) :=
      Stat(now, c.serialize(RuleMemos.TypeTag, RuleMemos.ToObj(MemoNow(c, d, r).value)))])
  {
    var meta :- MetadataFname(r);
    var m :- MemoNow(c, d, r);
    Ok(Disk(d.files[meta := Stat(now, c.serialize(RuleMemos.TypeTag, RuleMemos.ToObj(m)))]))
  }

  // ---------------------------------------------------------------------------
  // Properties

  /**
   * The finding: an output that exists with a positive mtime, no inputs and
   * no memo file yet. The code as written raises `FileNotFoundError` from
   * `load`; the corrected check says the rule is necessary.
   */
  lemma MissingMemoRaises(c: MemoCtx)
    ensures var r := Rule([File(KFile, "out")], [], [], RuleMemos.StrHashMemo("code", []));
      var d := Disk(map["out" := Stat(5, [])]);
      && CheckUpdateAsWritten(c, d, r, false, false) == Err(FileNotFound)
      && CheckUpdate(c, d, r, false, false) == Ok(Necessary)
  {
    var r := Rule([File(KFile, "out")], [], [], RuleMemos.StrHashMemo("code", []));
    var d := Disk(map["out" := Stat(5, [])]);
    assert PathsOf(r.ys) == ["out"];
    assert AllExist(d, ["out"]);
    assert OldestMtime(d, ["out"]) == 5;
    assert InputCheck(d, r, false, 0) == None;
    assert AnyNewer(d, r, 5, 0) == Ok(false);
    assert FileChecks(d, r, false, false) == Ok(None);
    assert MemoNow(c, d, r).Ok?;
    assert !Exists(d, MetadataPath("out")) by { MetadataPathParts("out"); }
  }

  /** Only the input loop makes a rule infeasible. */
  lemma InfeasibleIff(c: MemoCtx, d: Disk, r: Rule, parUpdated: bool, dry: bool)
    ensures CheckUpdate(c, d, r, parUpdated, dry) == Ok(Infeasible) <==> BadInput(d, r, dry)
  {
  }

  /** `PossiblyNecessary` is the dry-run verdict for a rule with valid files and an updated parent. */
  lemma PossiblyNecessaryIff(c: MemoCtx, d: Disk, r: Rule, parUpdated: bool, dry: bool)
    ensures CheckUpdate(c, d, r, parUpdated, dry) == Ok(PossiblyNecessary) <==>
      !BadInput(d, r, dry) && |r.ys| > 0 && AllExist(d, PathsOf(r.ys)) && OldestMtime(d, PathsOf(r.ys)) > 0 && dry && parUpdated
  {
  }

  /** Outside a dry run an upstream update alone never changes the verdict. */
  lemma ParentIgnoredOutsideDryRun(c: MemoCtx, d: Disk, r: Rule)
    ensures CheckUpdate(c, d, r, true, false) == CheckUpdate(c, d, r, false, false)
  {
  }

  /** The correction changes nothing but the missing-memo case. */
  lemma CorrectionIsConservative(c: MemoCtx, d: Disk, r: Rule, parUpdated: bool, dry: bool)
    requires CheckUpdateAsWritten(c, d, r, parUpdated, dry) != Err(FileNotFound)
    ensures CheckUpdate(c, d, r, parUpdated, dry) == CheckUpdateAsWritten(c, d, r, parUpdated, dry)
  {
  }

  /** After a failed run the rule is never up to date. */
  lemma FailedRunIsRedone(c: MemoCtx, d: Disk, r: Rule, parUpdated: bool, dry: bool)
    requires |r.ys| > 0
    ensures CheckUpdate(c, PostprocessFail(d, r), r, parUpdated, dry) != Ok(UpToDate)
  {
  }

  /**
   * A saved memo is read back as equal: right after a successful run, with
   * valid inputs, outputs no older than any plain input and a JSON codec
   * that round-trips, the rule is up to date.
   */
  lemma SavedMemoIsUpToDate(c: MemoCtx, d: Disk, r: Rule, now: int, parUpdated: bool)
    requires |r.ys| > 0 && PostprocessOk(c, d, r, now).Ok?
    requires forall t, o :: c.parse(c.serialize(t, o)) == Ok((t, o))
    requires var d' := PostprocessOk(c, d, r, now).value;
      FileChecks(d', r, parUpdated, false) == Ok(None) && MemoAtoms.EvalLazy(c.md5, d', r.memo.lazyValues) == MemoAtoms.EvalLazy(c.md5, d, r.memo.lazyValues)
    ensures CheckUpdate(c, PostprocessOk(c, d, r, now).value, r, parUpdated, false) == Ok(UpToDate)
  {
    var d' := PostprocessOk(c, d, r, now).value;
    var m := MemoNow(c, d, r).value;
    var meta := MetadataPath(r.ys[0].path);
    assert d'.files[meta].data == c.serialize(RuleMemos.TypeTag, RuleMemos.ToObj(m));
    RuleMemos.ObjRoundTrip(m);
    assert MemoNow(c, d', r) == MemoNow(c, d, r);
  }
}
