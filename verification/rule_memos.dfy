/**
 * The memo of the `rule/` layer (`rule/memo/str_hash_memo.py`): the
 * arguments are unwrapped, stringified in the `RuleMemo` dialect and hashed
 * once; the lazy values are kept and hashed again every time the memo
 * instance is taken. An instance is the pair of the two codes.
 */
module RuleMemos {
  import opened Wrappers
  import opened MemoValues
  import opened Stringify
  import opened Files
  import opened MemoAtoms
  import Memos
  import Nest
  import Fs

  /** `StrHashMemo`: the code of the arguments and the lazy values still to evaluate. */
  datatype StrHashMemo = StrHashMemo(code: string, lazyValues: seq<LazySource>)

  /** `IMemoInstance`s: this module's, or one of another memo class. */
  datatype Instance =
    | StrHashInstance(code: string, lazyCode: string)
    | OtherInstance(tag: string)

  /** `StrHashMemo(args)`: `stringify` raises `TypeError` on an unsupported object. */
  function NewStrHashMemo(hashFn: string -> Memos.Digest, env: Env, args: Nest.Struct<ArgLeaf>): (r: Result<StrHashMemo>)
    ensures r.Ok? <==> Render(RuleMemo, env, ToVal(UnwrapMemoValues(args).0), 0).Ok?
    ensures r.Ok? ==> r.value.lazyValues == UnwrapMemoValues(args).1
    ensures r.Ok? ==> r.value.code == hashFn(Render(RuleMemo, env, ToVal(UnwrapMemoValues(args).0), 0).value)
  {
    var (a, lazyValues) := UnwrapMemoValues(args);
    var s :- Render(RuleMemo, env, ToVal(a), 0);
    Ok(StrHashMemo(hashFn(s), lazyValues))
  }

  /** `memo`: evaluates the lazy values now and hashes their stringified list. */
  function MemoOf(hashFn: string -> Memos.Digest, env: Env, md5: Fs.Bytes -> string, d: Fs.Disk, m: StrHashMemo): (r: Result<Instance>)
    ensures r.Ok? <==> EvalLazy(md5, d, m.lazyValues).Ok?
    ensures r.Err? ==> r.error == FileNotFound
    ensures r.Ok? ==> r.value.StrHashInstance? && r.value.code == m.code
  {
    var vs :- EvalLazy(md5, d, m.lazyValues);
    Memos.StrValsRender(RuleMemo, env, VList(vs).items, 0);
    Ok(StrHashInstance(m.code, hashFn(Render(RuleMemo, env, VList(vs), 0).value)))
  }

  /** `compare(other)`: another `StrHashMemoInstance` with the same pair of codes. */
  function Compare(a: Instance, b: Instance): (r: bool)
    requires a.StrHashInstance?
    ensures r <==> a == b
  {
    b.StrHashInstance? && (a.code, a.lazyCode) == (b.code, b.lazyCode)
  }

  /** `to_obj()`: the list `[code, lazy_code]`. */
  function ToObj(a: Instance): (r: seq<string>)
    requires a.StrHashInstance?
    ensures |r| == 2
  {
    [a.code, a.lazyCode]
  }

  /** `from_obj(obj)`: unpacking anything but two items raises `ValueError`. */
  function FromObj(obj: seq<string>): (r: Result<Instance>)
    ensures r.Err? <==> |obj| != 2
    ensures r.Err? ==> r.error == ValueError
    ensures r.Ok? ==> r.value.StrHashInstance? && ToObj(r.value) == obj
  {
    if |obj| != 2 then Err(ValueError) else Ok(StrHashInstance(obj[0], obj[1]))
  }

  const TypeTag: string := "str_hash_memo"

  /** `IMemoInstance.load`: the stored `type` must be this class's (`rule/memo/abc.py`). */
  function Load(tag: string, obj: seq<string>): (r: Result<Instance>)
    ensures tag != TypeTag ==> r == Err(ValueError)
    ensures tag == TypeTag ==> r == FromObj(obj)
  {
    if tag != TypeTag then Err(ValueError) else FromObj(obj)
  }

  /** `from_obj(to_obj(x))` is `x` and compares equal to it. */
  lemma ObjRoundTrip(a: Instance)
    requires a.StrHashInstance?
    ensures FromObj(ToObj(a)) == Ok(a)
    ensures Compare(FromObj(ToObj(a)).value, a) && Compare(a, FromObj(ToObj(a)).value)
  {
  }

  /** A memo saved and loaded back compares equal to a fresh `memo` while the value files' digests are unchanged. */
  lemma SavedMemoMatches(hashFn: string -> Memos.Digest, env: Env, md5: Fs.Bytes -> string, d0: Fs.Disk, d1: Fs.Disk, m: StrHashMemo)
    requires MemoOf(hashFn, env, md5, d0, m).Ok?
    requires EvalLazy(md5, d1, m.lazyValues) == EvalLazy(md5, d0, m.lazyValues)
    ensures Load(TypeTag, ToObj(MemoOf(hashFn, env, md5, d0, m).value)).Ok?
    ensures Compare(MemoOf(hashFn, env, md5, d1, m).value, Load(TypeTag, ToObj(MemoOf(hashFn, env, md5, d0, m).value)).value)
  {
  }

  /**
   * Numbers are memoised by value: a bool, or an int equal to it, give the
   * same code, since both stringify as `str(complex(x))`.
   */
  lemma NumericAtomsAgree(env: Env, b: bool)
    ensures Render(RuleMemo, env, VAtom(ABool(b)), 0) == Render(RuleMemo, env, VAtom(AInt(if b then 1 else 0)), 0)
  {
  }

  /** Paths print unquoted, so the path `None` and the object `None` stringify alike. */
  lemma PathNoneCollides(env: Env)
    ensures Render(RuleMemo, env, VAtom(APath("None")), 0) == Render(RuleMemo, env, VAtom(ANone), 0)
  {
  }
}
