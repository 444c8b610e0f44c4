/**
 * Memo objects of the jtcmake memo layer (`memo.py`, `memo/abc.py`,
 * `memo/str_hash_memo.py`): a `StrHashMemo` holds the stringified arguments,
 * or their SHA-256 digest when the text is long; a `LazyMemo` pairs one with
 * a second memo of the value files' content hashes, computed when compared.
 *
 * In both layers the memo class wrapped by `LazyMemo` is `StrHashMemo`; the
 * `memo.py` layer stringifies in the `Legacy` dialect and the `memo/` layer
 * in the `Hashed` one.
 */
module Memos {
  import opened Wrappers
  import opened MemoValues
  import opened Stringify
  import opened Files
  import opened MemoAtoms
  import Nest
  import Fs

  const MaxRawLen: nat := 1000

  /** A hex SHA-256 digest. */
  type Digest = s: string | |s| == 64
    witness "0000000000000000000000000000000000000000000000000000000000000000"

  /** The text `StrHashMemo(text)` stores. */
  function StrHashText(sha: string -> Digest, text: string): (r: string)
    ensures |r| <= MaxRawLen
    ensures |text| <= MaxRawLen ==> r == text
    ensures |text| > MaxRawLen ==> r == sha(text)
  {
    if |text| > MaxRawLen then sha(text) else text
  }

  /** The memo classes. Texts are the `text` of the `StrHashMemo`s involved. */
  datatype Memo =
    | StrHash(text: string)
    /** `LazyMemo(memo, lazy_args)`. */
    | Lazy(eager: string, lazyPart: LazyPart)

  datatype LazyPart =
    /** The lazy values, evaluated again on every access to `lazy_memo`. */
    | Pending(srcs: seq<LazySource>)
    /** A memo read back from storage. */
    | Loaded(text: string)

  /** The foreign parts: SHA-256, `repr`/`hash`, the file digest, and the disk it reads. */
  datatype Ctx = Ctx(sha: string -> Digest, env: Env, md5: Fs.Bytes -> string, disk: Fs.Disk)

  function NoHook(o: nat): Option<Val> { None }

  /** `StrHashMemo.create(args)`: `stringify(args, None)`, so unsupported objects raise. */
  function CreateStrHash(d: Dialect, c: Ctx, args: Val): (r: Result<Memo>)
    ensures r.Ok? ==> r.value.StrHash? && |r.value.text| <= MaxRawLen
    ensures r.Ok? <==> Render(d, c.env.(default := NoHook), args, 0).Ok?
  {
    var text :- Render(d, c.env.(default := NoHook), args, 0);
    Ok(StrHash(StrHashText(c.sha, text)))
  }

  /** Every text a memo holds came out of `StrHashMemo(...)`. */
  predicate Valid(m: Memo) {
    match m
    case StrHash(t) => |t| <= MaxRawLen
    case Lazy(e, p) => |e| <= MaxRawLen && (p.Loaded? ==> |p.text| <= MaxRawLen)
  }

  /**
   * `lazy_memo`: a stored memo as is, otherwise `StrHashMemo.create` of the
   * list of the lazy values' current results.
   */
  function LazyText(d: Dialect, c: Ctx, p: LazyPart): (r: Result<string>)
    ensures p.Loaded? ==> r == Ok(p.text)
    ensures p.Pending? ==> (r.Ok? <==> EvalLazy(c.md5, c.disk, p.srcs).Ok?)
    ensures r.Ok? && p.Pending? ==> |r.value| <= MaxRawLen
    ensures r.Err? ==> r.error == FileNotFound
  {
    match p
    case Loaded(t) => Ok(t)
    case Pending(srcs) =>
      var vs :- EvalLazy(c.md5, c.disk, srcs);
      StrValsRender(d, c.env.(default := NoHook), vs, 0);
      Ok(CreateStrHash(d, c, VList(vs)).value.text)
  }

  /**
   * `compare(other)`: a `StrHashMemo` equals another with the same text; a
   * `LazyMemo` equals another `LazyMemo` whose eager part compares equal and,
   * only then, whose lazy part does too.
   */
  function Compare(d: Dialect, c: Ctx, a: Memo, b: Memo): (r: Result<bool>)
    ensures a.StrHash? ==> r == Ok(b.StrHash? && a.text == b.text)
    ensures a.Lazy? && !(b.Lazy? && a.eager == b.eager) ==> r == Ok(false)
    ensures r == Ok(true) ==> a.StrHash? == b.StrHash?
  {
    match a
    case StrHash(t) => Ok(b.StrHash? && t == b.text)
    case Lazy(e, p) =>
      if !b.Lazy? || e != b.eager then Ok(false)
      else
        var x :- LazyText(d, c, p);
        var y :- LazyText(d, c, b.lazyPart);
        Ok(x == y)
  }

  /** `memo.py` `LazyMemo.create(args, lazy_args)`: the arguments are already unwrapped. */
  function CreateLazyLegacy(c: Ctx, args: Val, lazyArgs: seq<LazySource>): (r: Result<Memo>)
    ensures r.Ok? ==> r.value.Lazy? && r.value.lazyPart == Pending(lazyArgs) && Valid(r.value)
    ensures r.Ok? <==> CreateStrHash(Legacy, c, args).Ok?
  {
    var m :- CreateStrHash(Legacy, c, args);
    Ok(Lazy(m.text, Pending(lazyArgs)))
  }

  /** `memo/abc.py` `LazyMemo.create(args)`: unwraps the atoms first. */
  function CreateLazy(c: Ctx, args: Nest.Struct<ArgLeaf>): (r: Result<Memo>)
    ensures r.Ok? ==> r.value.Lazy? && Valid(r.value)
    ensures r.Ok? ==> r.value.lazyPart == Pending(UnwrapMemoValues(args).1)
  {
    var (a, lazyArgs) := UnwrapMemoValues(args);
    var m :- CreateStrHash(Hashed, c, ToVal(a));
    Ok(Lazy(m.text, Pending(lazyArgs)))
  }

  // ---------------------------------------------------------------------------
  // Storage. `dumps`/`to_str` write a list of texts (hex-encoded JSON in
  // `memo.py`, JSON in `memo/`); the model keeps the list.

  /** `StrHashMemo.dumps()` / `to_str()`: the text itself. */
  function DumpStrHash(m: Memo): (r: string)
    requires m.StrHash?
  {
    m.text
  }

  /** `StrHashMemo.loads(data)` / `from_str(s)`: a new `StrHashMemo(s)`. */
  function LoadStrHash(sha: string -> Digest, s: string): (r: Memo)
    ensures r.StrHash? && Valid(r)
  {
    StrHash(StrHashText(sha, s))
  }

  /** `LazyMemo.dumps()` / `to_str()`: both parts' texts, evaluating the lazy one. */
  function DumpLazy(d: Dialect, c: Ctx, m: Memo): (r: Result<seq<string>>)
    requires m.Lazy?
    ensures r.Ok? <==> LazyText(d, c, m.lazyPart).Ok?
    ensures r.Ok? ==> r.value == [m.eager, LazyText(d, c, m.lazyPart).value]
  {
    var t :- LazyText(d, c, m.lazyPart);
    Ok([m.eager, t])
  }

  /** `LazyMemo.loads(data)` / `from_str(s)`: the first two texts, each through `StrHashMemo`. */
  function LoadLazy(sha: string -> Digest, o: seq<string>): (r: Result<Memo>)
    ensures r.Err? <==> |o| < 2
    ensures r.Err? ==> r.error == IndexError
    ensures r.Ok? ==> r.value.Lazy? && r.value.lazyPart.Loaded? && Valid(r.value)
  {
    if |o| < 2 then Err(IndexError)
    else Ok(Lazy(StrHashText(sha, o[0]), Loaded(StrHashText(sha, o[1]))))
  }

  // ---------------------------------------------------------------------------
  // Properties

  /** A list of str atoms always stringifies. */
  lemma StrValsRender(d: Dialect, env: Env, vs: seq<Val>, fuel: nat)
    requires forall m :: 0 <= m < |vs| ==> vs[m].VAtom? && vs[m].a.AStr?
    ensures Render(d, env, VList(vs), fuel).Ok?
  {
    StrItemsRender(d, env, vs, 0, fuel);
  }

  lemma {:induction false} StrItemsRender(d: Dialect, env: Env, vs: seq<Val>, i: nat, fuel: nat)
    requires i <= |vs|
    requires forall m :: 0 <= m < |vs| ==> vs[m].VAtom? && vs[m].a.AStr?
    ensures RenderItems(d, env, vs, i, fuel).Ok?
    decreases |vs| - i
  {
    if i < |vs| {
      assert Render(d, env, vs[i], fuel) == RenderAtom(d, env, vs[i].a, fuel) == Ok(env.reprStr(vs[i].a.s));
      StrItemsRender(d, env, vs, i + 1, fuel);
    }
  }

  /** Loading what was dumped gives back the same `StrHashMemo`, as the stored text is never over the threshold. */
  lemma StrHashRoundTrip(sha: string -> Digest, m: Memo)
    requires m.StrHash? && Valid(m)
    ensures LoadStrHash(sha, DumpStrHash(m)) == m
  {
  }

  /** Any text given to `StrHashMemo` is valid after construction: loading twice is loading once. */
  lemma StrHashLoadIdempotent(sha: string -> Digest, s: string)
    ensures LoadStrHash(sha, DumpStrHash(LoadStrHash(sha, s))) == LoadStrHash(sha, s)
  {
  }

  /** `compare` does not depend on which side is `self`. */
  lemma CompareSymmetric(d: Dialect, c: Ctx, a: Memo, b: Memo)
    ensures Compare(d, c, a, b) == Compare(d, c, b, a)
  {
  }

  /**
   * A memo compares equal to itself unless evaluating a value file's hash
   * raises, which happens exactly when the file is missing.
   */
  lemma CompareReflexive(d: Dialect, c: Ctx, m: Memo)
    ensures Compare(d, c, m, m).Ok? ==> Compare(d, c, m, m).value
    ensures Compare(d, c, m, m).Err? <==>
      m.Lazy? && m.lazyPart.Pending? && exists k :: 0 <= k < |m.lazyPart.srcs| && !Fs.Exists(c.disk, m.lazyPart.srcs[k].path)
  {
  }

  /**
   * `loads(dumps(m))` compares equal to `m` both ways: the eager text is kept,
   * and the stored lazy text is what `m`'s lazy part evaluates to.
   */
  lemma LazyRoundTrip(d: Dialect, c: Ctx, m: Memo)
    requires m.Lazy? && Valid(m)
    requires DumpLazy(d, c, m).Ok?
    ensures LoadLazy(c.sha, DumpLazy(d, c, m).value).Ok?
    ensures Compare(d, c, LoadLazy(c.sha, DumpLazy(d, c, m).value).value, m) == Ok(true)
    ensures Compare(d, c, m, LoadLazy(c.sha, DumpLazy(d, c, m).value).value) == Ok(true)
  {
    var t := LazyText(d, c, m.lazyPart).value;
    assert |t| <= MaxRawLen;
  }

  /**
   * What makes the memo lazy: a memo stored while the value files had some
   * contents still compares equal on a later disk where those files have the
   * same digests, whatever their mtimes.
   */
  lemma LazySeesOnlyDigests(d: Dialect, c: Ctx, later: Fs.Disk, srcs: seq<LazySource>, eager: string)
    requires |eager| <= MaxRawLen
    requires DumpLazy(d, c, Lazy(eager, Pending(srcs))).Ok?
    requires EvalLazy(c.md5, later, srcs) == EvalLazy(c.md5, c.disk, srcs)
    ensures var stored := LoadLazy(c.sha, DumpLazy(d, c, Lazy(eager, Pending(srcs))).value).value;
      Compare(d, c.(disk := later), Lazy(eager, Pending(srcs)), stored) == Ok(true)
  {
    var t := LazyText(d, c, Pending(srcs)).value;
    assert |t| <= MaxRawLen;
    assert LazyText(d, c.(disk := later), Pending(srcs)) == LazyText(d, c, Pending(srcs));
  }
}
