/**
 * Atoms in rule arguments (`group_tree/atom.py`, and the copies of its
 * unwrapping in `memo/abc.py` and `rule/memo/str_hash_memo.py`): an argument
 * leaf may carry a separate value to memoise (`IMemoAtom.memo_value`) and a
 * separate value to pass to the method (`IAtom.real_value`).
 */
module MemoAtoms {
  import opened Wrappers
  import opened Nest
  import Sorting
  import opened MemoValues
  import opened Files
  import LegacyUtils

  /** A leaf of an argument structure. */
  datatype ArgLeaf =
    /** An ordinary object, memoised as itself. */
    | Plain(v: Val)
    /** `Atom(value, memo_value)`: an `IAtom`. */
    | AtomArg(value: Val, memo: MemoValue<Val>)
    /** A `File` or `VFile`: an `IMemoAtom` that is not an `IAtom`. */
    | FileArg(f: File)

  const NoneVal: Val := VAtom(ANone)

  /** `Atom(v, m)` and its alias `Mem(v, m)`. */
  function NewAtom(v: Val, m: MemoValue<Val>): (r: ArgLeaf)
    ensures RealValue(r) == v && MemoValueOf(r) == Some(m)
  {
    AtomArg(v, m)
  }

  function Mem(v: Val, m: MemoValue<Val>): (r: ArgLeaf)
    ensures r == NewAtom(v, m)
  {
    NewAtom(v, m)
  }

  /** `Memstr(v)`: memoise `str(v)`; `str` is a parameter. */
  function Memstr(str: Val -> string, v: Val): (r: ArgLeaf)
    ensures RealValue(r) == v && MemoValueOf(r) == Some(Eager(VAtom(AStr(str(v)))))
  {
    NewAtom(v, Eager(VAtom(AStr(str(v)))))
  }

  /** `Memnone(v)`: memoise the empty string, so `v` does not affect the memo. */
  function Memnone(v: Val): (r: ArgLeaf)
    ensures RealValue(r) == v && MemoValueOf(r) == Some(Eager(VAtom(AStr(""))))
  {
    NewAtom(v, Eager(VAtom(AStr(""))))
  }

  /** `memo_value` of an `IMemoAtom`; `None` for a leaf that is not one. */
  function MemoValueOf(x: ArgLeaf): Option<MemoValue<Val>> {
    match x
    case Plain(_) => None
    case AtomArg(_, m) => Some(m)
    case FileArg(f) => Some(FileMemoValue(f, NoneVal))
  }

  /** What the method receives for a leaf: `real_value` of an `IAtom`, else the leaf itself. */
  function RealValue(x: ArgLeaf): Val {
    match x
    case Plain(v) => v
    case AtomArg(value, _) => value
    case FileArg(f) => VAtom(APath(f.path))
  }

  /** The replacement `_unwrap_atom` returns for one leaf. */
  function MemoLeaf(x: ArgLeaf): Val {
    match MemoValueOf(x)
    case None => x.v
    case Some(Eager(v)) => v
    case Some(LazyValue(_)) => NoneVal
  }

  /** The lazy value `_unwrap_atom` appends for one leaf, if any. */
  function LazyOf(x: ArgLeaf): seq<LazySource> {
    match MemoValueOf(x)
    case Some(LazyValue(src)) => [src]
    case _ => []
  }

  function ConcatAll<T>(xss: seq<seq<T>>): seq<T> {
    if |xss| == 0 then [] else xss[0] + ConcatAll(xss[1..])
  }

  /** The lazy values of a leaf sequence, in order. */
  function LazySources(leaves: seq<ArgLeaf>): seq<LazySource> {
    ConcatAll(Sorting.MapSeq(LazyOf, leaves))
  }

  // ---------------------------------------------------------------------------
  // `unwrap_memo_values`: one walk that maps leaves and appends lazy values

  /**
   * `ordered_map_structure(_unwrap_atom, nest)` with the `lazy_values` list
   * threaded through: `acc` is the list before visiting `s`.
   */
  function UnwrapWalk(s: Struct<ArgLeaf>, acc: seq<LazySource>): (Struct<Val>, seq<LazySource>) {
    match s
    case Leaf(x) => (Leaf(MemoLeaf(x)), acc + LazyOf(x))
    case Tup(items) =>
      var (ys, acc') := UnwrapItems(items, 0, acc);
      (Tup(ys), acc')
    case Lst(items) =>
      var (ys, acc') := UnwrapItems(items, 0, acc);
      (Lst(ys), acc')
    case Dict(es) =>
      var (fs, acc') := UnwrapEntries(es, 0, acc);
      (Dict(fs), acc')
  }

  function UnwrapItems(items: seq<Struct<ArgLeaf>>, i: nat, acc: seq<LazySource>): (r: (seq<Struct<Val>>, seq<LazySource>))
    requires i <= |items|
    ensures |r.0| == |items| - i
    decreases items, |items| - i
  {
    if i == |items| then ([], acc)
    else
      var (y, acc1) := UnwrapWalk(items[i], acc);
      var (ys, acc2) := UnwrapItems(items, i + 1, acc1);
      ([y] + ys, acc2)
  }

  function UnwrapEntries(es: seq<Entry<ArgLeaf>>, i: nat, acc: seq<LazySource>): (r: (seq<Entry<Val>>, seq<LazySource>))
    requires i <= |es|
    ensures |r.0| == |es| - i
    decreases es, |es| - i
  {
    if i == |es| then ([], acc)
    else
      var (y, acc1) := UnwrapWalk(es[i].val, acc);
      var (ys, acc2) := UnwrapEntries(es, i + 1, acc1);
      ([Entry(es[i].key, y)] + ys, acc2)
  }

  /**
   * `unwrap_memo_values(nest)`: every `IMemoAtom` is replaced by its memo
   * value, a lazy one by `None`, and the lazy values are returned in the
   * order the leaves were visited.
   */
  function UnwrapMemoValues(s: Struct<ArgLeaf>): (r: (Struct<Val>, seq<LazySource>))
    ensures r.0 == MapStructure(MemoLeaf, s)
    ensures r.1 == LazySources(Leaves(s))
  {
    UnwrapWalkSpec(s, []);
    UnwrapWalk(s, [])
  }

  /** `_EvalLazyMemoValues()`: calls the lazy values in order. */
  function EvalLazy(md5: Fs.Bytes -> string, d: Fs.Disk, srcs: seq<LazySource>): (r: Result<seq<Val>>)
    ensures r.Ok? <==> forall m :: 0 <= m < |srcs| ==> Fs.Exists(d, srcs[m].path)
    ensures r.Err? ==> r.error == FileNotFound
    ensures r.Ok? ==> |r.value| == |srcs|
    ensures r.Ok? ==> forall m :: 0 <= m < |srcs| ==> r.value[m] == VAtom(AStr(ContentDigest(md5, d, srcs[m].path).value))
  {
    if |srcs| == 0 then Ok([])
    else
      var h :- ContentDigest(md5, d, srcs[0].path);
      var t :- EvalLazy(md5, d, srcs[1..]);
      assert forall m :: 1 <= m < |srcs| ==> srcs[m] == srcs[1..][m - 1];
      Ok([VAtom(AStr(h))] + t)
  }

  /** `unwrap_real_values(args)`: `map_structure` replacing every `IAtom` by its real value. */
  function UnwrapRealValues(s: Struct<ArgLeaf>): (r: Struct<ArgLeaf>)
    ensures Shape(r) == Shape(s)
    ensures Leaves(r) == Sorting.MapSeq(RealLeaf, Leaves(s))
  {
    MapKeepsShape(RealLeaf, s);
    LegacyUtils.LeavesOfMap(RealLeaf, s);
    MapStructure(RealLeaf, s)
  }

  function RealLeaf(x: ArgLeaf): ArgLeaf {
    if x.AtomArg? then Plain(x.value) else x
  }

  // ---------------------------------------------------------------------------
  // Properties

  lemma ConcatAllAppend<T>(a: seq<seq<T>>, b: seq<seq<T>>)
    ensures ConcatAll(a + b) == ConcatAll(a) + ConcatAll(b)
  {
    if |a| > 0 {
      assert (a + b)[1..] == a[1..] + b;
    } else {
      assert a + b == b;
    }
  }

  lemma LazySourcesAppend(a: seq<ArgLeaf>, b: seq<ArgLeaf>)
    ensures LazySources(a + b) == LazySources(a) + LazySources(b)
  {
    Sorting.MapConcat(LazyOf, a, b);
    ConcatAllAppend(Sorting.MapSeq(LazyOf, a), Sorting.MapSeq(LazyOf, b));
  }

  /** The threaded walk maps every leaf and appends the lazy values of the leaves in order. */
  lemma {:induction false} UnwrapWalkSpec(s: Struct<ArgLeaf>, acc: seq<LazySource>)
    ensures UnwrapWalk(s, acc).0 == MapStructure(MemoLeaf, s)
    ensures UnwrapWalk(s, acc).1 == acc + LazySources(Leaves(s))
    decreases s, 1
  {
    match s
    case Leaf(x) =>
      assert Sorting.MapSeq(LazyOf, [x]) == [LazyOf(x)];
      assert ConcatAll([LazyOf(x)]) == LazyOf(x) + ConcatAll([LazyOf(x)][1..]);
    case Tup(items) =>
      UnwrapItemsSpec(items, 0, acc);
    case Lst(items) =>
      UnwrapItemsSpec(items, 0, acc);
    case Dict(es) =>
      UnwrapEntriesSpec(es, 0, acc);
  }

  lemma {:induction false} UnwrapItemsSpec(items: seq<Struct<ArgLeaf>>, i: nat, acc: seq<LazySource>)
    requires i <= |items|
    ensures forall m :: 0 <= m < |items| - i ==> UnwrapItems(items, i, acc).0[m] == MapStructure(MemoLeaf, items[i + m])
    ensures UnwrapItems(items, i, acc).1 == acc + LazySources(LeavesItems(items, i))
    decreases items, 0, |items| - i
  {
    if i < |items| {
      var (y, acc1) := UnwrapWalk(items[i], acc);
      UnwrapWalkSpec(items[i], acc);
      UnwrapItemsSpec(items, i + 1, acc1);
      LazySourcesAppend(Leaves(items[i]), LeavesItems(items, i + 1));
      var ys := UnwrapItems(items, i + 1, acc1).0;
      assert UnwrapItems(items, i, acc).0 == [y] + ys;
      forall m | 0 <= m < |items| - i
        ensures UnwrapItems(items, i, acc).0[m] == MapStructure(MemoLeaf, items[i + m])
      {
        if m > 0 {
          assert ([y] + ys)[m] == ys[m - 1];
        }
      }
    } else {
      assert LeavesItems(items, i) == [];
      assert LazySources([]) == [];
    }
  }

  lemma {:induction false} UnwrapEntriesSpec(es: seq<Entry<ArgLeaf>>, i: nat, acc: seq<LazySource>)
    requires i <= |es|
    ensures forall m :: 0 <= m < |es| - i ==>
      UnwrapEntries(es, i, acc).0[m] == Entry(es[i + m].key, MapStructure(MemoLeaf, es[i + m].val))
    ensures UnwrapEntries(es, i, acc).1 == acc + LazySources(LeavesEntries(es, i))
    decreases es, 0, |es| - i
  {
    if i < |es| {
      var (y, acc1) := UnwrapWalk(es[i].val, acc);
      UnwrapWalkSpec(es[i].val, acc);
      UnwrapEntriesSpec(es, i + 1, acc1);
      LazySourcesAppend(Leaves(es[i].val), LeavesEntries(es, i + 1));
      var ys := UnwrapEntries(es, i + 1, acc1).0;
      assert UnwrapEntries(es, i, acc).0 == [Entry(es[i].key, y)] + ys;
      forall m | 0 <= m < |es| - i
        ensures UnwrapEntries(es, i, acc).0[m] == Entry(es[i + m].key, MapStructure(MemoLeaf, es[i + m].val))
      {
        if m > 0 {
          assert ([Entry(es[i].key, y)] + ys)[m] == ys[m - 1];
        }
      }
    } else {
      assert LeavesEntries(es, i) == [];
      assert LazySources([]) == [];
    }
  }

  /**
   * The memo side keeps the argument's shape, its leaves are the leaves'
   * memo values in order, and there are exactly as many lazy values as value
   * files and lazy atoms among the leaves.
   */
  lemma UnwrapMemoValuesSpec(s: Struct<ArgLeaf>)
    ensures Shape(UnwrapMemoValues(s).0) == Shape(s)
    ensures Leaves(UnwrapMemoValues(s).0) == Sorting.MapSeq(MemoLeaf, Leaves(s))
    ensures |UnwrapMemoValues(s).1| == CountLazy(Leaves(s))
  {
    MapKeepsShape(MemoLeaf, s);
    LegacyUtils.LeavesOfMap(MemoLeaf, s);
    LazyCount(Leaves(s));
  }

  function CountLazy(leaves: seq<ArgLeaf>): nat {
    if |leaves| == 0 then 0
    else (if LazyOf(leaves[0]) == [] then 0 else 1) + CountLazy(leaves[1..])
  }

  lemma {:induction false} LazyCount(leaves: seq<ArgLeaf>)
    ensures |LazySources(leaves)| == CountLazy(leaves)
  {
    if |leaves| > 0 {
      LazyCount(leaves[1..]);
      assert leaves == [leaves[0]] + leaves[1..];
      LazySourcesAppend([leaves[0]], leaves[1..]);
      assert Sorting.MapSeq(LazyOf, [leaves[0]]) == [LazyOf(leaves[0])];
      assert ConcatAll([LazyOf(leaves[0])]) == LazyOf(leaves[0]) + ConcatAll([LazyOf(leaves[0])][1..]);
    } else {
      assert LazySources(leaves) == [];
    }
  }

  /** A value file contributes `None` to the memo and its content hash to the lazy list. */
  lemma ValueFileIsLazy(f: File)
    requires IsValueFile(f)
    ensures UnwrapMemoValues(Leaf(FileArg(f))) == (Leaf(NoneVal), [ContentHash(f.path)])
  {
    assert Sorting.MapSeq(LazyOf, [FileArg(f)]) == [[ContentHash(f.path)]];
    assert ConcatAll([[ContentHash(f.path)]]) == [ContentHash(f.path)] + ConcatAll([]);
    assert Leaves(Leaf(FileArg(f))) == [FileArg(f)];
    assert MemoLeaf(FileArg(f)) == NoneVal;
    assert LazySources([FileArg(f)]) == [ContentHash(f.path)];
  }

  /** A plain file contributes `None` and nothing lazy. */
  lemma PlainFileIsNone(f: File)
    requires !IsValueFile(f)
    ensures UnwrapMemoValues(Leaf(FileArg(f))) == (Leaf(NoneVal), [])
  {
    assert Sorting.MapSeq(LazyOf, [FileArg(f)]) == [[]];
  }

  /** `Memnone` hides its value from the memo; `Memstr` memoises only `str` of it. */
  lemma MemnoneHides(str: Val -> string, a: Val, b: Val)
    ensures UnwrapMemoValues(Leaf(Memnone(a))) == UnwrapMemoValues(Leaf(Memnone(b)))
    ensures UnwrapMemoValues(Leaf(Memstr(str, a))) == UnwrapMemoValues(Leaf(Memstr(str, b))) <==> str(a) == str(b)
  {
    assert Sorting.MapSeq(LazyOf, [Memnone(a)]) == [[]];
    assert Sorting.MapSeq(LazyOf, [Memnone(b)]) == [[]];
    assert Sorting.MapSeq(LazyOf, [Memstr(str, a)]) == [[]];
    assert Sorting.MapSeq(LazyOf, [Memstr(str, b)]) == [[]];
    if UnwrapMemoValues(Leaf(Memstr(str, a))) == UnwrapMemoValues(Leaf(Memstr(str, b))) {
      assert MemoLeaf(Memstr(str, a)) == MemoLeaf(Memstr(str, b));
    }
  }

  /** Only `IAtom` leaves change under `unwrap_real_values`, and applying it twice changes nothing more. */
  lemma UnwrapRealValuesIdempotent(s: Struct<ArgLeaf>)
    ensures UnwrapRealValues(UnwrapRealValues(s)) == UnwrapRealValues(s)
    ensures forall m :: 0 <= m < |Leaves(s)| && !Leaves(s)[m].AtomArg? ==> Leaves(UnwrapRealValues(s))[m] == Leaves(s)[m]
  {
    RealTwice(s);
  }

  lemma {:induction false} RealTwice(s: Struct<ArgLeaf>)
    ensures MapStructure(RealLeaf, MapStructure(RealLeaf, s)) == MapStructure(RealLeaf, s)
  {
    match s
    case Leaf(_) =>
    case Tup(items) =>
      forall i | 0 <= i < |items| ensures MapStructure(RealLeaf, MapStructure(RealLeaf, items[i])) == MapStructure(RealLeaf, items[i]) {
        RealTwice(items[i]);
      }
    case Lst(items) =>
      forall i | 0 <= i < |items| ensures MapStructure(RealLeaf, MapStructure(RealLeaf, items[i])) == MapStructure(RealLeaf, items[i]) {
        RealTwice(items[i]);
      }
    case Dict(es) =>
      forall j | 0 <= j < |es| ensures MapStructure(RealLeaf, MapStructure(RealLeaf, es[j].val)) == MapStructure(RealLeaf, es[j].val) {
        RealTwice(es[j].val);
      }
  }

  /** `Struct` values as memoised values: dict keys become str atoms. */
  function ToVal(s: Struct<Val>): Val {
    match s
    case Leaf(v) => v
    case Tup(items) => VTuple(seq(|items|, i requires 0 <= i < |items| => ToVal(items[i])))
    case Lst(items) => VList(seq(|items|, i requires 0 <= i < |items| => ToVal(items[i])))
    case Dict(es) => VDict(seq(|es|, j requires 0 <= j < |es| => KV(VAtom(AStr(es[j].key)), ToVal(es[j].val))))
  }
}
