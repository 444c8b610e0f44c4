/**
 * Nested argument structures (jtcmake `utils/nest.py`): leaves inside
 * tuples, lists and string-keyed dicts, with
 *  - `MapStructure`, which keeps the shape and walks dicts in insertion order,
 *  - `Flatten` / `FlattenToDeepKeys`, which visit dict values in sorted-key order,
 *  - `DeepGet`, which follows a key path,
 *  - `PackSequenceAs`, which refills a shape from a flat list in insertion order.
 */
module Nest {
  import opened Wrappers
  import Strings
  import Sorting

  datatype Struct<T> =
    | Leaf(v: T)
    | Tup(items: seq<Struct<T>>)
    | Lst(items: seq<Struct<T>>)
    | Dict(entries: seq<Entry<T>>)

  datatype Entry<T> = Entry(key: string, val: Struct<T>)

  /** One step of a deep key: a sequence index or a dict key. */
  datatype Key = KInt(i: int) | KStr(s: string)

  /** The argument of `DeepKey.__getitem__`, which accepts only int and str. */
  datatype KeyArg = ArgInt(i: int) | ArgStr(s: string) | ArgOther

  function Keys<T>(es: seq<Entry<T>>): (r: seq<string>)
    ensures |r| == |es|
    ensures forall j :: 0 <= j < |es| ==> r[j] == es[j].key
  {
    seq(|es|, j requires 0 <= j < |es| => es[j].key)
  }

  predicate DistinctKeys(ks: seq<string>) {
    forall i, j :: 0 <= i < j < |ks| ==> ks[i] != ks[j]
  }

  /** Every dict in `s` has distinct keys, as every Python dict does. */
  predicate WellFormed<T>(s: Struct<T>) {
    match s
    case Leaf(_) => true
    case Tup(items) => forall i :: 0 <= i < |items| ==> WellFormed(items[i])
    case Lst(items) => forall i :: 0 <= i < |items| ==> WellFormed(items[i])
    case Dict(es) =>
      && DistinctKeys(Keys(es))
      && forall j :: 0 <= j < |es| ==> WellFormed(es[j].val)
  }

  /** Every dict in `s` already iterates in strictly increasing key order. */
  predicate SortedDicts<T>(s: Struct<T>) {
    match s
    case Leaf(_) => true
    case Tup(items) => forall i :: 0 <= i < |items| ==> SortedDicts(items[i])
    case Lst(items) => forall i :: 0 <= i < |items| ==> SortedDicts(items[i])
    case Dict(es) =>
      && (forall i, j :: 0 <= i < j < |es| ==> Strings.Less(es[i].key, es[j].key))
      && forall j :: 0 <= j < |es| ==> SortedDicts(es[j].val)
  }

  // ---------------------------------------------------------------------------
  // Key order of `sorted(d.keys())`

  function Range(n: nat): (r: seq<nat>)
    ensures |r| == n
    ensures forall i :: 0 <= i < n ==> r[i] == i
  {
    seq(n, i => i)
  }

  /** Index order on the positions of `ks`, comparing the keys they hold. */
  function IdxLess(ks: seq<string>): (nat, nat) -> bool {
    (i: nat, j: nat) => i < |ks| && j < |ks| && Strings.Less(ks[i], ks[j])
  }

  /** The positions of `ks` in the order `sorted(ks)` visits them. */
  function KeyOrder(ks: seq<string>): (r: seq<nat>)
    ensures |r| == |ks|
    ensures multiset(r) == multiset(Range(|ks|))
    ensures forall k :: 0 <= k < |r| ==> r[k] < |ks|
    ensures forall j :: 0 <= j < |ks| ==> j in r
  {
    var r := Sorting.Sort<nat>(Range(|ks|), IdxLess(ks));
    assert forall k :: 0 <= k < |r| ==> r[k] < |ks| by {
      forall k | 0 <= k < |r| ensures r[k] < |ks| {
        assert r[k] in multiset(Range(|ks|));
      }
    }
    assert forall j :: 0 <= j < |ks| ==> j in r by {
      forall j | 0 <= j < |ks| ensures j in r {
        assert Range(|ks|)[j] == j;
        assert j in multiset(Range(|ks|));
        assert j in multiset(r);
      }
    }
    r
  }

  lemma IdxLessOrder(ks: seq<string>)
    requires DistinctKeys(ks)
    ensures Sorting.StrictOrderOn(Range(|ks|), IdxLess(ks))
    ensures Sorting.TotalOn(Range(|ks|), IdxLess(ks))
  {
    var lt := IdxLess(ks);
    forall x | x in Range(|ks|) ensures !lt(x, x) {
      Strings.LessIrreflexive(ks[x]);
    }
    forall x, y, z | x in Range(|ks|) && y in Range(|ks|) && z in Range(|ks|) && lt(x, y) && lt(y, z)
      ensures lt(x, z)
    {
      Strings.LessTransitive(ks[x], ks[y], ks[z]);
    }
    forall x, y | x in Range(|ks|) && y in Range(|ks|) && x != y
      ensures lt(x, y) || lt(y, x)
    {
      Strings.LessTotal(ks[x], ks[y]);
    }
  }

  /** With strictly increasing keys, `sorted` visits the positions in order. */
  lemma KeyOrderOfSorted(ks: seq<string>)
    requires forall i, j :: 0 <= i < j < |ks| ==> Strings.Less(ks[i], ks[j])
    ensures KeyOrder(ks) == Range(|ks|)
  {
    SortedKeysDistinct(ks);
    IdxLessOrder(ks);
    var lt := IdxLess(ks);
    var rs := Range(|ks|);
    Sorting.SortSorted(rs, lt);
    RangeSortedByKeys(ks);
    Sorting.SortedUnique(rs, Sorting.Sort<nat>(rs, lt), lt);
  }

  lemma SortedKeysDistinct(ks: seq<string>)
    requires forall i, j :: 0 <= i < j < |ks| ==> Strings.Less(ks[i], ks[j])
    ensures DistinctKeys(ks)
  {
    forall i, j | 0 <= i < j < |ks| ensures ks[i] != ks[j] {
      Strings.LessIrreflexive(ks[i]);
    }
  }

  lemma RangeSortedByKeys(ks: seq<string>)
    requires forall i, j :: 0 <= i < j < |ks| ==> Strings.Less(ks[i], ks[j])
    ensures Sorting.Sorted(Range(|ks|), IdxLess(ks))
  {
    var rs := Range(|ks|);
    forall i, j | 0 <= i < j < |rs| ensures !IdxLess(ks)(rs[j], rs[i]) {
      if Strings.Less(ks[j], ks[i]) {
        Strings.LessTransitive(ks[i], ks[j], ks[i]);
        Strings.LessIrreflexive(ks[i]);
      }
    }
  }

  // ---------------------------------------------------------------------------
  // Traversals

  /** Leaves in insertion order: the order in which `map_structure` calls `map_fn`. */
  function Leaves<T>(s: Struct<T>): seq<T> {
    match s
    case Leaf(v) => [v]
    case Tup(items) => LeavesItems(items, 0)
    case Lst(items) => LeavesItems(items, 0)
    case Dict(es) => LeavesEntries(es, 0)
  }

  function LeavesItems<T>(items: seq<Struct<T>>, i: nat): seq<T>
    decreases items, |items| - i
  {
    if i >= |items| then [] else Leaves(items[i]) + LeavesItems(items, i + 1)
  }

  function LeavesEntries<T>(es: seq<Entry<T>>, i: nat): seq<T>
    decreases es, |es| - i
  {
    if i >= |es| then [] else Leaves(es[i].val) + LeavesEntries(es, i + 1)
  }

  /** `flatten`: leaves left to right, dict values in sorted-key order. */
  function Flatten<T>(s: Struct<T>): seq<T> {
    match s
    case Leaf(v) => [v]
    case Tup(items) => FlattenItems(items, 0)
    case Lst(items) => FlattenItems(items, 0)
    case Dict(es) => FlattenOrd(es, KeyOrder(Keys(es)), 0)
  }

  function FlattenItems<T>(items: seq<Struct<T>>, i: nat): seq<T>
    decreases items, |items| - i
  {
    if i >= |items| then [] else Flatten(items[i]) + FlattenItems(items, i + 1)
  }

  function FlattenOrd<T>(es: seq<Entry<T>>, ord: seq<nat>, k: nat): seq<T>
    requires forall m :: 0 <= m < |ord| ==> ord[m] < |es|
    decreases es, |ord| - k
  {
    if k >= |ord| then [] else Flatten(es[ord[k]].val) + FlattenOrd(es, ord, k + 1)
  }

  /** `flatten_to_deepkeys`: the key path of every leaf, in `Flatten` order. */
  function DeepKeys<T>(s: Struct<T>): seq<seq<Key>> {
    match s
    case Leaf(_) => [[]]
    case Tup(items) => DeepKeysItems(items, 0)
    case Lst(items) => DeepKeysItems(items, 0)
    case Dict(es) => DeepKeysOrd(es, KeyOrder(Keys(es)), 0)
  }

  function Prefixed(k: Key, dks: seq<seq<Key>>): (r: seq<seq<Key>>)
    ensures |r| == |dks|
    ensures forall m :: 0 <= m < |dks| ==> r[m] == [k] + dks[m]
  {
    seq(|dks|, m requires 0 <= m < |dks| => [k] + dks[m])
  }

  function DeepKeysItems<T>(items: seq<Struct<T>>, i: nat): seq<seq<Key>>
    decreases items, |items| - i
  {
    if i >= |items| then []
    else Prefixed(KInt(i), DeepKeys(items[i])) + DeepKeysItems(items, i + 1)
  }

  function DeepKeysOrd<T>(es: seq<Entry<T>>, ord: seq<nat>, k: nat): seq<seq<Key>>
    requires forall m :: 0 <= m < |ord| ==> ord[m] < |es|
    decreases es, |ord| - k
  {
    if k >= |ord| then []
    else Prefixed(KStr(es[ord[k]].key), DeepKeys(es[ord[k]].val)) + DeepKeysOrd(es, ord, k + 1)
  }

  /** `map_structure`: applies `f` to every leaf and keeps containers and keys. */
  function MapStructure<T, U>(f: T -> U, s: Struct<T>): Struct<U> {
    match s
    case Leaf(v) => Leaf(f(v))
    case Tup(items) => Tup(seq(|items|, i requires 0 <= i < |items| => MapStructure(f, items[i])))
    case Lst(items) => Lst(seq(|items|, i requires 0 <= i < |items| => MapStructure(f, items[i])))
    case Dict(es) =>
      Dict(seq(|es|, j requires 0 <= j < |es| => Entry(es[j].key, MapStructure(f, es[j].val))))
  }

  /** Same containers and keys, leaves ignored. */
  function Shape<T>(s: Struct<T>): Struct<()> {
    MapStructure((_: T) => (), s)
  }

  // ---------------------------------------------------------------------------
  // Deep keys

  /** `DeepKey[k]`: appends an int or str key; anything else raises `ValueError`. */
  function ExtendDeepKey(dk: seq<Key>, k: KeyArg): (r: Result<seq<Key>>)
    ensures k.ArgOther? <==> r == Err(ValueError)
    ensures k.ArgInt? ==> r == Ok(dk + [KInt(k.i)])
    ensures k.ArgStr? ==> r == Ok(dk + [KStr(k.s)])
  {
    match k
    case ArgInt(i) => Ok(dk + [KInt(i)])
    case ArgStr(s) => Ok(dk + [KStr(s)])
    case ArgOther => Err(ValueError)
  }

  function FindKey<T>(es: seq<Entry<T>>, key: string): (r: Option<nat>)
    ensures r.Some? ==> r.value < |es| && es[r.value].key == key
    ensures r.None? ==> forall j :: 0 <= j < |es| ==> es[j].key != key
  {
    if |es| == 0 then None
    else if es[|es| - 1].key == key then Some(|es| - 1)
    else FindKey(es[..|es| - 1], key)
  }

  /** `struct[k]` on one level: Python indexing of tuples/lists and dict lookup. */
  function Index<T>(s: Struct<T>, k: Key): (r: Result<Struct<T>>)
  {
    match s
    case Leaf(_) => Err(TypeError)
    case Tup(items) => IndexSeq(items, k)
    case Lst(items) => IndexSeq(items, k)
    case Dict(es) =>
      if k.KInt? then Err(KeyError)
      else match FindKey(es, k.s)
        case None => Err(KeyError)
        case Some(j) => Ok(es[j].val)
  }

  function IndexSeq<T>(items: seq<Struct<T>>, k: Key): (r: Result<Struct<T>>)
    ensures k.KStr? ==> r == Err(TypeError)
    ensures k.KInt? && 0 <= k.i < |items| ==> r == Ok(items[k.i])
    ensures k.KInt? && -|items| <= k.i < 0 ==> r == Ok(items[|items| + k.i])
    ensures k.KInt? && !(-|items| <= k.i < |items|) ==> r == Err(IndexError)
  {
    if k.KStr? then Err(TypeError)
    else if 0 <= k.i < |items| then Ok(items[k.i])
    else if -|items| <= k.i < 0 then Ok(items[|items| + k.i])
    else Err(IndexError)
  }

  /** `deep_get`: follows the keys one level at a time. */
  function DeepGet<T>(s: Struct<T>, ks: seq<Key>): Result<Struct<T>>
    decreases |ks|
  {
    if |ks| == 0 then Ok(s)
    else
      var c :- Index(s, ks[0]);
      DeepGet(c, ks[1..])
  }

  // ---------------------------------------------------------------------------
  // pack_sequence_as

  /**
   * The walk of `pack_sequence_as`: consumes the front of `flat` for the
   * leaves of `ref` in insertion order; `None` when `flat` runs out.
   */
  function Walk<T, U>(ref: Struct<T>, flat: seq<U>): (r: Option<(Struct<U>, seq<U>)>)
    ensures r.Some? <==> |Leaves(ref)| <= |flat|
    ensures r.Some? ==>
      && r.value.1 == flat[|Leaves(ref)|..]
      && Leaves(r.value.0) == flat[..|Leaves(ref)|]
      && Shape(r.value.0) == Shape(ref)
  {
    match ref
    case Leaf(_) =>
      if |flat| == 0 then None else Some((Leaf(flat[0]), flat[1..]))
    case Tup(items) =>
      var w := WalkItems(items, 0, flat);
      if w.None? then None
      else
        ShapeOfItems(w.value.0, items);
        Some((Tup(w.value.0), w.value.1))
    case Lst(items) =>
      var w := WalkItems(items, 0, flat);
      if w.None? then None
      else
        ShapeOfItems(w.value.0, items);
        Some((Lst(w.value.0), w.value.1))
    case Dict(es) =>
      var w := WalkEntries(es, 0, flat);
      if w.None? then None
      else
        ShapeOfEntries(w.value.0, es);
        Some((Dict(w.value.0), w.value.1))
  }

  function WalkItems<T, U>(items: seq<Struct<T>>, i: nat, flat: seq<U>): (r: Option<(seq<Struct<U>>, seq<U>)>)
    requires i <= |items|
    ensures r.Some? <==> |LeavesItems(items, i)| <= |flat|
    ensures r.Some? ==>
      && |r.value.0| == |items| - i
      && r.value.1 == flat[|LeavesItems(items, i)|..]
      && LeavesItems(r.value.0, 0) == flat[..|LeavesItems(items, i)|]
      && forall m :: 0 <= m < |r.value.0| ==> Shape(r.value.0[m]) == Shape(items[i + m])
    decreases items, |items| - i
  {
    if i == |items| then Some(([], flat))
    else
      var h := Walk(items[i], flat);
      if h.None? then None
      else
        var t := WalkItems(items, i + 1, h.value.1);
        if t.None? then None
        else
          var out := [h.value.0] + t.value.0;
          LeavesItemsCons(h.value.0, t.value.0);
          ItemsShapeCons(items, i, h.value.0, t.value.0);
          SlicesJoin(flat, |Leaves(items[i])|, |LeavesItems(items, i + 1)|);
          Some((out, t.value.1))
  }

  function WalkEntries<T, U>(es: seq<Entry<T>>, i: nat, flat: seq<U>): (r: Option<(seq<Entry<U>>, seq<U>)>)
    requires i <= |es|
    ensures r.Some? <==> |LeavesEntries(es, i)| <= |flat|
    ensures r.Some? ==>
      && |r.value.0| == |es| - i
      && r.value.1 == flat[|LeavesEntries(es, i)|..]
      && LeavesEntries(r.value.0, 0) == flat[..|LeavesEntries(es, i)|]
      && forall m :: 0 <= m < |r.value.0| ==>
           r.value.0[m].key == es[i + m].key && Shape(r.value.0[m].val) == Shape(es[i + m].val)
    decreases es, |es| - i
  {
    if i == |es| then Some(([], flat))
    else
      var h := Walk(es[i].val, flat);
      if h.None? then None
      else
        var t := WalkEntries(es, i + 1, h.value.1);
        if t.None? then None
        else
          var out := [Entry(es[i].key, h.value.0)] + t.value.0;
          LeavesEntriesCons(Entry(es[i].key, h.value.0), t.value.0);
          EntriesShapeCons(es, i, Entry(es[i].key, h.value.0), t.value.0);
          SlicesJoin(flat, |Leaves(es[i].val)|, |LeavesEntries(es, i + 1)|);
          Some((out, t.value.1))
  }

  /** Shapes aligned from item `i + 1` on, with a matching head, are aligned from `i` on. */
  lemma ItemsShapeCons<T, U>(items: seq<Struct<T>>, i: nat, h: Struct<U>, t: seq<Struct<U>>)
    requires i < |items| && |t| == |items| - i - 1
    requires Shape(h) == Shape(items[i])
    requires forall m :: 0 <= m < |t| ==> Shape(t[m]) == Shape(items[i + 1 + m])
    ensures forall m :: 0 <= m < |[h] + t| ==> Shape(([h] + t)[m]) == Shape(items[i + m])
  {
    forall m | 0 <= m < |[h] + t|
      ensures Shape(([h] + t)[m]) == Shape(items[i + m])
    {
      if m > 0 {
        assert ([h] + t)[m] == t[m - 1];
      }
    }
  }

  /** Keys and shapes aligned from entry `i + 1` on, with a matching head, are aligned from `i` on. */
  lemma EntriesShapeCons<T, U>(es: seq<Entry<T>>, i: nat, h: Entry<U>, t: seq<Entry<U>>)
    requires i < |es| && |t| == |es| - i - 1
    requires h.key == es[i].key && Shape(h.val) == Shape(es[i].val)
    requires forall m :: 0 <= m < |t| ==> t[m].key == es[i + 1 + m].key && Shape(t[m].val) == Shape(es[i + 1 + m].val)
    ensures forall m :: 0 <= m < |[h] + t| ==>
      ([h] + t)[m].key == es[i + m].key && Shape(([h] + t)[m].val) == Shape(es[i + m].val)
  {
    forall m | 0 <= m < |[h] + t|
      ensures ([h] + t)[m].key == es[i + m].key && Shape(([h] + t)[m].val) == Shape(es[i + m].val)
    {
      if m > 0 {
        assert ([h] + t)[m] == t[m - 1];
      }
    }
  }

  lemma ShapeOfItems<T, U>(a: seq<Struct<U>>, b: seq<Struct<T>>)
    requires |a| == |b|
    requires forall m :: 0 <= m < |a| ==> Shape(a[m]) == Shape(b[m])
    ensures Shape(Tup(a)) == Shape(Tup(b)) && Shape(Lst(a)) == Shape(Lst(b))
  {
    assert Shape(Tup(a)).items == Shape(Tup(b)).items;
    assert Shape(Lst(a)).items == Shape(Lst(b)).items;
  }

  lemma ShapeOfEntries<T, U>(a: seq<Entry<U>>, b: seq<Entry<T>>)
    requires |a| == |b|
    requires forall m :: 0 <= m < |a| ==> a[m].key == b[m].key && Shape(a[m].val) == Shape(b[m].val)
    ensures Shape(Dict(a)) == Shape(Dict(b))
  {
    assert Shape(Dict(a)).entries == Shape(Dict(b)).entries;
  }

  lemma LeavesItemsCons<T>(h: Struct<T>, t: seq<Struct<T>>)
    ensures LeavesItems([h] + t, 0) == Leaves(h) + LeavesItems(t, 0)
  {
    LeavesItemsShift([h] + t, 1, t);
  }

  lemma {:induction false} LeavesItemsShift<T>(a: seq<Struct<T>>, d: nat, t: seq<Struct<T>>)
    requires d <= |a| && a[d..] == t
    ensures LeavesItems(a, d) == LeavesItems(t, 0)
    decreases |a| - d
  {
    if d < |a| {
      LeavesItemsShiftStep(a, d, t, 0);
    }
  }

  lemma {:induction false} LeavesItemsShiftStep<T>(a: seq<Struct<T>>, d: nat, t: seq<Struct<T>>, k: nat)
    requires d + k <= |a| && a[d..] == t
    ensures LeavesItems(a, d + k) == LeavesItems(t, k)
    decreases |a| - d - k
  {
    assert |t| == |a| - d;
    if d + k < |a| {
      assert a[d + k] == t[k];
      LeavesItemsShiftStep(a, d, t, k + 1);
      assert LeavesItems(a, d + k) == Leaves(a[d + k]) + LeavesItems(a, d + k + 1);
      assert LeavesItems(t, k) == Leaves(t[k]) + LeavesItems(t, k + 1);
    } else {
      assert LeavesItems(a, d + k) == [] == LeavesItems(t, k);
    }
  }

  lemma LeavesEntriesCons<T>(h: Entry<T>, t: seq<Entry<T>>)
    ensures LeavesEntries([h] + t, 0) == Leaves(h.val) + LeavesEntries(t, 0)
  {
    LeavesEntriesShiftStep([h] + t, 1, t, 0);
  }

  lemma {:induction false} LeavesEntriesShiftStep<T>(a: seq<Entry<T>>, d: nat, t: seq<Entry<T>>, k: nat)
    requires d + k <= |a| && a[d..] == t
    ensures LeavesEntries(a, d + k) == LeavesEntries(t, k)
    decreases |a| - d - k
  {
    assert |t| == |a| - d;
    if d + k < |a| {
      assert a[d + k] == t[k];
      LeavesEntriesShiftStep(a, d, t, k + 1);
      assert LeavesEntries(a, d + k) == Leaves(a[d + k].val) + LeavesEntries(a, d + k + 1);
      assert LeavesEntries(t, k) == Leaves(t[k].val) + LeavesEntries(t, k + 1);
    } else {
      assert LeavesEntries(a, d + k) == [] == LeavesEntries(t, k);
    }
  }

  /**
   * `pack_sequence_as(ref, flat)`: `NotEnoughElementError` when `flat` is
   * too short, `TypeError` when it is too long, otherwise `ref`'s shape
   * holding `flat` in insertion order.
   */
  function PackSequenceAs<T, U>(ref: Struct<T>, flat: seq<U>): (r: Result<Struct<U>>)
    ensures |flat| < |Leaves(ref)| <==> r == Err(NotEnoughElementError)
    ensures |flat| > |Leaves(ref)| <==> r == Err(TypeError)
    ensures r.Ok? <==> |flat| == |Leaves(ref)|
    ensures r.Ok? ==> Leaves(r.value) == flat && Shape(r.value) == Shape(ref)
  {
    match Walk(ref, flat)
    case None => Err(NotEnoughElementError)
    case Some((res, rest)) => if |rest| != 0 then Err(TypeError) else Ok(res)
  }

  // ---------------------------------------------------------------------------
  // Properties

  /** `map_structure(lambda x: x, s) == s`. */
  lemma {:induction false} MapIdentity<T>(s: Struct<T>)
    ensures MapStructure((x: T) => x, s) == s
  {
    match s
    case Leaf(_) =>
    case Tup(items) =>
      forall i | 0 <= i < |items| ensures MapStructure((x: T) => x, items[i]) == items[i] {
        MapIdentity(items[i]);
      }
    case Lst(items) =>
      forall i | 0 <= i < |items| ensures MapStructure((x: T) => x, items[i]) == items[i] {
        MapIdentity(items[i]);
      }
    case Dict(es) =>
      forall j | 0 <= j < |es| ensures MapStructure((x: T) => x, es[j].val) == es[j].val {
        MapIdentity(es[j].val);
      }
  }

  /** Mapping keeps the containers and the keys: only leaves change. */
  lemma {:induction false} MapKeepsShape<T, U>(f: T -> U, s: Struct<T>)
    ensures Shape(MapStructure(f, s)) == Shape(s)
  {
    match s
    case Leaf(_) =>
    case Tup(items) =>
      var a := seq(|items|, i requires 0 <= i < |items| => MapStructure(f, items[i]));
      forall i | 0 <= i < |items| ensures Shape(a[i]) == Shape(items[i]) {
        MapKeepsShape(f, items[i]);
      }
      ShapeOfItems(a, items);
    case Lst(items) =>
      var a := seq(|items|, i requires 0 <= i < |items| => MapStructure(f, items[i]));
      forall i | 0 <= i < |items| ensures Shape(a[i]) == Shape(items[i]) {
        MapKeepsShape(f, items[i]);
      }
      ShapeOfItems(a, items);
    case Dict(es) =>
      var a := seq(|es|, j requires 0 <= j < |es| => Entry(es[j].key, MapStructure(f, es[j].val)));
      forall j | 0 <= j < |es| ensures a[j].key == es[j].key && Shape(a[j].val) == Shape(es[j].val) {
        MapKeepsShape(f, es[j].val);
      }
      ShapeOfEntries(a, es);
  }

  /** `flatten(map_structure(f, s))` is `flatten(s)` with `f` applied to each element. */
  lemma {:induction false} FlattenOfMap<T, U>(f: T -> U, s: Struct<T>)
    ensures Flatten(MapStructure(f, s)) == Sorting.MapSeq(f, Flatten(s))
  {
    match s
    case Leaf(_) =>
    case Tup(items) =>
      var a := seq(|items|, i requires 0 <= i < |items| => MapStructure(f, items[i]));
      FlattenItemsOfMap(f, items, a, 0);
    case Lst(items) =>
      var a := seq(|items|, i requires 0 <= i < |items| => MapStructure(f, items[i]));
      FlattenItemsOfMap(f, items, a, 0);
    case Dict(es) =>
      var a := seq(|es|, j requires 0 <= j < |es| => Entry(es[j].key, MapStructure(f, es[j].val)));
      assert Keys(a) == Keys(es);
      FlattenOrdOfMap(f, es, a, KeyOrder(Keys(es)), 0);
  }

  lemma {:induction false} FlattenItemsOfMap<T, U>(f: T -> U, items: seq<Struct<T>>, a: seq<Struct<U>>, i: nat)
    requires |a| == |items|
    requires forall m :: 0 <= m < |items| ==> a[m] == MapStructure(f, items[m])
    ensures FlattenItems(a, i) == Sorting.MapSeq(f, FlattenItems(items, i))
    decreases items, |items| - i
  {
    if i < |items| {
      FlattenOfMap(f, items[i]);
      FlattenItemsOfMap(f, items, a, i + 1);
      Sorting.MapConcat(f, Flatten(items[i]), FlattenItems(items, i + 1));
      assert FlattenItems(a, i) == Flatten(a[i]) + FlattenItems(a, i + 1);
    }
  }

  lemma {:induction false} FlattenOrdOfMap<T, U>(f: T -> U, es: seq<Entry<T>>, a: seq<Entry<U>>, ord: seq<nat>, k: nat)
    requires |a| == |es|
    requires forall m :: 0 <= m < |es| ==> a[m].val == MapStructure(f, es[m].val)
    requires forall m :: 0 <= m < |ord| ==> ord[m] < |es|
    ensures FlattenOrd(a, ord, k) == Sorting.MapSeq(f, FlattenOrd(es, ord, k))
    decreases es, |ord| - k
  {
    if k < |ord| {
      FlattenOfMap(f, es[ord[k]].val);
      FlattenOrdOfMap(f, es, a, ord, k + 1);
      Sorting.MapConcat(f, Flatten(es[ord[k]].val), FlattenOrd(es, ord, k + 1));
      assert FlattenOrd(a, ord, k) == Flatten(a[ord[k]].val) + FlattenOrd(a, ord, k + 1);
    }
  }

  /** The leaves of `map_structure(f, s)`, in insertion order, are `f` of the leaves of `s`. */
  lemma {:induction false} LeavesOfMap<T, U>(f: T -> U, s: Struct<T>)
    ensures Leaves(MapStructure(f, s)) == Sorting.MapSeq(f, Leaves(s))
  {
    match s
    case Leaf(_) =>
    case Tup(items) =>
      var a := seq(|items|, i requires 0 <= i < |items| => MapStructure(f, items[i]));
      LeavesItemsOfMap(f, items, a, 0);
    case Lst(items) =>
      var a := seq(|items|, i requires 0 <= i < |items| => MapStructure(f, items[i]));
      LeavesItemsOfMap(f, items, a, 0);
    case Dict(es) =>
      var a := seq(|es|, j requires 0 <= j < |es| => Entry(es[j].key, MapStructure(f, es[j].val)));
      LeavesEntriesOfMap(f, es, a, 0);
  }

  lemma {:induction false} LeavesItemsOfMap<T, U>(f: T -> U, items: seq<Struct<T>>, a: seq<Struct<U>>, i: nat)
    requires |a| == |items|
    requires forall m :: 0 <= m < |items| ==> a[m] == MapStructure(f, items[m])
    ensures LeavesItems(a, i) == Sorting.MapSeq(f, LeavesItems(items, i))
    decreases items, |items| - i
  {
    if i < |items| {
      LeavesOfMap(f, items[i]);
      LeavesItemsOfMap(f, items, a, i + 1);
      Sorting.MapConcat(f, Leaves(items[i]), LeavesItems(items, i + 1));
    }
  }

  lemma {:induction false} LeavesEntriesOfMap<T, U>(f: T -> U, es: seq<Entry<T>>, a: seq<Entry<U>>, i: nat)
    requires |a| == |es|
    requires forall m :: 0 <= m < |es| ==> a[m].val == MapStructure(f, es[m].val)
    ensures LeavesEntries(a, i) == Sorting.MapSeq(f, LeavesEntries(es, i))
    decreases es, |es| - i
  {
    if i < |es| {
      LeavesOfMap(f, es[i].val);
      LeavesEntriesOfMap(f, es, a, i + 1);
      Sorting.MapConcat(f, Leaves(es[i].val), LeavesEntries(es, i + 1));
    }
  }

  /** `deep_get` of a one-step-longer key descends one level first. */
  lemma DeepGetCons<T>(s: Struct<T>, k: Key, rest: seq<Key>)
    ensures Index(s, k).Err? ==> DeepGet(s, [k] + rest) == Err(Index(s, k).error)
    ensures Index(s, k).Ok? ==> DeepGet(s, [k] + rest) == DeepGet(Index(s, k).value, rest)
  {
    assert ([k] + rest)[1..] == rest;
  }

  lemma LookupDistinct<T>(es: seq<Entry<T>>, j: nat)
    requires j < |es| && DistinctKeys(Keys(es))
    ensures Index(Dict(es), KStr(es[j].key)) == Ok(es[j].val)
  {
    var f := FindKey(es, es[j].key);
    assert f.Some?;
    assert Keys(es)[f.value] == Keys(es)[j];
  }

  /**
   * `flatten_to_deepkeys(s)` lines up with `flatten(s)`: same length, and
   * following the i-th key path with `deep_get` reaches the i-th leaf.
   */
  lemma {:induction false} DeepKeysAligned<T>(s: Struct<T>)
    requires WellFormed(s)
    ensures |DeepKeys(s)| == |Flatten(s)|
    ensures forall m :: 0 <= m < |DeepKeys(s)| ==> DeepGet(s, DeepKeys(s)[m]) == Ok(Leaf(Flatten(s)[m]))
  {
    match s
    case Leaf(_) =>
    case Tup(items) => DeepKeysItemsAligned(s, items, 0);
    case Lst(items) => DeepKeysItemsAligned(s, items, 0);
    case Dict(es) => DeepKeysOrdAligned(s, es, KeyOrder(Keys(es)), 0);
  }

  lemma {:induction false} DeepKeysItemsAligned<T>(p: Struct<T>, items: seq<Struct<T>>, i: nat)
    requires p == Tup(items) || p == Lst(items)
    requires WellFormed(p)
    ensures |DeepKeysItems(items, i)| == |FlattenItems(items, i)|
    ensures forall m :: 0 <= m < |DeepKeysItems(items, i)| ==>
      DeepGet(p, DeepKeysItems(items, i)[m]) == Ok(Leaf(FlattenItems(items, i)[m]))
    decreases items, |items| - i
  {
    if i < |items| {
      var c := items[i];
      DeepKeysAligned(c);
      DeepKeysItemsAligned(p, items, i + 1);
      assert Index(p, KInt(i)) == Ok(c);
      ChildAligned(p, KInt(i), c);
      assert DeepKeysItems(items, i) == Prefixed(KInt(i), DeepKeys(c)) + DeepKeysItems(items, i + 1);
      assert FlattenItems(items, i) == Flatten(c) + FlattenItems(items, i + 1);
      ConcatAligned(p, Prefixed(KInt(i), DeepKeys(c)), Flatten(c), DeepKeysItems(items, i + 1), FlattenItems(items, i + 1));
    }
  }

  lemma {:induction false} DeepKeysOrdAligned<T>(p: Struct<T>, es: seq<Entry<T>>, ord: seq<nat>, k: nat)
    requires p == Dict(es)
    requires WellFormed(p)
    requires forall m :: 0 <= m < |ord| ==> ord[m] < |es|
    ensures |DeepKeysOrd(es, ord, k)| == |FlattenOrd(es, ord, k)|
    ensures forall m :: 0 <= m < |DeepKeysOrd(es, ord, k)| ==>
      DeepGet(p, DeepKeysOrd(es, ord, k)[m]) == Ok(Leaf(FlattenOrd(es, ord, k)[m]))
    decreases es, |ord| - k
  {
    if k < |ord| {
      var j := ord[k];
      var c := es[j].val;
      DeepKeysAligned(c);
      DeepKeysOrdAligned(p, es, ord, k + 1);
      LookupDistinct(es, j);
      ChildAligned(p, KStr(es[j].key), c);
      assert DeepKeysOrd(es, ord, k) == Prefixed(KStr(es[j].key), DeepKeys(c)) + DeepKeysOrd(es, ord, k + 1);
      assert FlattenOrd(es, ord, k) == Flatten(c) + FlattenOrd(es, ord, k + 1);
      ConcatAligned(p, Prefixed(KStr(es[j].key), DeepKeys(c)), Flatten(c), DeepKeysOrd(es, ord, k + 1), FlattenOrd(es, ord, k + 1));
    }
  }

  /** The key paths of a child, behind the key that reaches it, address the child's leaves in `p`. */
  lemma ChildAligned<T>(p: Struct<T>, key: Key, c: Struct<T>)
    requires Index(p, key) == Ok(c)
    requires |DeepKeys(c)| == |Flatten(c)|
    requires forall m :: 0 <= m < |DeepKeys(c)| ==> DeepGet(c, DeepKeys(c)[m]) == Ok(Leaf(Flatten(c)[m]))
    ensures forall m :: 0 <= m < |DeepKeys(c)| ==>
      DeepGet(p, Prefixed(key, DeepKeys(c))[m]) == Ok(Leaf(Flatten(c)[m]))
  {
    forall m | 0 <= m < |DeepKeys(c)|
      ensures DeepGet(p, Prefixed(key, DeepKeys(c))[m]) == Ok(Leaf(Flatten(c)[m]))
    {
      DeepGetCons(p, key, DeepKeys(c)[m]);
    }
  }

  /** Two aligned runs of key paths and leaves stay aligned when concatenated. */
  lemma ConcatAligned<T>(p: Struct<T>, ka: seq<seq<Key>>, fa: seq<T>, kb: seq<seq<Key>>, fb: seq<T>)
    requires |ka| == |fa| && |kb| == |fb|
    requires forall m :: 0 <= m < |ka| ==> DeepGet(p, ka[m]) == Ok(Leaf(fa[m]))
    requires forall m :: 0 <= m < |kb| ==> DeepGet(p, kb[m]) == Ok(Leaf(fb[m]))
    ensures forall m :: 0 <= m < |ka + kb| ==> DeepGet(p, (ka + kb)[m]) == Ok(Leaf((fa + fb)[m]))
  {
    forall m | 0 <= m < |ka + kb| ensures DeepGet(p, (ka + kb)[m]) == Ok(Leaf((fa + fb)[m])) {
      if m >= |ka| {
        assert (ka + kb)[m] == kb[m - |ka|];
        assert (fa + fb)[m] == fb[m - |ka|];
      }
    }
  }

  /** When every dict is already in sorted-key order, `flatten` walks in insertion order. */
  lemma {:induction false} FlattenIsLeavesWhenSorted<T>(s: Struct<T>)
    requires SortedDicts(s)
    ensures Flatten(s) == Leaves(s)
  {
    match s
    case Leaf(_) =>
    case Tup(items) => FlattenItemsIsLeaves(items, 0);
    case Lst(items) => FlattenItemsIsLeaves(items, 0);
    case Dict(es) =>
      KeyOrderOfSorted(Keys(es));
      FlattenOrdIsLeaves(es, 0);
  }

  lemma {:induction false} FlattenItemsIsLeaves<T>(items: seq<Struct<T>>, i: nat)
    requires forall m :: 0 <= m < |items| ==> SortedDicts(items[m])
    ensures FlattenItems(items, i) == LeavesItems(items, i)
    decreases items, |items| - i
  {
    if i < |items| {
      FlattenIsLeavesWhenSorted(items[i]);
      FlattenItemsIsLeaves(items, i + 1);
    }
  }

  lemma {:induction false} FlattenOrdIsLeaves<T>(es: seq<Entry<T>>, k: nat)
    requires forall m :: 0 <= m < |es| ==> SortedDicts(es[m].val)
    ensures FlattenOrd(es, Range(|es|), k) == LeavesEntries(es, k)
    decreases es, |es| - k
  {
    if k < |es| {
      FlattenIsLeavesWhenSorted(es[k].val);
      FlattenOrdIsLeaves(es, k + 1);
    }
  }

  /** Walking a structure over its own leaves rebuilds it and leaves the rest. */
  lemma {:induction false} WalkOwnLeaves<T>(s: Struct<T>, rest: seq<T>)
    ensures Walk(s, Leaves(s) + rest) == Some((s, rest))
  {
    match s
    case Leaf(v) =>
      assert ([v] + rest)[1..] == rest;
    case Tup(items) =>
      WalkItemsOwnLeaves(items, 0, rest);
      assert items[0..] == items;
    case Lst(items) =>
      WalkItemsOwnLeaves(items, 0, rest);
      assert items[0..] == items;
    case Dict(es) =>
      WalkEntriesOwnLeaves(es, 0, rest);
      assert es[0..] == es;
  }

  lemma {:induction false} WalkItemsOwnLeaves<T>(items: seq<Struct<T>>, i: nat, rest: seq<T>)
    requires i <= |items|
    ensures WalkItems(items, i, LeavesItems(items, i) + rest) == Some((items[i..], rest))
    decreases items, |items| - i
  {
    if i < |items| {
      var mid := LeavesItems(items, i + 1) + rest;
      LeavesItemsSplit(items, i, rest);
      WalkOwnLeaves(items[i], mid);
      WalkItemsOwnLeaves(items, i + 1, rest);
      WalkItemsStep(items, i, LeavesItems(items, i) + rest, mid, rest);
    } else {
      assert LeavesItems(items, i) + rest == rest;
      assert items[i..] == [];
    }
  }

  lemma {:induction false} WalkEntriesOwnLeaves<T>(es: seq<Entry<T>>, i: nat, rest: seq<T>)
    requires i <= |es|
    ensures WalkEntries(es, i, LeavesEntries(es, i) + rest) == Some((es[i..], rest))
    decreases es, |es| - i
  {
    if i < |es| {
      var mid := LeavesEntries(es, i + 1) + rest;
      LeavesEntriesSplit(es, i, rest);
      WalkOwnLeaves(es[i].val, mid);
      WalkEntriesOwnLeaves(es, i + 1, rest);
      WalkEntriesStep(es, i, LeavesEntries(es, i) + rest, mid, rest);
    } else {
      assert LeavesEntries(es, i) + rest == rest;
      assert es[i..] == [];
    }
  }

  /** One step of the insertion-order walk over items. */
  lemma WalkItemsStep<T>(items: seq<Struct<T>>, i: nat, flat: seq<T>, mid: seq<T>, rest: seq<T>)
    requires i < |items|
    requires Walk(items[i], flat) == Some((items[i], mid))
    requires WalkItems(items, i + 1, mid) == Some((items[i + 1..], rest))
    ensures WalkItems(items, i, flat) == Some((items[i..], rest))
  {
    ConsSlice(items, i);
  }

  /** The leaves from item `i` on are those of item `i` followed by the rest. */
  lemma LeavesItemsSplit<T>(items: seq<Struct<T>>, i: nat, rest: seq<T>)
    requires i < |items|
    ensures LeavesItems(items, i) + rest == Leaves(items[i]) + (LeavesItems(items, i + 1) + rest)
  {
    assert LeavesItems(items, i) == Leaves(items[i]) + LeavesItems(items, i + 1);
  }

  /** One step of the insertion-order walk over dict entries. */
  lemma WalkEntriesStep<T>(es: seq<Entry<T>>, i: nat, flat: seq<T>, mid: seq<T>, rest: seq<T>)
    requires i < |es|
    requires Walk(es[i].val, flat) == Some((es[i].val, mid))
    requires WalkEntries(es, i + 1, mid) == Some((es[i + 1..], rest))
    ensures WalkEntries(es, i, flat) == Some((es[i..], rest))
  {
    assert Entry(es[i].key, es[i].val) == es[i];
    ConsSlice(es, i);
  }

  /** The leaves from entry `i` on are those of entry `i` followed by the rest. */
  lemma LeavesEntriesSplit<T>(es: seq<Entry<T>>, i: nat, rest: seq<T>)
    requires i < |es|
    ensures LeavesEntries(es, i) + rest == Leaves(es[i].val) + (LeavesEntries(es, i + 1) + rest)
  {
    assert LeavesEntries(es, i) == Leaves(es[i].val) + LeavesEntries(es, i + 1);
  }

  /** Consuming `a` then `b` elements of `s` consumes its first `a + b`. */
  lemma SlicesJoin<X>(s: seq<X>, a: nat, b: nat)
    requires a + b <= |s|
    ensures s[..a] + s[a..][..b] == s[..a + b]
    ensures s[a..][b..] == s[a + b..]
  {
  }

  /** A suffix of a sequence is its first element followed by the next suffix. */
  lemma ConsSlice<X>(s: seq<X>, i: nat)
    requires i < |s|
    ensures [s[i]] + s[i + 1..] == s[i..]
  {
  }

  /**
   * As written, `pack_sequence_as(s, flatten(s)) == s` holds when every dict
   * of `s` already iterates in sorted-key order.
   */
  lemma PackOfFlattenWhenSorted<T>(s: Struct<T>)
    requires SortedDicts(s)
    ensures PackSequenceAs(s, Flatten(s)) == Ok(s)
  {
    FlattenIsLeavesWhenSorted(s);
    WalkOwnLeaves(s, []);
    assert Leaves(s) + [] == Leaves(s);
  }

  /**
   * ... and fails otherwise: with keys inserted as "b", "a", `flatten` lists
   * the value of "a" first and `pack_sequence_as` hands it to "b".
   */
  lemma PackOfFlattenSwapsUnsortedKeys()
    ensures Flatten(Dict([Entry("b", Leaf(1)), Entry("a", Leaf(2))])) == [2, 1]
    ensures PackSequenceAs(Dict([Entry("b", Leaf(1)), Entry("a", Leaf(2))]), [2, 1])
      == Ok(Dict([Entry("b", Leaf(2)), Entry("a", Leaf(1))]))
  {
    var es := [Entry("b", Leaf(1)), Entry("a", Leaf(2))];
    assert Strings.Less("a", "b");
    assert KeyOrder(Keys(es)) == [1, 0];
    assert Walk<int, int>(Leaf(1), [2, 1]) == Some((Leaf(2), [1]));
    assert [1][1..] == [];
    assert Walk<int, int>(Leaf(2), [1]) == Some((Leaf(1), []));
    assert WalkEntries<int, int>(es, 2, []) == Some(([], []));
    assert es[1] == Entry("a", Leaf(2));
    assert [Entry("a", Leaf(1))] + [] == [Entry("a", Leaf(1))];
    assert WalkEntries<int, int>(es, 1, [1]) == Some(([Entry("a", Leaf(1))], []));
    assert [Entry("b", Leaf(2))] + [Entry("a", Leaf(1))] == [Entry("b", Leaf(2)), Entry("a", Leaf(1))];
    assert WalkEntries<int, int>(es, 0, [2, 1]) == Some(([Entry("b", Leaf(2)), Entry("a", Leaf(1))], []));
  }

  // ---------------------------------------------------------------------------
  // Corrected pack: consume the flat list in the order `flatten` produced it

  function IndexIn(ord: seq<nat>, j: nat): (r: nat)
    requires j in ord
    ensures r < |ord| && ord[r] == j
  {
    if ord[0] == j then 0 else 1 + IndexIn(ord[1..], j)
  }

  /**
   * `pack_sequence_as` walking dict values in sorted-key order, the order
   * `flatten` uses, and keeping each dict's insertion order.
   */
  function PackSorted<T, U>(ref: Struct<T>, flat: seq<U>): (r: Result<Struct<U>>)
    ensures |flat| < |Flatten(ref)| <==> r == Err(NotEnoughElementError)
    ensures |flat| > |Flatten(ref)| <==> r == Err(TypeError)
    ensures r.Ok? <==> |flat| == |Flatten(ref)|
  {
    match WalkSorted(ref, flat)
    case None => Err(NotEnoughElementError)
    case Some((res, rest)) => if |rest| != 0 then Err(TypeError) else Ok(res)
  }

  function WalkSorted<T, U>(ref: Struct<T>, flat: seq<U>): (r: Option<(Struct<U>, seq<U>)>)
    ensures r.Some? <==> |Flatten(ref)| <= |flat|
    ensures r.Some? ==> r.value.1 == flat[|Flatten(ref)|..]
  {
    match ref
    case Leaf(_) =>
      if |flat| == 0 then None else Some((Leaf(flat[0]), flat[1..]))
    case Tup(items) =>
      var w := WalkSortedItems(items, 0, flat);
      if w.None? then None else Some((Tup(w.value.0), w.value.1))
    case Lst(items) =>
      var w := WalkSortedItems(items, 0, flat);
      if w.None? then None else Some((Lst(w.value.0), w.value.1))
    case Dict(es) =>
      var ord := KeyOrder(Keys(es));
      var w := WalkSortedOrd(es, ord, 0, flat);
      if w.None? then None
      else
        var vals := w.value.0;
        Some((Dict(seq(|es|, j requires 0 <= j < |es| => Entry(es[j].key, vals[IndexIn(ord, j)]))), w.value.1))
  }

  function WalkSortedItems<T, U>(items: seq<Struct<T>>, i: nat, flat: seq<U>): (r: Option<(seq<Struct<U>>, seq<U>)>)
    requires i <= |items|
    ensures r.Some? <==> |FlattenItems(items, i)| <= |flat|
    ensures r.Some? ==> |r.value.0| == |items| - i && r.value.1 == flat[|FlattenItems(items, i)|..]
    decreases items, |items| - i
  {
    if i == |items| then Some(([], flat))
    else
      var h := WalkSorted(items[i], flat);
      if h.None? then None
      else
        var t := WalkSortedItems(items, i + 1, h.value.1);
        if t.None? then None else Some(([h.value.0] + t.value.0, t.value.1))
  }

  function WalkSortedOrd<T, U>(es: seq<Entry<T>>, ord: seq<nat>, k: nat, flat: seq<U>): (r: Option<(seq<Struct<U>>, seq<U>)>)
    requires k <= |ord|
    requires forall m :: 0 <= m < |ord| ==> ord[m] < |es|
    ensures r.Some? <==> |FlattenOrd(es, ord, k)| <= |flat|
    ensures r.Some? ==> |r.value.0| == |ord| - k && r.value.1 == flat[|FlattenOrd(es, ord, k)|..]
    decreases es, |ord| - k
  {
    if k == |ord| then Some(([], flat))
    else
      var h := WalkSorted(es[ord[k]].val, flat);
      if h.None? then None
      else
        var t := WalkSortedOrd(es, ord, k + 1, h.value.1);
        if t.None? then None else Some(([h.value.0] + t.value.0, t.value.1))
  }

  /** The corrected pack inverts `flatten` on every structure. */
  lemma PackSortedOfFlatten<T>(s: Struct<T>)
    ensures PackSorted(s, Flatten(s)) == Ok(s)
  {
    WalkSortedOwn(s, []);
    assert Flatten(s) + [] == Flatten(s);
  }

  lemma {:induction false} WalkSortedOwn<T>(s: Struct<T>, rest: seq<T>)
    ensures WalkSorted(s, Flatten(s) + rest) == Some((s, rest))
  {
    match s
    case Leaf(v) =>
      assert ([v] + rest)[1..] == rest;
    case Tup(items) =>
      WalkSortedItemsOwn(items, 0, rest);
      assert items[0..] == items;
    case Lst(items) =>
      WalkSortedItemsOwn(items, 0, rest);
      assert items[0..] == items;
    case Dict(es) =>
      var ord := KeyOrder(Keys(es));
      WalkSortedOrdOwn(es, ord, 0, rest);
      var vals := WalkSortedOrd(es, ord, 0, FlattenOrd(es, ord, 0) + rest).value.0;
      var placed := seq(|es|, j requires 0 <= j < |es| => Entry(es[j].key, vals[IndexIn(ord, j)]));
      forall j | 0 <= j < |es| ensures placed[j] == es[j] {
        var k := IndexIn(ord, j);
        assert vals[k] == es[ord[k]].val;
      }
      assert placed == es;
  }

  lemma {:induction false} WalkSortedItemsOwn<T>(items: seq<Struct<T>>, i: nat, rest: seq<T>)
    requires i <= |items|
    ensures WalkSortedItems(items, i, FlattenItems(items, i) + rest) == Some((items[i..], rest))
    decreases items, |items| - i
  {
    if i < |items| {
      var mid := FlattenItems(items, i + 1) + rest;
      FlattenItemsSplit(items, i, rest);
      WalkSortedOwn(items[i], mid);
      WalkSortedItemsOwn(items, i + 1, rest);
      WalkSortedItemsStep(items, i, FlattenItems(items, i) + rest, mid, rest);
    } else {
      assert FlattenItems(items, i) + rest == rest;
      assert items[i..] == [];
    }
  }

  lemma {:induction false} WalkSortedOrdOwn<T>(es: seq<Entry<T>>, ord: seq<nat>, k: nat, rest: seq<T>)
    requires k <= |ord|
    requires forall m :: 0 <= m < |ord| ==> ord[m] < |es|
    ensures WalkSortedOrd(es, ord, k, FlattenOrd(es, ord, k) + rest).Some?
    ensures WalkSortedOrd(es, ord, k, FlattenOrd(es, ord, k) + rest).value.1 == rest
    ensures forall m :: 0 <= m < |ord| - k ==>
      WalkSortedOrd(es, ord, k, FlattenOrd(es, ord, k) + rest).value.0[m] == es[ord[k + m]].val
    decreases es, |ord| - k
  {
    if k < |ord| {
      var hl := Flatten(es[ord[k]].val);
      var tl := FlattenOrd(es, ord, k + 1);
      var flat := FlattenOrd(es, ord, k) + rest;
      assert flat == hl + (tl + rest);
      WalkSortedOwn(es[ord[k]].val, tl + rest);
      WalkSortedOrdOwn(es, ord, k + 1, rest);
      var t := WalkSortedOrd(es, ord, k + 1, tl + rest).value.0;
      var w := WalkSortedOrd(es, ord, k, flat);
      WalkSortedOrdStep(es, ord, k, flat, tl + rest, rest);
      var vals := [es[ord[k]].val] + t;
      assert w.value.0 == vals;
      assert |t| == |ord| - (k + 1);
      ConsAligned(es, ord, k, t);
    }
  }

  /** One step of the positional walk, once the head item and the tail have been walked. */
  lemma WalkSortedItemsStep<T>(items: seq<Struct<T>>, i: nat, flat: seq<T>, mid: seq<T>, rest: seq<T>)
    requires i < |items|
    requires WalkSorted(items[i], flat) == Some((items[i], mid))
    requires WalkSortedItems(items, i + 1, mid) == Some((items[i + 1..], rest))
    ensures WalkSortedItems(items, i, flat) == Some((items[i..], rest))
  {
    ConsSlice(items, i);
  }

  /** The flattening from item `i` on is that of item `i` followed by the rest. */
  lemma FlattenItemsSplit<T>(items: seq<Struct<T>>, i: nat, rest: seq<T>)
    requires i < |items|
    ensures FlattenItems(items, i) + rest == Flatten(items[i]) + (FlattenItems(items, i + 1) + rest)
  {
    assert FlattenItems(items, i) == Flatten(items[i]) + FlattenItems(items, i + 1);
  }

  /** Prepending the value at `ord[k]` to the values aligned from `k + 1` aligns them from `k`. */
  lemma ConsAligned<T>(es: seq<Entry<T>>, ord: seq<nat>, k: nat, t: seq<Struct<T>>)
    requires k < |ord|
    requires forall m :: 0 <= m < |ord| ==> ord[m] < |es|
    requires |t| == |ord| - (k + 1)
    requires forall m :: 0 <= m < |t| ==> t[m] == es[ord[k + 1 + m]].val
    ensures forall m :: 0 <= m < |ord| - k ==> ([es[ord[k]].val] + t)[m] == es[ord[k + m]].val
  {
    forall m | 0 <= m < |ord| - k ensures ([es[ord[k]].val] + t)[m] == es[ord[k + m]].val {
      if m > 0 {
        assert ([es[ord[k]].val] + t)[m] == t[m - 1];
      }
    }
  }

  /** One step of the sorted walk, once the head value and the tail have been walked. */
  lemma WalkSortedOrdStep<T>(es: seq<Entry<T>>, ord: seq<nat>, k: nat, flat: seq<T>, mid: seq<T>, rest: seq<T>)
    requires k < |ord|
    requires forall m :: 0 <= m < |ord| ==> ord[m] < |es|
    requires WalkSorted(es[ord[k]].val, flat) == Some((es[ord[k]].val, mid))
    requires WalkSortedOrd(es, ord, k + 1, mid).Some? && WalkSortedOrd(es, ord, k + 1, mid).value.1 == rest
    ensures WalkSortedOrd(es, ord, k, flat) ==
      Some(([es[ord[k]].val] + WalkSortedOrd(es, ord, k + 1, mid).value.0, rest))
  {
  }
}
