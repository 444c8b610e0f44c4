/**
 * The helpers shared by the two legacy engines (`lightmake/utils.py`;
 * `omochamake/utils.py` is the same file): nested-structure mapping,
 * flattening in insertion order, deep lookup, and the mtime staleness test.
 */
module LegacyUtils {
  import opened Wrappers
  import opened Nest
  import opened Paths
  import opened Fs
  import Sorting

  /** `map_nested`: the shape is kept and `f` touches leaves only. */
  function MapNested<T, U>(s: Struct<T>, f: T -> U): (r: Struct<U>)
    ensures Shape(r) == Shape(s)
    ensures FlattenNested(r) == Sorting.MapSeq(f, FlattenNested(s))
  {
    MapKeepsShape(f, s);
    LeavesOfMap(f, s);
    MapStructure(f, s)
  }

  /** `flatten_nested`: leaves left to right, dict values in insertion order. */
  function FlattenNested<T>(s: Struct<T>): seq<T> {
    Leaves(s)
  }

  /** When every dict's keys are already sorted, `flatten_nested` agrees with the sorted-key `flatten`. */
  lemma FlattenNestedWhenSorted<T>(s: Struct<T>)
    requires SortedDicts(s)
    ensures FlattenNested(s) == Flatten(s)
  {
    FlattenIsLeavesWhenSorted(s);
  }

  /** Because both walk insertion order, the shape and `flatten_nested` together determine the value. */
  lemma FlattenNestedLosesNothing<T>(s: Struct<T>)
    ensures PackSequenceAs(s, FlattenNested(s)) == Ok(s)
  {
    WalkOwnLeaves(s, []);
    assert Leaves(s) + [] == Leaves(s);
  }

  lemma {:induction false} LeavesOfMap<T, U>(f: T -> U, s: Struct<T>)
    ensures Leaves(MapStructure(f, s)) == Sorting.MapSeq(f, Leaves(s))
  {
    match s
    case Leaf(_) =>
    case Tup(items) =>
      LeavesItemsOfMap(f, items, seq(|items|, i requires 0 <= i < |items| => MapStructure(f, items[i])), 0);
    case Lst(items) =>
      LeavesItemsOfMap(f, items, seq(|items|, i requires 0 <= i < |items| => MapStructure(f, items[i])), 0);
    case Dict(es) =>
      LeavesEntriesOfMap(f, es, seq(|es|, j requires 0 <= j < |es| => Entry(es[j].key, MapStructure(f, es[j].val))), 0);
  }

  lemma {:induction false} LeavesItemsOfMap<T, U>(f: T -> U, items: seq<Struct<T>>, a: seq<Struct<U>>, i: nat)
    requires |a| == |items|
    requires forall m :: 0 <= m < |items| ==> a[m] == MapStructure(f, items[m])
    ensures LeavesItems(a, i) == Sorting.MapSeq(f, LeavesItems(items, i))
    decreases items, |items| - i
  {
    if i < |items| {
      LeavesOfMap(f, items[i]);
      LeavesItemsOfMap(f, items, a, i + 1);
      assert Sorting.MapSeq(f, Leaves(items[i]) + LeavesItems(items, i + 1))
        == Sorting.MapSeq(f, Leaves(items[i])) + Sorting.MapSeq(f, LeavesItems(items, i + 1));
    }
  }

  lemma {:induction false} LeavesEntriesOfMap<T, U>(f: T -> U, es: seq<Entry<T>>, a: seq<Entry<U>>, i: nat)
    requires |a| == |es|
    requires forall m :: 0 <= m < |es| ==> a[m].val == MapStructure(f, es[m].val)
    ensures LeavesEntries(a, i) == Sorting.MapSeq(f, LeavesEntries(es, i))
    decreases es, |es| - i
  {
    if i < |es| {
      LeavesOfMap(f, es[i].val);
      LeavesEntriesOfMap(f, es, a, i + 1);
      assert Sorting.MapSeq(f, Leaves(es[i].val) + LeavesEntries(es, i + 1))
        == Sorting.MapSeq(f, Leaves(es[i].val)) + Sorting.MapSeq(f, LeavesEntries(es, i + 1));
    }
  }

  /** `get_deep`: `nested[k0][k1]...`. */
  function GetDeep<T>(s: Struct<T>, ks: seq<Key>): Result<Struct<T>> {
    DeepGet(s, ks)
  }

  /** Following `a + b` is following `a`, then `b` from where `a` ended. */
  lemma {:induction false} GetDeepAppend<T>(s: Struct<T>, a: seq<Key>, b: seq<Key>)
    ensures GetDeep(s, a).Err? ==> GetDeep(s, a + b) == GetDeep(s, a)
    ensures GetDeep(s, a).Ok? ==> GetDeep(s, a + b) == GetDeep(GetDeep(s, a).value, b)
    decreases |a|
  {
    if |a| == 0 {
      assert a + b == b;
    } else {
      assert (a + b)[0] == a[0];
      assert (a + b)[1..] == a[1..] + b;
      match Index(s, a[0])
      case Err(_) =>
      case Ok(c) => GetDeepAppend(c, a[1..], b);
    }
  }

  // ---------------------------------------------------------------------------
  // should_update(dsts, srcs)

  /** The existing sources, in order (`filter(os.path.exists, srcs)`). */
  function Existing(d: Disk, srcs: seq<Path>): (r: seq<Path>)
    ensures forall p :: p in r <==> p in srcs && Exists(d, p)
  {
    if |srcs| == 0 then []
    else if Exists(d, srcs[0]) then [srcs[0]] + Existing(d, srcs[1..])
    else Existing(d, srcs[1..])
  }

  /** `max(map(getmtime, ps))`, or 0 for no paths. */
  function LatestMtime(d: Disk, ps: seq<Path>): (r: int)
    requires forall p :: p in ps ==> p in d.files
    ensures forall p :: p in ps ==> d.files[p].mtime <= r
    ensures |ps| == 0 ==> r == 0
    ensures |ps| > 0 ==> exists p :: p in ps && d.files[p].mtime == r
  {
    if |ps| == 0 then 0
    else if |ps| == 1 then d.files[ps[0]].mtime
    else
      var rest := LatestMtime(d, ps[1..]);
      var m := d.files[ps[0]].mtime;
      if m >= rest then m else rest
  }

  /** The scan over `dsts`: unreadable mtime or older than `latest`. */
  function AnyOlder(d: Disk, dsts: seq<Path>, latest: int): (r: bool)
    ensures r <==> exists i :: 0 <= i < |dsts| && (!Exists(d, dsts[i]) || d.files[dsts[i]].mtime < latest)
  {
    if |dsts| == 0 then false
    else if !Exists(d, dsts[0]) || d.files[dsts[0]].mtime < latest then true
    else
      var r := AnyOlder(d, dsts[1..], latest);
      assert r ==> exists i :: 0 <= i < |dsts| && (!Exists(d, dsts[i]) || d.files[dsts[i]].mtime < latest) by {
        if r {
          var i :| 0 <= i < |dsts[1..]| && (!Exists(d, dsts[1..][i]) || d.files[dsts[1..][i]].mtime < latest);
          assert dsts[i + 1] == dsts[1..][i];
        }
      }
      r
  }

  /**
   * `should_update(dsts, srcs)`: no outputs means up to date; missing sources
   * are ignored; stale iff some output is unreadable or strictly older than
   * the newest existing source (reference time 0 when none exists).
   */
  function ShouldUpdate(d: Disk, dsts: seq<Path>, srcs: seq<Path>): (r: bool)
  {
    if |dsts| == 0 then false
    else AnyOlder(d, dsts, LatestMtime(d, Existing(d, srcs)))
  }

  /** An output is "older" in the sense of `should_update`. */
  predicate OlderThanSources(d: Disk, dst: Path, srcs: seq<Path>)
    requires Exists(d, dst)
  {
    || (exists s :: s in srcs && Exists(d, s) && d.files[dst].mtime < d.files[s].mtime)
    || ((forall s :: s in srcs ==> !Exists(d, s)) && d.files[dst].mtime < 0)
  }

  /** `should_update` stated without the running maximum. */
  lemma ShouldUpdateSpec(d: Disk, dsts: seq<Path>, srcs: seq<Path>)
    ensures ShouldUpdate(d, dsts, srcs) <==>
      exists i :: 0 <= i < |dsts| && (!Exists(d, dsts[i]) || OlderThanSources(d, dsts[i], srcs))
  {
    if |dsts| > 0 {
      var ex := Existing(d, srcs);
      var latest := LatestMtime(d, ex);
      forall i | 0 <= i < |dsts| && Exists(d, dsts[i])
        ensures d.files[dsts[i]].mtime < latest <==> OlderThanSources(d, dsts[i], srcs)
      {
        if |ex| > 0 {
          var p :| p in ex && d.files[p].mtime == latest;
          assert p in srcs && Exists(d, p);
        }
      }
    }
  }
}
