/**
 * A stable insertion sort under a caller-supplied strict order, and the
 * fact that makes the engine's serialisations canonical: two sorted
 * arrangements of the same elements are identical when the order is total
 * on those elements.
 */
module Sorting {

  /** `s` is non-decreasing under the strict order `lt`. */
  predicate Sorted<T>(s: seq<T>, lt: (T, T) -> bool) {
    forall i, j :: 0 <= i < j < |s| ==> !lt(s[j], s[i])
  }

  /** `lt` is irreflexive and transitive on the elements of `s`. */
  ghost predicate StrictOrderOn<T>(s: seq<T>, lt: (T, T) -> bool) {
    && (forall x :: x in s ==> !lt(x, x))
    && (forall x, y, z :: x in s && y in s && z in s && lt(x, y) && lt(y, z) ==> lt(x, z))
  }

  /** Any two distinct elements of `s` are ordered one way or the other. */
  ghost predicate TotalOn<T>(s: seq<T>, lt: (T, T) -> bool) {
    forall x, y :: x in s && y in s && x != y ==> lt(x, y) || lt(y, x)
  }

  /** The order properties of `s` carry over to any `t` whose elements all occur in `s`. */
  lemma OrderOnSubset<T>(s: seq<T>, t: seq<T>, lt: (T, T) -> bool)
    requires forall y :: y in t ==> y in s
    ensures StrictOrderOn(s, lt) ==> StrictOrderOn(t, lt)
    ensures TotalOn(s, lt) ==> TotalOn(t, lt)
  {
  }

  /** Inserts `x` after every element that is not greater than it. */
  function Insert<T>(x: T, s: seq<T>, lt: (T, T) -> bool): (r: seq<T>)
    ensures multiset(r) == multiset(s) + multiset{x}
    ensures |r| == |s| + 1
  {
    if |s| == 0 then [x]
    else if lt(x, s[0]) then [x] + s
    else
      assert s == [s[0]] + s[1..];
      [s[0]] + Insert(x, s[1..], lt)
  }

  /** Stable insertion sort (later elements go after equal earlier ones). */
  function Sort<T>(s: seq<T>, lt: (T, T) -> bool): (r: seq<T>)
    ensures multiset(r) == multiset(s)
    ensures |r| == |s|
  {
    if |s| == 0 then []
    else
      assert s == s[..|s| - 1] + [s[|s| - 1]];
      Insert(s[|s| - 1], Sort(s[..|s| - 1], lt), lt)
  }

  lemma {:induction false} InsertSorted<T>(x: T, s: seq<T>, lt: (T, T) -> bool)
    requires Sorted(s, lt)
    requires StrictOrderOn(s + [x], lt)
    ensures Sorted(Insert(x, s, lt), lt)
    decreases |s|
  {
    var r := Insert(x, s, lt);
    if |s| == 0 {
    } else if lt(x, s[0]) {
      forall j | 0 < j < |r|
        ensures !lt(r[j], r[0])
      {
        assert r[j] == s[j - 1];
        assert s[0] in s + [x] && s[j - 1] in s + [x] && x in s + [x];
        if j - 1 > 0 {
          assert !lt(s[j - 1], s[0]);
        }
      }
    } else {
      var t := s[1..];
      assert StrictOrderOn(t + [x], lt) by {
        forall y | y in t + [x] ensures y in s + [x] {
          if y in t {
            assert y in s;
          }
        }
      }
      InsertSorted(x, t, lt);
      var u := Insert(x, t, lt);
      assert r == [s[0]] + u;
      forall j | 0 < j < |r|
        ensures !lt(r[j], r[0])
      {
        assert r[j] in multiset(u);
        assert r[j] in multiset(t) + multiset{x};
        if r[j] in multiset(t) {
          var k :| 0 <= k < |t| && t[k] == r[j];
          assert s[k + 1] == r[j];
        }
      }
    }
  }

  lemma {:induction false} SortSorted<T>(s: seq<T>, lt: (T, T) -> bool)
    requires StrictOrderOn(s, lt)
    ensures Sorted(Sort(s, lt), lt)
    decreases |s|
  {
    if |s| > 0 {
      var p := s[..|s| - 1];
      var x := s[|s| - 1];
      assert s == p + [x];
      assert StrictOrderOn(p, lt) by {
        forall y | y in p ensures y in s {
        }
      }
      SortSorted(p, lt);
      var q := Sort(p, lt);
      assert StrictOrderOn(q + [x], lt) by {
        forall y | y in q + [x] ensures y in s {
          if y in q {
            assert y in multiset(p);
          }
        }
      }
      InsertSorted(x, q, lt);
    }
  }

  /**
   * Two sorted sequences holding the same elements coincide when `lt` is a
   * strict total order on those elements: sorting forgets the input order.
   */
  lemma {:induction false} SortedUnique<T>(a: seq<T>, b: seq<T>, lt: (T, T) -> bool)
    requires Sorted(a, lt) && Sorted(b, lt)
    requires multiset(a) == multiset(b)
    requires StrictOrderOn(a, lt) && TotalOn(a, lt)
    ensures a == b
    decreases |a|
  {
    assert |a| == |multiset(a)| == |b|;
    if |a| > 0 {
      SortedHeadsEqual(a, b, lt);
      TailsSameElements(a, b);
      OrderOnSubset(a, a[1..], lt);
      SortedUnique(a[1..], b[1..], lt);
    }
  }

  /** Two sorted arrangements of the same elements start with the same element. */
  lemma SortedHeadsEqual<T>(a: seq<T>, b: seq<T>, lt: (T, T) -> bool)
    requires Sorted(a, lt) && Sorted(b, lt)
    requires multiset(a) == multiset(b) && |a| > 0 && |b| > 0
    requires StrictOrderOn(a, lt) && TotalOn(a, lt)
    ensures a[0] == b[0]
  {
    assert a[0] in multiset(b);
    assert b[0] in multiset(a);
    var j :| 0 <= j < |b| && b[j] == a[0];
    var i :| 0 <= i < |a| && a[i] == b[0];
    assert a[0] in a && b[0] in a;
    assert j == 0 || !lt(a[0], b[0]);
    assert i == 0 || !lt(b[0], a[0]);
  }

  /** Removing equal heads leaves tails with the same elements. */
  lemma TailsSameElements<T>(a: seq<T>, b: seq<T>)
    requires multiset(a) == multiset(b) && |a| > 0 && |b| > 0 && a[0] == b[0]
    ensures multiset(a[1..]) == multiset(b[1..])
  {
    assert a == [a[0]] + a[1..];
    assert b == [b[0]] + b[1..];
    var h := multiset{a[0]};
    assert multiset(a) == h + multiset(a[1..]);
    assert multiset(b) == h + multiset(b[1..]);
    assert multiset(a[1..]) == multiset(a) - h;
    assert multiset(b[1..]) == multiset(b) - h;
  }

  /** Sorting is insensitive to the order of its input. */
  lemma SortPermutationInvariant<T>(s: seq<T>, t: seq<T>, lt: (T, T) -> bool)
    requires multiset(s) == multiset(t)
    requires StrictOrderOn(s, lt) && TotalOn(s, lt)
    ensures Sort(s, lt) == Sort(t, lt)
  {
    assert forall y :: y in t <==> y in s by {
      forall y ensures y in t <==> y in s {
        assert y in t <==> y in multiset(t);
        assert y in s <==> y in multiset(s);
      }
    }
    OrderOnSubset(s, t, lt);
    SortSorted(s, lt);
    SortSorted(t, lt);
    var a := Sort(s, lt);
    assert forall y :: y in a ==> y in s by {
      forall y | y in a ensures y in s {
        assert y in multiset(a);
      }
    }
    OrderOnSubset(s, a, lt);
    SortedUnique(a, Sort(t, lt), lt);
  }

  /** `[f(x) for x in xs]`. */
  function MapSeq<T, U>(f: T -> U, xs: seq<T>): (r: seq<U>)
    ensures |r| == |xs|
    ensures forall i :: 0 <= i < |xs| ==> r[i] == f(xs[i])
  {
    seq(|xs|, i requires 0 <= i < |xs| => f(xs[i]))
  }

  lemma MapConcat<T, U>(f: T -> U, a: seq<T>, b: seq<T>)
    ensures MapSeq(f, a + b) == MapSeq(f, a) + MapSeq(f, b)
  {
  }

  /** Removing the same element from two arrangements leaves two arrangements. */
  lemma RemoveFromPermutation<T>(xs: seq<T>, ys: seq<T>, j: nat)
    requires multiset(xs) == multiset(ys)
    requires |xs| > 0 && j < |ys| && ys[j] == xs[0]
    ensures multiset(xs[1..]) == multiset(ys[..j] + ys[j + 1..])
  {
    assert xs == [xs[0]] + xs[1..];
    assert ys == ys[..j] + [ys[j]] + ys[j + 1..];
    var rest := ys[..j] + ys[j + 1..];
    assert multiset(ys) == multiset(ys[..j]) + multiset{xs[0]} + multiset(ys[j + 1..]);
    assert multiset(rest) == multiset(ys[..j]) + multiset(ys[j + 1..]);
    assert multiset(rest) == multiset(ys) - multiset{xs[0]};
    assert multiset(xs) == multiset{xs[0]} + multiset(xs[1..]);
    assert multiset(xs[1..]) == multiset(xs) - multiset{xs[0]};
  }

  /** The image of `ys` is the image of `ys` without position `j`, plus the image of `ys[j]`. */
  lemma MapWithout<T, U>(f: T -> U, ys: seq<T>, j: nat)
    requires j < |ys|
    ensures multiset(MapSeq(f, ys)) == multiset(MapSeq(f, ys[..j] + ys[j + 1..])) + multiset{f(ys[j])}
  {
    var ma, mb := MapSeq(f, ys[..j]), MapSeq(f, ys[j + 1..]);
    assert MapSeq(f, ys) == ma + [f(ys[j])] + mb by {
      assert ys == ys[..j] + [ys[j]] + ys[j + 1..];
      MapConcat(f, ys[..j] + [ys[j]], ys[j + 1..]);
      MapConcat(f, ys[..j], [ys[j]]);
    }
    MapConcat(f, ys[..j], ys[j + 1..]);
    assert multiset(ma + [f(ys[j])] + mb) == multiset(ma) + multiset{f(ys[j])} + multiset(mb);
  }

  lemma MapPermutationStep<T, U>(xs: seq<T>, ys: seq<T>, j: nat, f: T -> U)
    requires |xs| > 0 && j < |ys| && ys[j] == xs[0]
    requires multiset(MapSeq(f, xs[1..])) == multiset(MapSeq(f, ys[..j] + ys[j + 1..]))
    ensures multiset(MapSeq(f, xs)) == multiset(MapSeq(f, ys))
  {
    MapWithout(f, ys, j);
    MapHead(f, xs);
  }

  lemma MapHead<T, U>(f: T -> U, xs: seq<T>)
    requires |xs| > 0
    ensures multiset(MapSeq(f, xs)) == multiset{f(xs[0])} + multiset(MapSeq(f, xs[1..]))
  {
    assert MapSeq(f, xs) == [f(xs[0])] + MapSeq(f, xs[1..]);
  }

  /** Mapping two arrangements of the same elements gives two arrangements of the same images. */
  lemma {:induction false} MapPermutation<T, U>(xs: seq<T>, ys: seq<T>, f: T -> U)
    requires multiset(xs) == multiset(ys)
    ensures multiset(MapSeq(f, xs)) == multiset(MapSeq(f, ys))
    decreases |xs|
  {
    if |xs| == 0 {
      assert |ys| == |multiset(ys)| == 0;
    } else {
      assert xs[0] in multiset(ys);
      var j :| 0 <= j < |ys| && ys[j] == xs[0];
      RemoveFromPermutation(xs, ys, j);
      MapPermutation(xs[1..], ys[..j] + ys[j + 1..], f);
      MapPermutationStep(xs, ys, j, f);
    }
  }

  /** Every element of a rearrangement of `xs` sits at some position of `xs`. */
  lemma MembersOfPermutation<T>(xs: seq<T>, ys: seq<T>)
    requires multiset(ys) == multiset(xs)
    ensures forall m :: 0 <= m < |ys| ==> ys[m] in xs
  {
    forall m | 0 <= m < |ys| ensures ys[m] in xs {
      assert ys[m] in multiset(xs);
    }
  }
}
