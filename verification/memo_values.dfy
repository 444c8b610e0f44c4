/**
 * Values that rule arguments are memoised from: Python atoms inside
 * tuples, lists, sets and dicts, together with the parts of Python's
 * comparison semantics that the `stringify` variants rely on when they
 * sort dict keys and set elements.
 */
module MemoValues {
  import opened Wrappers
  import Strings
  import Sorting

  /** Leaf objects. `AOther` is any object of an unsupported class, known by identity. */
  datatype Atom =
    | ANone
    | ABool(b: bool)
    | AInt(i: int)
    | AStr(s: string)
    | ABytes(bs: seq<bv8>)
    | APath(p: string)
    | AOther(obj: nat)

  /** Sets and dicts are listed in their Python iteration order. */
  datatype Val =
    | VAtom(a: Atom)
    | VTuple(items: seq<Val>)
    | VList(items: seq<Val>)
    | VSet(elems: seq<Val>)
    | VDict(entries: seq<KV>)

  datatype KV = KV(k: Val, v: Val)

  // ---------------------------------------------------------------------------
  // Python's `<` between keys

  datatype TextKind = KindStr | KindBytes | KindPath

  /**
   * What Python's `<` looks at: numbers (booleans are 0 and 1) compare by
   * value; str, bytes and paths compare lexicographically within their own
   * class; everything else is unordered.
   */
  datatype OrdKey = ONum(n: int) | OText(kind: TextKind, s: string) | ONone

  function BytesText(bs: seq<bv8>): string {
    seq(|bs|, i requires 0 <= i < |bs| => (bs[i] as int) as char)
  }

  function SepToNul(s: string): string {
    seq(|s|, i requires 0 <= i < |s| => if s[i] == '/' then '\0' else s[i])
  }

  /**
   * The components of a normalised POSIX path joined by NUL, which is below
   * every character a component can hold, so that comparing these strings
   * compares `PurePath.parts` lexicographically.
   */
  function PathText(p: string): string {
    if |p| > 0 && p[0] == '/' then
      (if |p| == 1 then "/" else "/" + "\0" + SepToNul(p[1..]))
    else SepToNul(p)
  }

  function OrdKeyOf(v: Val): OrdKey {
    match v
    case VAtom(ABool(b)) => ONum(if b then 1 else 0)
    case VAtom(AInt(i)) => ONum(i)
    case VAtom(AStr(s)) => OText(KindStr, s)
    case VAtom(ABytes(bs)) => OText(KindBytes, BytesText(bs))
    case VAtom(APath(p)) => OText(KindPath, PathText(p))
    case _ => ONone
  }

  /** `a < b` does not raise. */
  predicate Comparable(a: Val, b: Val) {
    match (OrdKeyOf(a), OrdKeyOf(b))
    case (ONum(_), ONum(_)) => true
    case (OText(k1, _), OText(k2, _)) => k1 == k2
    case _ => false
  }

  /** `a < b` for comparable values. */
  predicate NatLess(a: Val, b: Val) {
    match (OrdKeyOf(a), OrdKeyOf(b))
    case (ONum(m), ONum(n)) => m < n
    case (OText(k1, s1), OText(k2, s2)) => k1 == k2 && Strings.Less(s1, s2)
    case _ => false
  }

  /** Python equality as far as dict keys and set elements are concerned. */
  predicate KeyEq(a: Val, b: Val) {
    a == b || (Comparable(a, b) && OrdKeyOf(a) == OrdKeyOf(b))
  }

  lemma NatLessIrreflexive(a: Val)
    ensures !NatLess(a, a)
  {
    if OrdKeyOf(a).OText? {
      Strings.LessIrreflexive(OrdKeyOf(a).s);
    }
  }

  lemma NatLessTransitive(a: Val, b: Val, c: Val)
    requires NatLess(a, b) && NatLess(b, c)
    ensures NatLess(a, c)
  {
    if OrdKeyOf(a).OText? {
      Strings.LessTransitive(OrdKeyOf(a).s, OrdKeyOf(b).s, OrdKeyOf(c).s);
    }
  }

  lemma NatLessTotal(a: Val, b: Val)
    requires Comparable(a, b) && !KeyEq(a, b)
    ensures NatLess(a, b) || NatLess(b, a)
  {
    if OrdKeyOf(a).OText? {
      Strings.LessTotal(OrdKeyOf(a).s, OrdKeyOf(b).s);
    }
  }

  // ---------------------------------------------------------------------------
  // Sorting on `(primary key, value)` as Python's `sort` does

  /** Tuple comparison of `(pk(a), val(a))` against `(pk(b), val(b))`. */
  function PairLess<E, P(==)>(pk: E -> P, pless: (P, P) -> bool, val: E -> Val): (E, E) -> bool {
    (a: E, b: E) => pless(pk(a), pk(b)) || (pk(a) == pk(b) && NatLess(val(a), val(b)))
  }

  /** Two entries tie on the primary key and their values cannot be compared. */
  predicate BadTie<E, P(==)>(xs: seq<E>, pk: E -> P, val: E -> Val) {
    exists i, j :: 0 <= i < |xs| && 0 <= j < |xs| && i != j
      && pk(xs[i]) == pk(xs[j]) && !Comparable(val(xs[i]), val(xs[j]))
  }

  /**
   * `sorted(xs, key=...)` on `(pk(x), val(x))`: a sort must compare every
   * pair that ends up adjacent, so it raises `TypeError` exactly when two
   * entries tie on `pk` and cannot be compared by value.
   */
  function SortWith<E, P(==)>(xs: seq<E>, pk: E -> P, pless: (P, P) -> bool, val: E -> Val): (r: Result<seq<E>>)
    ensures r.Err? <==> BadTie(xs, pk, val)
    ensures r.Err? ==> r.error == TypeError
    ensures r.Ok? ==> multiset(r.value) == multiset(xs)
  {
    if BadTie(xs, pk, val) then Err(TypeError) else Ok(Sorting.Sort(xs, PairLess(pk, pless, val)))
  }

  /** `pless` is a strict total order. */
  ghost predicate StrictTotal<P(!new)>(pless: (P, P) -> bool) {
    && (forall p :: !pless(p, p))
    && (forall p, q, r :: pless(p, q) && pless(q, r) ==> pless(p, r))
    && (forall p, q :: p != q ==> pless(p, q) || pless(q, p))
  }

  /** Entries are pairwise different keys, as in a Python dict or set. */
  predicate DistinctOn<E, P(==)>(xs: seq<E>, pk: E -> P, val: E -> Val) {
    forall i, j :: 0 <= i < j < |xs| ==> !(pk(xs[i]) == pk(xs[j]) && KeyEq(val(xs[i]), val(xs[j])))
  }

  lemma PairLessOrder<E, P(!new)>(xs: seq<E>, pk: E -> P, pless: (P, P) -> bool, val: E -> Val)
    requires StrictTotal(pless)
    requires DistinctOn(xs, pk, val) && !BadTie(xs, pk, val)
    ensures Sorting.StrictOrderOn(xs, PairLess(pk, pless, val))
    ensures Sorting.TotalOn(xs, PairLess(pk, pless, val))
  {
    var lt := PairLess(pk, pless, val);
    forall a | a in xs ensures !lt(a, a) {
      NatLessIrreflexive(val(a));
    }
    forall a, b, c | a in xs && b in xs && c in xs && lt(a, b) && lt(b, c) ensures lt(a, c) {
      if pk(a) == pk(b) && pk(b) == pk(c) {
        NatLessTransitive(val(a), val(b), val(c));
      }
    }
    forall a, b | a in xs && b in xs && a != b ensures lt(a, b) || lt(b, a) {
      var i :| 0 <= i < |xs| && xs[i] == a;
      var j :| 0 <= j < |xs| && xs[j] == b;
      assert i != j;
      if pk(a) == pk(b) {
        if i < j {
          assert !KeyEq(val(a), val(b));
        } else {
          assert !KeyEq(val(b), val(a));
        }
        assert Comparable(val(a), val(b));
        NatLessTotal(val(a), val(b));
      }
    }
  }

  lemma BadTiePermutation<E, P>(xs: seq<E>, ys: seq<E>, pk: E -> P, val: E -> Val)
    requires multiset(xs) == multiset(ys)
    requires DistinctOn(xs, pk, val) && DistinctOn(ys, pk, val)
    requires BadTie(xs, pk, val)
    ensures BadTie(ys, pk, val)
  {
    var i, j :| 0 <= i < |xs| && 0 <= j < |xs| && i != j
      && pk(xs[i]) == pk(xs[j]) && !Comparable(val(xs[i]), val(xs[j]));
    var a, b := xs[i], xs[j];
    assert a != b by {
      if a == b {
        if i < j {
          assert KeyEq(val(xs[i]), val(xs[j]));
        } else {
          assert KeyEq(val(xs[j]), val(xs[i]));
        }
      }
    }
    assert a in multiset(ys) && b in multiset(ys);
    var i' :| 0 <= i' < |ys| && ys[i'] == a;
    var j' :| 0 <= j' < |ys| && ys[j'] == b;
  }

  /**
   * Sorting forgets the input order: two arrangements of the same distinct
   * entries give the same result, or both raise.
   */
  lemma SortWithPermutation<E, P(!new)>(xs: seq<E>, ys: seq<E>, pk: E -> P, pless: (P, P) -> bool, val: E -> Val)
    requires multiset(xs) == multiset(ys)
    requires DistinctOn(xs, pk, val) && DistinctOn(ys, pk, val)
    requires StrictTotal(pless)
    ensures SortWith(xs, pk, pless, val) == SortWith(ys, pk, pless, val)
  {
    if BadTie(xs, pk, val) {
      BadTiePermutation(xs, ys, pk, val);
    } else if BadTie(ys, pk, val) {
      BadTiePermutation(ys, xs, pk, val);
    } else {
      PairLessOrder(xs, pk, pless, val);
      Sorting.SortPermutationInvariant(xs, ys, PairLess(pk, pless, val));
    }
  }

  lemma StringLessStrictTotal()
    ensures StrictTotal((a: string, b: string) => Strings.Less(a, b))
  {
    forall p: string ensures !Strings.Less(p, p) {
      Strings.LessIrreflexive(p);
    }
    forall p: string, q: string, r: string | Strings.Less(p, q) && Strings.Less(q, r)
      ensures Strings.Less(p, r)
    {
      Strings.LessTransitive(p, q, r);
    }
    forall p: string, q: string | p != q ensures Strings.Less(p, q) || Strings.Less(q, p) {
      Strings.LessTotal(p, q);
    }
  }
}
