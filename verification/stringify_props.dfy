/**
 * What `stringify` promises its callers: the text of a set or dict does not
 * depend on iteration order, tuples and lists differ only in their
 * brackets, and two keys Python cannot order raise `TypeError` when the
 * sort has to compare them.
 */
module StringifyProps {
  import opened Wrappers
  import Sorting
  import opened MemoValues
  import opened Stringify

  /** No two elements are equal in Python's sense, as in a real set. */
  predicate DistinctElems(xs: seq<Val>) {
    forall i, j :: 0 <= i < j < |xs| ==> !KeyEq(xs[i], xs[j])
  }

  /** No two keys are equal in Python's sense, as in a real dict. */
  predicate DistinctKeys(es: seq<KV>) {
    forall i, j :: 0 <= i < j < |es| ==> !KeyEq(es[i].k, es[j].k)
  }

  /** A tuple and a list of the same items render alike inside different brackets. */
  lemma TupleListBrackets(d: Dialect, env: Env, xs: seq<Val>, fuel: nat)
    ensures Render(d, env, VTuple(xs), fuel).Ok? <==> Render(d, env, VList(xs), fuel).Ok?
    ensures Render(d, env, VTuple(xs), fuel).Ok? ==>
      var t, l := Render(d, env, VTuple(xs), fuel).value, Render(d, env, VList(xs), fuel).value;
      |t| == |l| >= 2 && t[0] == '(' && l[0] == '[' && t[1..|t| - 1] == l[1..|l| - 1]
  {
  }

  // ---------------------------------------------------------------------------
  // The rendering after sorting depends only on the sorted entries

  lemma {:induction false} SortedElemsAnyParent(d: Dialect, env: Env, p: Val, q: Val, sorted: seq<Val>, i: nat, fuel: nat)
    requires p.VSet? && q.VSet? && i <= |sorted|
    requires forall m :: 0 <= m < |sorted| ==> sorted[m] in p.elems && sorted[m] in q.elems
    ensures RenderSortedElems(d, env, p, sorted, i, fuel) == RenderSortedElems(d, env, q, sorted, i, fuel)
    decreases |sorted| - i
  {
    if i < |sorted| {
      SortedElemsAnyParent(d, env, p, q, sorted, i + 1, fuel);
    }
  }

  lemma {:induction false} SortedEntriesAnyParent(d: Dialect, env: Env, p: Val, q: Val, sorted: seq<KV>, i: nat, fuel: nat)
    requires p.VDict? && q.VDict? && i <= |sorted|
    requires forall m :: 0 <= m < |sorted| ==> sorted[m] in p.entries && sorted[m] in q.entries
    ensures RenderSortedEntries(d, env, p, sorted, i, fuel) == RenderSortedEntries(d, env, q, sorted, i, fuel)
    decreases |sorted| - i
  {
    if i < |sorted| {
      SortedEntriesAnyParent(d, env, p, q, sorted, i + 1, fuel);
    }
  }

  lemma {:induction false} TextEntriesAnyParent(d: Dialect, env: Env, p: Val, q: Val, sorted: seq<(string, KV)>, i: nat, fuel: nat)
    requires p.VDict? && q.VDict? && i <= |sorted|
    requires forall m :: 0 <= m < |sorted| ==> sorted[m].1 in p.entries && sorted[m].1 in q.entries
    ensures RenderTextEntries(d, env, p, sorted, i, fuel) == RenderTextEntries(d, env, q, sorted, i, fuel)
    decreases |sorted| - i
  {
    if i < |sorted| {
      TextEntriesAnyParent(d, env, p, q, sorted, i + 1, fuel);
    }
  }

  // ---------------------------------------------------------------------------
  // Rendering the keys first (`memo.py`)

  function TextOf(d: Dialect, env: Env, x: Val, fuel: nat): string {
    match Render(d, env, x, fuel)
    case Ok(t) => t
    case Err(_) => ""
  }

  function Tag(d: Dialect, env: Env, fuel: nat): Val -> (string, Val) {
    (x: Val) => (TextOf(d, env, x, fuel), x)
  }

  function TagEntry(d: Dialect, env: Env, fuel: nat): KV -> (string, KV) {
    (e: KV) => (TextOf(d, env, e.k, fuel), e)
  }

  /** `_stringify_keys` succeeds iff every element renders, and pairs each with its text. */
  lemma {:induction false} KeyTextsSpec(d: Dialect, env: Env, xs: seq<Val>, i: nat, fuel: nat)
    requires i <= |xs|
    ensures KeyTexts(d, env, xs, i, fuel).Ok? <==> forall m :: i <= m < |xs| ==> Render(d, env, xs[m], fuel).Ok?
    ensures KeyTexts(d, env, xs, i, fuel).Ok? ==> KeyTexts(d, env, xs, i, fuel).value == Sorting.MapSeq(Tag(d, env, fuel), xs[i..])
    decreases |xs| - i
  {
    if i < |xs| {
      KeyTextsSpec(d, env, xs, i + 1, fuel);
      var r := KeyTexts(d, env, xs, i, fuel);
      if r.Ok? {
        assert r.value == [(TextOf(d, env, xs[i], fuel), xs[i])] + KeyTexts(d, env, xs, i + 1, fuel).value;
        assert xs[i..] == [xs[i]] + xs[i + 1..];
      }
    }
  }

  /** One step of `EntryKeyTexts`: the first key's text, then the rest. */
  lemma EntryKeyTextsUnfold(d: Dialect, env: Env, p: Val, i: nat, fuel: nat)
    requires p.VDict? && i < |p.entries|
    ensures var h := Render(d, env, p.entries[i].k, fuel); var t := EntryKeyTexts(d, env, p, i + 1, fuel);
      && (EntryKeyTexts(d, env, p, i, fuel).Ok? <==> h.Ok? && t.Ok?)
      && (h.Ok? && t.Ok? ==> EntryKeyTexts(d, env, p, i, fuel).value == [(TextOf(d, env, p.entries[i].k, fuel), p.entries[i])] + t.value)
  {
  }

  lemma {:induction false} EntryKeyTextsSpec(d: Dialect, env: Env, p: Val, i: nat, fuel: nat)
    requires p.VDict? && i <= |p.entries|
    ensures EntryKeyTexts(d, env, p, i, fuel).Ok? <==> forall m :: i <= m < |p.entries| ==> Render(d, env, p.entries[m].k, fuel).Ok?
    ensures EntryKeyTexts(d, env, p, i, fuel).Ok? ==>
      EntryKeyTexts(d, env, p, i, fuel).value == Sorting.MapSeq(TagEntry(d, env, fuel), p.entries[i..])
    decreases |p.entries| - i
  {
    if i < |p.entries| {
      EntryKeyTextsSpec(d, env, p, i + 1, fuel);
      EntryKeyTextsUnfold(d, env, p, i, fuel);
      var r := EntryKeyTexts(d, env, p, i, fuel);
      if r.Ok? {
        var e := p.entries[i];
        assert p.entries[i..] == [e] + p.entries[i + 1..];
      }
    }
  }

  /** A property of every element is a property of every element of a rearrangement. */
  lemma AllOfPermutation(d: Dialect, env: Env, xs: seq<Val>, ys: seq<Val>, fuel: nat)
    requires multiset(xs) == multiset(ys)
    requires forall m :: 0 <= m < |xs| ==> Render(d, env, xs[m], fuel).Ok?
    ensures forall m :: 0 <= m < |ys| ==> Render(d, env, ys[m], fuel).Ok?
  {
    Sorting.MembersOfPermutation(xs, ys);
  }

  lemma AllKeysOfPermutation(d: Dialect, env: Env, es: seq<KV>, fs: seq<KV>, fuel: nat)
    requires multiset(es) == multiset(fs)
    requires forall m :: 0 <= m < |es| ==> Render(d, env, es[m].k, fuel).Ok?
    ensures forall m :: 0 <= m < |fs| ==> Render(d, env, fs[m].k, fuel).Ok?
  {
    Sorting.MembersOfPermutation(es, fs);
  }

  // ---------------------------------------------------------------------------
  // Order independence

  lemma SetOrderIrrelevantLegacy(env: Env, xs: seq<Val>, ys: seq<Val>, fuel: nat)
    requires multiset(xs) == multiset(ys)
    requires DistinctElems(xs) && DistinctElems(ys)
    ensures Render(Legacy, env, VSet(xs), fuel) == Render(Legacy, env, VSet(ys), fuel)
      || (Render(Legacy, env, VSet(xs), fuel).Err? && Render(Legacy, env, VSet(ys), fuel).Err?)
  {
    var d := Legacy;
    KeyTextsSpec(d, env, xs, 0, fuel);
    KeyTextsSpec(d, env, ys, 0, fuel);
    assert xs[0..] == xs && ys[0..] == ys;
    var kx, ky := KeyTexts(d, env, xs, 0, fuel), KeyTexts(d, env, ys, 0, fuel);
    if kx.Ok? {
      AllOfPermutation(d, env, xs, ys, fuel);
    }
    if ky.Ok? {
      AllOfPermutation(d, env, ys, xs, fuel);
    }
    if kx.Ok? {
      var a, b := kx.value, ky.value;
      Sorting.MapPermutation(xs, ys, Tag(d, env, fuel));
      StringLessStrictTotal();
      var pk, val := ElemText, ElemVal;
      assert DistinctOn(a, pk, val);
      assert DistinctOn(b, pk, val);
      SortWithPermutation(a, b, pk, TextLess(), val);
    }
  }

  lemma SetOrderIrrelevantSorted(d: Dialect, env: Env, xs: seq<Val>, ys: seq<Val>, fuel: nat)
    requires d != Legacy
    requires multiset(xs) == multiset(ys)
    requires DistinctElems(xs) && DistinctElems(ys)
    ensures Render(d, env, VSet(xs), fuel) == Render(d, env, VSet(ys), fuel)
  {
    if d == Hashed {
      SortWithPermutation(xs, ys, env.hash, IntLess(), Ident);
    } else {
      SortWithPermutation(xs, ys, NoKey, IntLess(), Ident);
    }
    var s := SortVals(d, env, xs);
    if s.Ok? {
      Sorting.MembersOfPermutation(xs, s.value);
      Sorting.MembersOfPermutation(ys, s.value);
      SortedElemsAnyParent(d, env, VSet(xs), VSet(ys), s.value, 0, fuel);
    }
  }

  /** A set's text does not depend on its iteration order. */
  lemma SetOrderIrrelevant(d: Dialect, env: Env, xs: seq<Val>, ys: seq<Val>, fuel: nat)
    requires multiset(xs) == multiset(ys)
    requires DistinctElems(xs) && DistinctElems(ys)
    ensures Render(d, env, VSet(xs), fuel).Ok? <==> Render(d, env, VSet(ys), fuel).Ok?
    ensures Render(d, env, VSet(xs), fuel).Ok? ==> Render(d, env, VSet(xs), fuel) == Render(d, env, VSet(ys), fuel)
  {
    if d == Legacy {
      SetOrderIrrelevantLegacy(env, xs, ys, fuel);
    } else {
      SetOrderIrrelevantSorted(d, env, xs, ys, fuel);
    }
  }

  lemma DictOrderIrrelevantLegacy(env: Env, es: seq<KV>, fs: seq<KV>, fuel: nat)
    requires multiset(es) == multiset(fs)
    requires DistinctKeys(es) && DistinctKeys(fs)
    ensures Render(Legacy, env, VDict(es), fuel) == Render(Legacy, env, VDict(fs), fuel)
      || (Render(Legacy, env, VDict(es), fuel).Err? && Render(Legacy, env, VDict(fs), fuel).Err?)
  {
    var d, p, q := Legacy, VDict(es), VDict(fs);
    EntryKeyTextsSpec(d, env, p, 0, fuel);
    EntryKeyTextsSpec(d, env, q, 0, fuel);
    assert es[0..] == es && fs[0..] == fs;
    var kx, ky := EntryKeyTexts(d, env, p, 0, fuel), EntryKeyTexts(d, env, q, 0, fuel);
    if kx.Ok? {
      AllKeysOfPermutation(d, env, es, fs, fuel);
    }
    if ky.Ok? {
      AllKeysOfPermutation(d, env, fs, es, fuel);
    }
    if kx.Ok? {
      var a, b := kx.value, ky.value;
      var pk, val := EntryText, EntryKeyVal;
      SortedTextsAgree(env, p, q, a, b, fuel);
    }
  }

  lemma SortedTextsAgree(env: Env, p: Val, q: Val, a: seq<(string, KV)>, b: seq<(string, KV)>, fuel: nat)
    requires p.VDict? && q.VDict? && multiset(p.entries) == multiset(q.entries)
    requires DistinctKeys(p.entries) && DistinctKeys(q.entries)
    requires a == Sorting.MapSeq(TagEntry(Legacy, env, fuel), p.entries)
    requires b == Sorting.MapSeq(TagEntry(Legacy, env, fuel), q.entries)
    ensures
      var s := SortWith(a, EntryText, TextLess(), EntryKeyVal);
      s == SortWith(b, EntryText, TextLess(), EntryKeyVal)
      && (s.Ok? ==>
        (forall m :: 0 <= m < |s.value| ==> s.value[m].1 in p.entries && s.value[m].1 in q.entries)
        && RenderTextEntries(Legacy, env, p, s.value, 0, fuel) == RenderTextEntries(Legacy, env, q, s.value, 0, fuel))
  {
    var pk, val := EntryText, EntryKeyVal;
    Sorting.MapPermutation(p.entries, q.entries, TagEntry(Legacy, env, fuel));
    StringLessStrictTotal();
    assert DistinctOn(a, pk, val);
    assert DistinctOn(b, pk, val);
    SortWithPermutation(a, b, pk, TextLess(), val);
    var s := SortWith(a, pk, TextLess(), val);
    if s.Ok? {
      Sorting.MembersOfPermutation(a, s.value);
      Sorting.MembersOfPermutation(b, s.value);
      TextEntriesAnyParent(Legacy, env, p, q, s.value, 0, fuel);
    }
  }

  lemma DictOrderIrrelevantSorted(d: Dialect, env: Env, es: seq<KV>, fs: seq<KV>, fuel: nat)
    requires d != Legacy
    requires multiset(es) == multiset(fs)
    requires DistinctKeys(es) && DistinctKeys(fs)
    ensures Render(d, env, VDict(es), fuel) == Render(d, env, VDict(fs), fuel)
  {
    if d == Hashed {
      SortWithPermutation(es, fs, HashOfKey(env), IntLess(), KeyOf);
    } else {
      SortWithPermutation(es, fs, NoEntryKey, IntLess(), KeyOf);
    }
    var s := SortEntries(d, env, es);
    if s.Ok? {
      Sorting.MembersOfPermutation(es, s.value);
      Sorting.MembersOfPermutation(fs, s.value);
      SortedEntriesAnyParent(d, env, VDict(es), VDict(fs), s.value, 0, fuel);
    }
  }

  /** A dict's text does not depend on its insertion order. */
  lemma DictOrderIrrelevant(d: Dialect, env: Env, es: seq<KV>, fs: seq<KV>, fuel: nat)
    requires multiset(es) == multiset(fs)
    requires DistinctKeys(es) && DistinctKeys(fs)
    ensures Render(d, env, VDict(es), fuel).Ok? <==> Render(d, env, VDict(fs), fuel).Ok?
    ensures Render(d, env, VDict(es), fuel).Ok? ==> Render(d, env, VDict(es), fuel) == Render(d, env, VDict(fs), fuel)
  {
    if d == Legacy {
      DictOrderIrrelevantLegacy(env, es, fs, fuel);
    } else {
      DictOrderIrrelevantSorted(d, env, es, fs, fuel);
    }
  }

  // ---------------------------------------------------------------------------
  // Unorderable keys

  lemma LegacyTieRaises(env: Env, es: seq<KV>, i: nat, j: nat, fuel: nat)
    requires i < |es| && j < |es| && i != j
    requires !Comparable(es[i].k, es[j].k)
    requires forall m :: 0 <= m < |es| ==> Render(Legacy, env, es[m].k, fuel).Ok?
    requires Render(Legacy, env, es[i].k, fuel) == Render(Legacy, env, es[j].k, fuel)
    ensures RenderDict(Legacy, env, VDict(es), fuel) == Err(TypeError)
  {
    var p := VDict(es);
    EntryKeyTextsSpec(Legacy, env, p, 0, fuel);
    assert es[0..] == es;
    var keyed := EntryKeyTexts(Legacy, env, p, 0, fuel);
    assert keyed.Ok?;
    var a := keyed.value;
    assert a[i] == (TextOf(Legacy, env, es[i].k, fuel), es[i]);
    assert a[j] == (TextOf(Legacy, env, es[j].k, fuel), es[j]);
    assert EntryText(a[i]) == EntryText(a[j]) && !Comparable(EntryKeyVal(a[i]), EntryKeyVal(a[j]));
    assert BadTie(a, EntryText, EntryKeyVal);
    var sorted := SortWith(a, EntryText, TextLess(), EntryKeyVal);
    assert sorted == Err(TypeError);
    assert RenderDict(Legacy, env, p, fuel) == Err(TypeError);
    DictErrors(Legacy, env, es, fuel);
  }

  lemma DictErrors(d: Dialect, env: Env, es: seq<KV>, fuel: nat)
    ensures RenderDict(d, env, VDict(es), fuel).Err? ==> Render(d, env, VDict(es), fuel) == RenderDict(d, env, VDict(es), fuel)
  {
  }

  /**
   * Two keys that tie on the dialect's primary order and that Python cannot
   * compare make the dict unserialisable: by value alone (`RuleMemo`), on
   * equal hashes (`Hashed`), or on equal renderings once every key has
   * rendered (`Legacy`).
   */
  lemma IncomparableTieRaises(d: Dialect, env: Env, es: seq<KV>, i: nat, j: nat, fuel: nat)
    requires i < |es| && j < |es| && i != j
    requires !Comparable(es[i].k, es[j].k)
    requires d == Hashed ==> env.hash(es[i].k) == env.hash(es[j].k)
    requires d == Legacy ==>
      (forall m :: 0 <= m < |es| ==> Render(d, env, es[m].k, fuel).Ok?)
      && Render(d, env, es[i].k, fuel) == Render(d, env, es[j].k, fuel)
    ensures Render(d, env, VDict(es), fuel) == Err(TypeError)
  {
    DictErrors(d, env, es, fuel);
    if d == Legacy {
      LegacyTieRaises(env, es, i, j, fuel);
    } else if d == Hashed {
      var pk := HashOfKey(env);
      assert BadTie(es, pk, KeyOf) by {
        assert pk(es[i]) == pk(es[j]);
      }
    } else {
      var pk := NoEntryKey;
      assert BadTie(es, pk, KeyOf) by {
        assert pk(es[i]) == pk(es[j]);
      }
    }
  }
}
