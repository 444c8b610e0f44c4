/**
 * `stringify`: the canonical text a memo is computed from. Three
 * implementations exist and differ only in how atoms are printed and how
 * dict keys and set elements are ordered; `Dialect` says which one.
 *
 * Dict keys and set elements are sorted so that the text does not depend on
 * insertion order; a sort that has to compare two values Python cannot
 * order raises `TypeError`.
 */
module Stringify {
  import opened Wrappers
  import Strings
  import Sorting
  import opened MemoValues

  datatype Dialect =
    /** `jtcmake/memo.py`: keys ordered by their own rendering, then by value. */
    | Legacy
    /** `jtcmake/memo/str_hash_memo.py`: keys ordered by `(hash(k), k)`. */
    | Hashed
    /** `jtcmake/rule/memo/str_hash_memo.py`: keys ordered by value. */
    | RuleMemo

  /**
   * The foreign parts: `repr` of str and bytes, the caller's `default`
   * hook (`None` when it raises `TypeError`; the `RuleMemo` dialect has no
   * hook), Python's `hash`, and the shortest `repr` of the double nearest
   * to an integer, without a trailing `.0` (`floatRepr`).
   */
  datatype Env = Env(
    reprStr: string -> string,
    reprBytes: seq<bv8> -> string,
    default: nat -> Option<Val>,
    hash: Val -> int,
    floatRepr: int -> string)

  /** Every integer up to 2^53 in magnitude is a double exactly. */
  const ExactLimit: int := 0x20_0000_0000_0000

  /**
   * `float(n)` raises `OverflowError` from this magnitude on: the integers
   * that round to 2^1024 or beyond under round-half-to-even,
   * i.e. 2^1024 - 2^970.
   */
  const FloatLimit: int := 179769313486231580793728971405303415079934132710037826936173778980444968292764750946649017977587207096330286416692887910946555547851940402630657488671505820681908902000708383676273854845817711531764475730270069855571366959622842914819860834936475292719074168444365510704342711559699508093042880177904174497792

  /**
   * `str(complex(n))` for an integer `n`: `complex` converts the integer to
   * a double, so beyond 2^53 the printed real part is the double's `repr`
   * and from `FloatLimit` on the conversion raises.
   */
  function ComplexStr(env: Env, n: int): (r: Result<string>)
    ensures r.Err? <==> n <= -FloatLimit || FloatLimit <= n
    ensures r.Err? ==> r.error == OverflowError
    ensures n == 0 ==> r == Ok("0j")
    ensures 0 < n <= ExactLimit || -ExactLimit <= n < 0 ==> r == Ok("(" + Strings.IntToStr(n) + "+0j)")
    ensures r.Ok? && n != 0 ==> |r.value| >= 5 && r.value[0] == '(' && r.value[|r.value| - 4..] == "+0j)"
  {
    if n <= -FloatLimit || FloatLimit <= n then Err(OverflowError)
    else if n == 0 then Ok("0j")
    else if -ExactLimit <= n <= ExactLimit then Ok("(" + Strings.IntToStr(n) + "+0j)")
    else Ok("(" + env.floatRepr(n) + "+0j)")
  }

  /**
   * In the `RuleMemo` dialect numbers Python counts equal print alike:
   * `True` and `1`, `False` and `0` give the same text.
   */
  lemma EqualNumbersRenderAlike(env: Env, a: Atom, b: Atom, fuel: nat)
    requires (a.ABool? || a.AInt?) && (b.ABool? || b.AInt?)
    requires OrdKeyOf(VAtom(a)) == OrdKeyOf(VAtom(b))
    ensures RenderAtom(RuleMemo, env, a, fuel) == RenderAtom(RuleMemo, env, b, fuel)
    ensures a.ABool? ==> RenderAtom(RuleMemo, env, a, fuel).Ok?
  {
  }

  /** Concatenation of `p + t` over the parts. */
  function Suffixed(parts: seq<string>, t: string): string {
    if |parts| == 0 then "" else parts[0] + t + Suffixed(parts[1..], t)
  }

  function Firsts<A, B>(ps: seq<(A, B)>): (r: seq<A>)
    ensures |r| == |ps| && forall m :: 0 <= m < |ps| ==> r[m] == ps[m].0
  {
    seq(|ps|, m requires 0 <= m < |ps| => ps[m].0)
  }

  /**
   * `stringify(v)`. `fuel` bounds how many times the `default` hook may
   * replace an unsupported object; running out stands for the interpreter's
   * recursion limit.
   */
  function Render(d: Dialect, env: Env, v: Val, fuel: nat): (r: Result<string>)
    decreases fuel, v, 2
  {
    match v
    case VAtom(a) => RenderAtom(d, env, a, fuel)
    case VTuple(items) =>
      var body :- RenderItems(d, env, items, 0, fuel);
      Ok("(" + body + ")")
    case VList(items) =>
      var body :- RenderItems(d, env, items, 0, fuel);
      Ok("[" + body + "]")
    case VSet(_) =>
      var body :- RenderSet(d, env, v, fuel);
      Ok("{" + body + ")")
    case VDict(_) =>
      var body :- RenderDict(d, env, v, fuel);
      Ok("{" + body + "}")
  }

  function RenderAtom(d: Dialect, env: Env, a: Atom, fuel: nat): (r: Result<string>)
    decreases fuel, VAtom(a), 1
  {
    match a
    case ANone => Ok("None")
    case AStr(s) => Ok(env.reprStr(s))
    case ABool(b) =>
      if d == RuleMemo then ComplexStr(env, if b then 1 else 0) else Ok(if b then "True" else "False")
    case AInt(i) => if d == RuleMemo then ComplexStr(env, i) else Ok(Strings.IntToStr(i))
    case ABytes(bs) => Ok(env.reprBytes(bs))
    case APath(p) => Ok(if d == RuleMemo then p else "PathLike(" + env.reprStr(p) + ")")
    case AOther(o) =>
      if d == RuleMemo then Err(TypeError)
      else match env.default(o)
        case None => Err(TypeError)
        case Some(w) => if fuel == 0 then Err(RecursionError) else Render(d, env, w, fuel - 1)
  }

  /** Each item followed by a comma. */
  function RenderItems(d: Dialect, env: Env, items: seq<Val>, i: nat, fuel: nat): (r: Result<string>)
    requires i <= |items|
    decreases fuel, items, 1, |items| - i
  {
    if i == |items| then Ok("")
    else
      var h :- Render(d, env, items[i], fuel);
      var t :- RenderItems(d, env, items, i + 1, fuel);
      Ok(h + "," + t)
  }

  /** `_stringify_keys` on a set: each element with its rendering, in iteration order. */
  function KeyTexts(d: Dialect, env: Env, xs: seq<Val>, i: nat, fuel: nat): (r: Result<seq<(string, Val)>>)
    requires i <= |xs|
    ensures r.Ok? ==> |r.value| == |xs| - i && forall m :: 0 <= m < |r.value| ==> r.value[m].1 == xs[i + m]
    decreases fuel, xs, 1, |xs| - i
  {
    if i == |xs| then Ok([])
    else
      var h :- Render(d, env, xs[i], fuel);
      var t :- KeyTexts(d, env, xs, i + 1, fuel);
      Ok([(h, xs[i])] + t)
  }

  /** `_stringify_keys` on a dict's keys. */
  function EntryKeyTexts(d: Dialect, env: Env, parent: Val, i: nat, fuel: nat): (r: Result<seq<(string, KV)>>)
    requires parent.VDict? && i <= |parent.entries|
    ensures r.Ok? ==> |r.value| == |parent.entries| - i
    ensures r.Ok? ==> forall m :: 0 <= m < |r.value| ==> r.value[m].1 == parent.entries[i + m]
    decreases fuel, parent, 0, |parent.entries| - i
  {
    if i == |parent.entries| then Ok([])
    else
      var e := parent.entries[i];
      var h :- Render(d, env, e.k, fuel);
      var t :- EntryKeyTexts(d, env, parent, i + 1, fuel);
      Ok([(h, e)] + t)
  }

  function IntLess(): (int, int) -> bool {
    (a: int, b: int) => a < b
  }

  function TextLess(): (string, string) -> bool {
    (a: string, b: string) => Strings.Less(a, b)
  }

  // Sort keys, named so that every use denotes the same function.

  function ElemText(p: (string, Val)): string { p.0 }
  function ElemVal(p: (string, Val)): Val { p.1 }
  function EntryText(p: (string, KV)): string { p.0 }
  function EntryKeyVal(p: (string, KV)): Val { p.1.k }
  function KeyOf(e: KV): Val { e.k }
  function Ident(x: Val): Val { x }
  function NoKey(x: Val): int { 0 }
  function NoEntryKey(e: KV): int { 0 }
  function HashOfKey(env: Env): KV -> int { (e: KV) => env.hash(e.k) }

  /**
   * `sorted(xs, key=lambda x: (hash(x), x))`, or `sorted(xs)` as a constant
   * primary key.
   */
  function SortVals(d: Dialect, env: Env, xs: seq<Val>): (r: Result<seq<Val>>)
  {
    if d == Hashed then SortWith(xs, env.hash, IntLess(), Ident)
    else SortWith(xs, NoKey, IntLess(), Ident)
  }

  /** The same order on a dict's keys. */
  function SortEntries(d: Dialect, env: Env, es: seq<KV>): (r: Result<seq<KV>>)
  {
    if d == Hashed then SortWith(es, HashOfKey(env), IntLess(), KeyOf)
    else SortWith(es, NoEntryKey, IntLess(), KeyOf)
  }

  function RenderSet(d: Dialect, env: Env, parent: Val, fuel: nat): (r: Result<string>)
    requires parent.VSet?
    decreases fuel, parent, 1
  {
    if d == Legacy then
      var keyed :- KeyTexts(d, env, parent.elems, 0, fuel);
      var sorted :- SortWith(keyed, ElemText, TextLess(), ElemVal);
      Ok(Suffixed(Firsts(sorted), ","))
    else
      var sorted :- SortVals(d, env, parent.elems);
      Sorting.MembersOfPermutation(parent.elems, sorted);
      RenderSortedElems(d, env, parent, sorted, 0, fuel)
  }

  function RenderSortedElems(d: Dialect, env: Env, parent: Val, sorted: seq<Val>, i: nat, fuel: nat): (r: Result<string>)
    requires parent.VSet? && i <= |sorted|
    requires forall m :: 0 <= m < |sorted| ==> sorted[m] in parent.elems
    decreases fuel, parent, 0, |sorted| - i
  {
    if i == |sorted| then Ok("")
    else
      var h :- Render(d, env, sorted[i], fuel);
      var t :- RenderSortedElems(d, env, parent, sorted, i + 1, fuel);
      Ok(h + "," + t)
  }

  function RenderDict(d: Dialect, env: Env, parent: Val, fuel: nat): (r: Result<string>)
    requires parent.VDict?
    decreases fuel, parent, 1
  {
    if d == Legacy then
      var keyed :- EntryKeyTexts(d, env, parent, 0, fuel);
      var sorted :- SortWith(keyed, EntryText, TextLess(), EntryKeyVal);
      Sorting.MembersOfPermutation(keyed, sorted);
      RenderTextEntries(d, env, parent, sorted, 0, fuel)
    else
      var sorted :- SortEntries(d, env, parent.entries);
      Sorting.MembersOfPermutation(parent.entries, sorted);
      RenderSortedEntries(d, env, parent, sorted, 0, fuel)
  }

  /** `sk:value,` for each key already rendered as `sk`. */
  function RenderTextEntries(d: Dialect, env: Env, parent: Val, sorted: seq<(string, KV)>, i: nat, fuel: nat): (r: Result<string>)
    requires parent.VDict? && i <= |sorted|
    requires forall m :: 0 <= m < |sorted| ==> sorted[m].1 in parent.entries
    decreases fuel, parent, 0, |sorted| - i
  {
    if i == |sorted| then Ok("")
    else
      var v :- Render(d, env, sorted[i].1.v, fuel);
      var t :- RenderTextEntries(d, env, parent, sorted, i + 1, fuel);
      Ok(sorted[i].0 + ":" + v + "," + t)
  }

  /** `key:value,` for each entry. */
  function RenderSortedEntries(d: Dialect, env: Env, parent: Val, sorted: seq<KV>, i: nat, fuel: nat): (r: Result<string>)
    requires parent.VDict? && i <= |sorted|
    requires forall m :: 0 <= m < |sorted| ==> sorted[m] in parent.entries
    decreases fuel, parent, 0, |sorted| - i
  {
    if i == |sorted| then Ok("")
    else
      var k :- Render(d, env, sorted[i].k, fuel);
      var v :- Render(d, env, sorted[i].v, fuel);
      var t :- RenderSortedEntries(d, env, parent, sorted, i + 1, fuel);
      Ok(k + ":" + v + "," + t)
  }
}
