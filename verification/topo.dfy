/**
 * The rule graph as the schedulers see it (`core/make.py`,
 * `core/make_mp.py`): rule `i`'s dependencies are `g[i]`, and
 * `_toplogical_sort` lists the closure of the requested rules in the
 * post-order of a depth-first walk.
 */
module Topo {

  /** `id2rule[i].deps`, in iteration order. */
  type Graph = seq<seq<nat>>

  /** Every dependency names a rule of the graph. */
  predicate Valid(g: Graph) {
    forall i, k :: 0 <= i < |g| && 0 <= k < |g[i]| ==> g[i][k] < |g|
  }

  /** `deps` is a set: no rule is listed twice as a dependency of the same rule. */
  predicate Simple(g: Graph) {
    forall i, k, m :: 0 <= i < |g| && 0 <= k < m < |g[i]| ==> g[i][k] != g[i][m]
  }

  /** The invariant `RuleStore.add` keeps: a rule depends only on rules added before it. */
  predicate Ordered(g: Graph) {
    forall i, k :: 0 <= i < |g| && 0 <= k < |g[i]| ==> g[i][k] < i
  }

  predicate ValidIds(g: Graph, ids: seq<nat>) {
    forall k :: 0 <= k < |ids| ==> ids[k] < |g|
  }

  /** The ids below `n`. */
  function Upto(n: nat): (r: set<nat>)
    ensures forall x: nat :: x in r <==> x < n
  {
    if n == 0 then {} else Upto(n - 1) + {n - 1}
  }

  function Ids(g: Graph): set<nat> {
    Upto(|g|)
  }

  function Elems(s: seq<nat>): set<nat> {
    set x | x in s
  }

  predicate NoDup(s: seq<nat>) {
    forall k, m :: 0 <= k < m < |s| ==> s[k] != s[m]
  }

  /** `T` holds the dependencies of each of its members. */
  predicate Closed(g: Graph, t: set<nat>) {
    forall x, k :: x in t && x < |g| && 0 <= k < |g[x]| ==> g[x][k] in t
  }

  /** Each rule of `s` comes after all of its dependencies. */
  predicate TopoOrdered(g: Graph, s: seq<nat>) {
    forall m, k :: 0 <= m < |s| && s[m] < |g| && 0 <= k < |g[s[m]]| ==> g[s[m]][k] in s[..m]
  }

  // ---------------------------------------------------------------------------
  // Counting lemmas for the termination measure

  lemma {:induction false} SubsetCard(a: set<nat>, b: set<nat>)
    requires a <= b
    ensures |a| <= |b|
    decreases |b|
  {
    if a != {} {
      var x :| x in a;
      SubsetCard(a - {x}, b - {x});
    }
  }

  lemma DiffShrinks(u: set<nat>, a: set<nat>, b: set<nat>)
    requires a <= b
    ensures |u - b| <= |u - a|
  {
    SubsetCard(u - b, u - a);
  }

  lemma DiffShrinksStrictly(u: set<nat>, a: set<nat>, x: nat)
    requires x in u && x !in a
    ensures |u - (a + {x})| < |u - a|
  {
    assert u - a == (u - (a + {x})) + {x};
  }

  // ---------------------------------------------------------------------------
  // The walk

  /** `added` and `res` of `_toplogical_sort`. */
  datatype Dfs = Dfs(added: set<nat>, res: seq<nat>)

  /** The rules entered but not yet appended: the stack of the walk. */
  function Stack(st: Dfs): set<nat> {
    st.added - Elems(st.res)
  }

  predicate Wf(g: Graph, st: Dfs) {
    && st.added <= Ids(g)
    && Elems(st.res) <= st.added
    && NoDup(st.res)
  }

  /** Every appended rule's dependencies have been entered. */
  predicate DepsEntered(g: Graph, st: Dfs) {
    forall x, k :: x in st.res && x < |g| && 0 <= k < |g[x]| ==> g[x][k] in st.added
  }

  /** What one call to `rec` keeps: nothing is removed, and what it appends was not entered before. */
  predicate Grows(st: Dfs, st': Dfs) {
    && st.added <= st'.added
    && |st.res| <= |st'.res|
    && st'.res[..|st.res|] == st.res
    && (forall k :: |st.res| <= k < |st'.res| ==> st'.res[k] !in st.added)
  }

  lemma GrowsTrans(st: Dfs, st1: Dfs, st2: Dfs)
    requires Grows(st, st1) && Grows(st1, st2)
    ensures Grows(st, st2)
  {
    assert st2.res[..|st.res|] == st2.res[..|st1.res|][..|st.res|];
  }

  /** `rec(i)`. */
  function Visit(g: Graph, i: nat, st: Dfs): (st': Dfs)
    requires Valid(g) && i < |g| && Wf(g, st)
    ensures Wf(g, st') && Grows(st, st')
    ensures i in st'.added
    ensures i !in Stack(st) ==> i in st'.res
    ensures Stack(st') == Stack(st)
    ensures DepsEntered(g, st) ==> DepsEntered(g, st')
    decreases |Ids(g) - st.added|, 0, 0
  {
    if i in st.added then st
    else
      DiffShrinksStrictly(Ids(g), st.added, i);
      var st1 := Dfs(st.added + {i}, st.res);
      var st2 := VisitDeps(g, g[i], 0, st1);
      AppendEntered(g, i, st, st2);
      Dfs(st2.added, st2.res + [i])
  }

  /** Appending the rule entered last, once its dependencies are done, pops it off the stack. */
  lemma AppendEntered(g: Graph, i: nat, st: Dfs, st2: Dfs)
    requires i < |g| && Wf(g, st) && i !in st.added
    requires Wf(g, st2) && Grows(Dfs(st.added + {i}, st.res), st2)
    requires Stack(st2) == Stack(Dfs(st.added + {i}, st.res))
    ensures Wf(g, Dfs(st2.added, st2.res + [i]))
    ensures Grows(st, Dfs(st2.added, st2.res + [i]))
    ensures Stack(Dfs(st2.added, st2.res + [i])) == Stack(st)
  {
    var r := st2.res + [i];
    assert i !in st2.res;
    assert Elems(r) == Elems(st2.res) + {i};
    assert r[..|st.res|] == st2.res[..|st.res|];
    assert i !in Elems(st.res);
    assert Stack(st2) == Stack(st) + {i};
    assert Stack(Dfs(st2.added, r)) == Stack(st2) - {i};
  }

  /** The `for dep in deps: rec(dep)` loop from its `j`-th dependency on. */
  function VisitDeps(g: Graph, ds: seq<nat>, j: nat, st: Dfs): (st': Dfs)
    requires Valid(g) && Wf(g, st) && j <= |ds|
    requires forall k :: 0 <= k < |ds| ==> ds[k] < |g|
    ensures Wf(g, st') && Grows(st, st')
    ensures forall k :: j <= k < |ds| ==> ds[k] in st'.added
    ensures Stack(st') == Stack(st)
    ensures DepsEntered(g, st) ==> DepsEntered(g, st')
    decreases |Ids(g) - st.added|, 1, |ds| - j
  {
    if j == |ds| then st
    else
      var st1 := Visit(g, ds[j], st);
      DiffShrinks(Ids(g), st.added, st1.added);
      var st2 := VisitDeps(g, ds, j + 1, st1);
      GrowsTrans(st, st1, st2);
      assert ds[j] in st2.added;
      st2
  }

  /** The top-level `for i in seed_ids: rec(i)` from the `j`-th seed on. */
  function VisitSeeds(g: Graph, seeds: seq<nat>, j: nat, st: Dfs): (st': Dfs)
    requires Valid(g) && ValidIds(g, seeds) && Wf(g, st) && j <= |seeds|
    ensures Wf(g, st') && Grows(st, st')
    ensures forall k :: j <= k < |seeds| ==> seeds[k] in st'.added
    ensures Stack(st') == Stack(st)
    ensures DepsEntered(g, st) ==> DepsEntered(g, st')
    decreases |seeds| - j
  {
    if j == |seeds| then st
    else
      var st1 := Visit(g, seeds[j], st);
      var st2 := VisitSeeds(g, seeds, j + 1, st1);
      GrowsTrans(st, st1, st2);
      st2
  }

  /**
   * `_toplogical_sort(id2rule, seed_ids)`: every seed, and every dependency
   * of a listed rule, is listed, and none twice.
   */
  function TopoSort(g: Graph, seeds: seq<nat>): (r: seq<nat>)
    requires Valid(g) && ValidIds(g, seeds)
    ensures NoDup(r)
    ensures forall k :: 0 <= k < |seeds| ==> seeds[k] in r
    ensures forall m :: 0 <= m < |r| ==> r[m] < |g|
    ensures Closed(g, Elems(r))
    ensures |seeds| == 0 ==> r == []
  {
    var st := VisitSeeds(g, seeds, 0, Dfs({}, []));
    assert Stack(Dfs({}, [])) == {};
    assert forall x :: x in st.added ==> x in Elems(st.res);
    st.res
  }

  // ---------------------------------------------------------------------------
  // Minimality: nothing outside the dependency closure is listed

  lemma {:induction false} VisitInside(g: Graph, i: nat, st: Dfs, t: set<nat>)
    requires Valid(g) && i < |g| && Wf(g, st)
    requires Closed(g, t) && i in t && st.added <= t
    ensures Visit(g, i, st).added <= t
    decreases |Ids(g) - st.added|, 0, 0
  {
    if i !in st.added {
      DiffShrinksStrictly(Ids(g), st.added, i);
      VisitDepsInside(g, g[i], 0, Dfs(st.added + {i}, st.res), t);
    }
  }

  lemma {:induction false} VisitDepsInside(g: Graph, ds: seq<nat>, j: nat, st: Dfs, t: set<nat>)
    requires Valid(g) && Wf(g, st) && j <= |ds|
    requires forall k :: 0 <= k < |ds| ==> ds[k] < |g|
    requires Closed(g, t) && st.added <= t && (forall k :: 0 <= k < |ds| ==> ds[k] in t)
    ensures VisitDeps(g, ds, j, st).added <= t
    decreases |Ids(g) - st.added|, 1, |ds| - j
  {
    if j < |ds| {
      var st1 := Visit(g, ds[j], st);
      VisitInside(g, ds[j], st, t);
      DiffShrinks(Ids(g), st.added, st1.added);
      VisitDepsInside(g, ds, j + 1, st1, t);
    }
  }

  lemma {:induction false} VisitSeedsInside(g: Graph, seeds: seq<nat>, j: nat, st: Dfs, t: set<nat>)
    requires Valid(g) && ValidIds(g, seeds) && Wf(g, st) && j <= |seeds|
    requires Closed(g, t) && st.added <= t && (forall k :: 0 <= k < |seeds| ==> seeds[k] in t)
    ensures VisitSeeds(g, seeds, j, st).added <= t
    decreases |seeds| - j
  {
    if j < |seeds| {
      VisitInside(g, seeds[j], st, t);
      VisitSeedsInside(g, seeds, j + 1, Visit(g, seeds[j], st), t);
    }
  }

  /** Any set that holds the seeds and is closed under `deps` holds every listed rule. */
  lemma TopoSortMinimal(g: Graph, seeds: seq<nat>, t: set<nat>)
    requires Valid(g) && ValidIds(g, seeds)
    requires Closed(g, t) && (forall k :: 0 <= k < |seeds| ==> seeds[k] in t)
    ensures Elems(TopoSort(g, seeds)) <= t
  {
    VisitSeedsInside(g, seeds, 0, Dfs({}, []), t);
  }

  // ---------------------------------------------------------------------------
  // Order: on a graph whose dependencies precede their dependents, every
  // rule is listed after its dependencies.

  /** Every rule on the stack is above `b`. */
  predicate StackAbove(st: Dfs, b: nat) {
    forall x :: x in Stack(st) ==> x > b
  }

  lemma {:induction false} VisitOrdered(g: Graph, i: nat, st: Dfs)
    requires Valid(g) && Ordered(g) && i < |g| && Wf(g, st)
    requires StackAbove(st, i) && TopoOrdered(g, st.res)
    ensures TopoOrdered(g, Visit(g, i, st).res)
    decreases |Ids(g) - st.added|, 0, 0
  {
    if i !in st.added {
      DiffShrinksStrictly(Ids(g), st.added, i);
      var st1 := Dfs(st.added + {i}, st.res);
      assert Stack(st1) == Stack(st) + {i};
      VisitDepsOrdered(g, g[i], 0, st1, i);
      var st2 := VisitDeps(g, g[i], 0, st1);
      forall k | 0 <= k < |g[i]|
        ensures g[i][k] in st2.res
      {
        assert g[i][k] in st2.added;
        assert g[i][k] !in Stack(st2);
      }
      AppendOrdered(g, i, st2.res);
    }
  }

  lemma AppendOrdered(g: Graph, i: nat, s: seq<nat>)
    requires i < |g| && TopoOrdered(g, s)
    requires forall k :: 0 <= k < |g[i]| ==> g[i][k] in s
    ensures TopoOrdered(g, s + [i])
  {
    var r := s + [i];
    forall m, k | 0 <= m < |r| && r[m] < |g| && 0 <= k < |g[r[m]]|
      ensures g[r[m]][k] in r[..m]
    {
      if m < |s| {
        assert r[..m] == s[..m];
      } else {
        assert r[..m] == s;
      }
    }
  }

  lemma {:induction false} VisitDepsOrdered(g: Graph, ds: seq<nat>, j: nat, st: Dfs, p: nat)
    requires Valid(g) && Ordered(g) && Wf(g, st) && j <= |ds|
    requires forall k :: 0 <= k < |ds| ==> ds[k] < |g| && ds[k] < p
    requires forall x :: x in Stack(st) ==> x >= p
    requires TopoOrdered(g, st.res)
    ensures TopoOrdered(g, VisitDeps(g, ds, j, st).res)
    decreases |Ids(g) - st.added|, 1, |ds| - j
  {
    if j < |ds| {
      var st1 := Visit(g, ds[j], st);
      VisitOrdered(g, ds[j], st);
      DiffShrinks(Ids(g), st.added, st1.added);
      VisitDepsOrdered(g, ds, j + 1, st1, p);
    }
  }

  lemma {:induction false} VisitSeedsOrdered(g: Graph, seeds: seq<nat>, j: nat, st: Dfs)
    requires Valid(g) && Ordered(g) && ValidIds(g, seeds) && Wf(g, st) && j <= |seeds|
    requires Stack(st) == {} && TopoOrdered(g, st.res)
    ensures TopoOrdered(g, VisitSeeds(g, seeds, j, st).res)
    decreases |seeds| - j
  {
    if j < |seeds| {
      VisitOrdered(g, seeds[j], st);
      VisitSeedsOrdered(g, seeds, j + 1, Visit(g, seeds[j], st));
    }
  }

  /** On an `Ordered` graph the listing is a topological order. */
  lemma TopoSortOrdered(g: Graph, seeds: seq<nat>)
    requires Valid(g) && Ordered(g) && ValidIds(g, seeds)
    ensures TopoOrdered(g, TopoSort(g, seeds))
  {
    VisitSeedsOrdered(g, seeds, 0, Dfs({}, []));
  }

  /**
   * The listed rules are exactly the dependency closure of the seeds: the
   * least set that holds them and is closed under `deps`.
   */
  lemma TopoSortIsClosure(g: Graph, seeds: seq<nat>, x: nat)
    requires Valid(g) && ValidIds(g, seeds)
    ensures x in TopoSort(g, seeds) <==>
      forall t: set<nat> :: Closed(g, t) && (forall k :: 0 <= k < |seeds| ==> seeds[k] in t) ==> x in t
  {
    forall t: set<nat> | Closed(g, t) && (forall k :: 0 <= k < |seeds| ==> seeds[k] in t)
      ensures Elems(TopoSort(g, seeds)) <= t
    {
      TopoSortMinimal(g, seeds, t);
    }
  }
}
