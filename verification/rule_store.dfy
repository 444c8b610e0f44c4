/**
 * `RuleStore` of `group_tree/core.py`: the registry every rule of a group
 * tree is added to. `add` refuses an output path that is already known and
 * an input whose file class disagrees with its registration, derives the
 * new rule's dependencies from the producers of its inputs, and records
 * the outputs in the directory trie. Since a rule can only depend on rules
 * added before it, the dependency graph is acyclic by construction.
 */
module RuleStore {
  import opened Wrappers
  import opened Paths
  import opened Files
  import opened Topo
  import DirTrees

  /** `Path(f).parts`: `"/"` first for an absolute path, then the non-empty components. */
  function Parts(p: Path): seq<string> {
    if IsAbs(p) then ["/"] + Components(p, "") else Components(p, "")
  }

  function Components(s: string, cur: string): seq<string>
    decreases |s|
  {
    if |s| == 0 then (if cur == "" then [] else [cur])
    else if s[0] == Sep then (if cur == "" then [] else [cur]) + Components(s[1..], "")
    else Components(s[1..], cur + [s[0]])
  }

  /** An entry of `yp2f` or `xp2f`: the absolute path and the file object it came from. */
  datatype Entry = Entry(key: Path, file: File)

  /** The `_RawRule` that `add` creates. */
  datatype RawRule = RawRule(yfiles: seq<File>, xfiles: seq<File>, xIsOrig: seq<bool>, xIsVf: seq<bool>,
                             deplist: seq<nat>, id: nat)

  /** `ypath2idx` maps a path to its producer, or to -1 for an original input. */
  datatype Store = Store(rules: seq<RawRule>, ypath2idx: map<Path, int>, path2file: map<Path, File>,
                         idx2xpaths: map<nat, seq<Path>>, idx2name: map<nat, seq<string>>, tree: DirTrees.DirTree)

  const EmptyStore := Store([], map[], map[], map[], map[], DirTrees.Empty)

  function Keys(es: seq<Entry>): seq<Path> {
    seq(|es|, i requires 0 <= i < |es| => es[i].key)
  }

  /** A Python dict: no key twice. */
  predicate DistinctKeys(es: seq<Entry>) {
    forall i, j :: 0 <= i < j < |es| ==> es[i].key != es[j].key
  }

  /** `ypath2idx.get(p, -1)`. */
  function Producer(st: Store, p: Path): int {
    if p in st.ypath2idx then st.ypath2idx[p] else -1
  }

  // ---------------------------------------------------------------------------
  // The checks before anything is registered

  /**
   * The loop over `yp2f`: a known output path raises `ValueError`, a trie
   * collision raises `Exception`. `intended` picks the trie check: `false`
   * for the code as written, `true` for the corrected leaf test.
   */
  function CheckOutputs(st: Store, ys: seq<Entry>, intended: bool): (r: Result<()>)
    ensures r.Ok? <==> forall i :: 0 <= i < |ys| ==>
      ys[i].key !in st.ypath2idx && DirTrees.CheckFile(st.tree, Parts(ys[i].file.path), intended).Ok?
    ensures |ys| > 0 && ys[0].key in st.ypath2idx ==> r == Err(ValueError)
  {
    if |ys| == 0 then Ok(())
    else if ys[0].key in st.ypath2idx then Err(ValueError)
    else if DirTrees.CheckFile(st.tree, Parts(ys[0].file.path), intended).Err? then Err(Failure)
    else
      var r := CheckOutputs(st, ys[1..], intended);
      assert forall i :: 1 <= i < |ys| ==> ys[i] == ys[1..][i - 1];
      r
  }

  /**
   * `f.resolve()`: the same class at the absolute path, which is the key
   * the file is entered under.
   */
  function Resolve(f: File, key: Path): File {
    Replace(f, key)
  }

  /**
   * The loop over `xp2f`: a path registered with a file whose resolved form
   * differs raises `TypeError`. Both resolve to the key, so this refuses
   * exactly a change of file class.
   */
  function CheckInputs(st: Store, xs: seq<Entry>): (r: Result<()>)
    ensures r.Ok? <==> forall i :: 0 <= i < |xs| ==>
      xs[i].key !in st.path2file || st.path2file[xs[i].key].kind == xs[i].file.kind
    ensures r.Err? ==> r.error == TypeError
  {
    if |xs| == 0 then Ok(())
    else if xs[0].key in st.path2file && Resolve(st.path2file[xs[0].key], xs[0].key) != Resolve(xs[0].file, xs[0].key) then
      Err(TypeError)
    else
      var r := CheckInputs(st, xs[1..]);
      assert forall i :: 1 <= i < |xs| ==> xs[i] == xs[1..][i - 1];
      r
  }

  // ---------------------------------------------------------------------------
  // The new rule

  /** `set(xids) - {-1}`, listed in order of first appearance. */
  function DepList(xids: seq<int>): (r: seq<nat>)
    ensures forall d :: d in r <==> d in xids && d != -1 && d >= 0
    ensures forall i, j :: 0 <= i < j < |r| ==> r[i] != r[j]
  {
    if |xids| == 0 then []
    else
      var rest := DepList(xids[1..]);
      var x := xids[|xids| - 1];
      var front := DepList(xids[..|xids| - 1]);
      if x < 0 || x in front then
        assert forall d :: d in xids <==> d in xids[..|xids| - 1] || d == x by {
          assert xids == xids[..|xids| - 1] + [x];
        }
        front
      else
        assert forall d :: d in xids <==> d in xids[..|xids| - 1] || d == x by {
          assert xids == xids[..|xids| - 1] + [x];
        }
        front + [x as nat]
  }

  function FileObjs(es: seq<Entry>): seq<File> {
    seq(|es|, i requires 0 <= i < |es| => es[i].file)
  }

  /** The `_RawRule(...)` call of `add`. */
  function NewRule(st: Store, ys: seq<Entry>, xs: seq<Entry>): (r: RawRule)
    ensures r.id == |st.rules| && r.yfiles == FileObjs(ys) && r.xfiles == FileObjs(xs)
    ensures |r.xIsOrig| == |xs| && |r.xIsVf| == |xs|
    ensures forall i :: 0 <= i < |xs| ==> (r.xIsOrig[i] <==> Producer(st, xs[i].key) == -1)
    ensures forall i :: 0 <= i < |xs| ==> (r.xIsVf[i] <==> IsValueFile(xs[i].file))
    ensures forall d :: d in r.deplist <==> exists i :: 0 <= i < |xs| && Producer(st, xs[i].key) == d && d >= 0
  {
    var xids := seq(|xs|, i requires 0 <= i < |xs| => Producer(st, xs[i].key));
    var r := RawRule(FileObjs(ys), FileObjs(xs),
                     seq(|xs|, i requires 0 <= i < |xs| => xids[i] == -1),
                     seq(|xs|, i requires 0 <= i < |xs| => IsValueFile(xs[i].file)),
                     DepList(xids), |st.rules|);
    assert forall d :: d in r.deplist ==> exists i :: 0 <= i < |xs| && Producer(st, xs[i].key) == d && d >= 0 by {
      forall d | d in r.deplist
        ensures exists i :: 0 <= i < |xs| && Producer(st, xs[i].key) == d && d >= 0
      {
        var i :| 0 <= i < |xids| && xids[i] == d;
      }
    }
    assert forall i :: 0 <= i < |xs| && Producer(st, xs[i].key) >= 0 ==> Producer(st, xs[i].key) in r.deplist by {
      forall i | 0 <= i < |xs| && Producer(st, xs[i].key) >= 0
        ensures Producer(st, xs[i].key) in r.deplist
      {
        assert xids[i] in xids;
      }
    }
    r
  }

  // ---------------------------------------------------------------------------
  // Registration

  lemma KeysTail(es: seq<Entry>)
    requires |es| > 0
    ensures Keys(es) == [es[0].key] + Keys(es[1..])
  {
  }

  /** `for p, f in yp2f.items(): ypath2idx[p] = id; path2file[p] = f`. */
  function MarkOutputs(m: map<Path, int>, f: map<Path, File>, ys: seq<Entry>, id: int): (r: (map<Path, int>, map<Path, File>))
    ensures forall p :: p in r.0 <==> p in m || p in Keys(ys)
    ensures forall p :: p in r.1 <==> p in f || p in Keys(ys)
    ensures forall p :: p in Keys(ys) ==> r.0[p] == id
    ensures forall p :: p in m && p !in Keys(ys) ==> r.0[p] == m[p]
    ensures forall p :: p in f && p !in Keys(ys) ==> r.1[p] == f[p]
    ensures forall p :: p in Keys(ys) ==> exists i :: 0 <= i < |ys| && ys[i].key == p && r.1[p] == ys[i].file
    decreases |ys|
  {
    if |ys| == 0 then (m, f)
    else
      var r := MarkOutputs(m[ys[0].key := id], f[ys[0].key := ys[0].file], ys[1..], id);
      KeysTail(ys);
      assert forall p :: p in Keys(ys[1..]) ==> exists i :: 0 <= i < |ys| && ys[i].key == p && r.1[p] == ys[i].file by {
        forall p | p in Keys(ys[1..])
          ensures exists i :: 0 <= i < |ys| && ys[i].key == p && r.1[p] == ys[i].file
        {
          var i :| 0 <= i < |ys[1..]| && ys[1..][i].key == p && r.1[p] == ys[1..][i].file;
          assert ys[i + 1] == ys[1..][i];
        }
      }
      r
  }

  /** `for p, f in xp2f.items(): if p not in ypath2idx: ypath2idx[p] = -1; path2file[p] = f`. */
  function MarkInputs(m: map<Path, int>, f: map<Path, File>, xs: seq<Entry>): (r: (map<Path, int>, map<Path, File>))
    ensures forall p :: p in r.0 <==> p in m || p in Keys(xs)
    ensures forall p :: p in m ==> r.0[p] == m[p]
    ensures forall p :: p in r.0 && p !in m ==> r.0[p] == -1
    ensures forall p :: p in r.1 <==> p in f || (p in Keys(xs) && p !in m)
    ensures forall p :: p in f && p in m ==> r.1[p] == f[p]
    decreases |xs|
  {
    if |xs| == 0 then (m, f)
    else
      var p := xs[0].key;
      var m1 := if p in m then m else m[p := -1];
      var f1 := if p in m then f else f[p := xs[0].file];
      KeysTail(xs);
      MarkInputs(m1, f1, xs[1..])
  }

  /** `for f in yp2f.values(): dirtree.add(Path(f).parts, True)`. */
  function AddAll(t: DirTrees.DirTree, ys: seq<Entry>, intended: bool): Result<DirTrees.DirTree>
    decreases |ys|
  {
    if |ys| == 0 then Ok(t)
    else
      var t1 :- DirTrees.AddFile(t, Parts(ys[0].file.path), intended);
      AddAll(t1, ys[1..], intended)
  }

  /**
   * `RuleStore.add(yp2f, xp2f, method, memo, name)`. `method` and `memo`
   * are stored untouched and left out; the result is the new store, whose
   * last rule is the one `add` returns. `intended` picks the trie's leaf
   * test, as in `CheckOutputs`.
   */
  function AddWith(st: Store, ys: seq<Entry>, xs: seq<Entry>, name: seq<string>, intended: bool): (r: Result<Store>)
    ensures r.Ok? <==>
      && CheckOutputs(st, ys, intended).Ok? && CheckInputs(st, xs).Ok?
      && AddAll(st.tree, ys, intended).Ok?
    ensures r.Ok? ==> r.value.rules == st.rules + [NewRule(st, ys, xs)]
    ensures r.Ok? ==> r.value.idx2xpaths == st.idx2xpaths[|st.rules| := Keys(xs)]
    ensures r.Ok? ==> r.value.idx2name == st.idx2name[|st.rules| := name]
    ensures r.Ok? ==> forall p :: p in r.value.ypath2idx <==> p in st.ypath2idx || p in Keys(ys) || p in Keys(xs)
    ensures r.Ok? ==> forall p :: p in st.ypath2idx ==> r.value.ypath2idx[p] == st.ypath2idx[p]
    ensures r.Ok? ==> forall p :: p in Keys(ys) ==> r.value.ypath2idx[p] == |st.rules|
    ensures r.Ok? ==> forall p :: p in r.value.ypath2idx && p !in st.ypath2idx && p !in Keys(ys) ==> r.value.ypath2idx[p] == -1
    ensures r.Ok? ==> forall p :: p in r.value.path2file <==>
      p in st.path2file || p in Keys(ys) || (p in Keys(xs) && p !in st.ypath2idx)
  {
    var _ :- CheckOutputs(st, ys, intended);
    var _ :- CheckInputs(st, xs);
    var rule := NewRule(st, ys, xs);
    var (m1, f1) := MarkOutputs(st.ypath2idx, st.path2file, ys, rule.id);
    var (m2, f2) := MarkInputs(m1, f1, xs);
    var t :- AddAll(st.tree, ys, intended);
    assert forall p :: p in Keys(ys) ==> p !in st.ypath2idx by {
      forall p | p in Keys(ys)
        ensures p !in st.ypath2idx
      {
        var i :| 0 <= i < |ys| && Keys(ys)[i] == p;
      }
    }
    Ok(Store(st.rules + [rule], m2, f2, st.idx2xpaths[rule.id := Keys(xs)], st.idx2name[rule.id := name], t))
  }

  /** `RuleStore.add` as written: the trie uses the `len(parts) == 1` leaf test. */
  function Add(st: Store, ys: seq<Entry>, xs: seq<Entry>, name: seq<string>): Result<Store> {
    AddWith(st, ys, xs, name, false)
  }

  /** `RuleStore.add` with the trie's leaf test corrected to `len(parts) == depth + 1`. */
  function AddCorrected(st: Store, ys: seq<Entry>, xs: seq<Entry>, name: seq<string>): Result<Store> {
    AddWith(st, ys, xs, name, true)
  }

  // ---------------------------------------------------------------------------
  // The store invariant: dependencies point backwards

  /**
   * Every rule sits at its id, depends only on distinct earlier rules, and
   * every path the store knows maps to an existing rule or to -1.
   */
  predicate Inv(st: Store) {
    && (forall i :: 0 <= i < |st.rules| ==> st.rules[i].id == i)
    && (forall i, k :: 0 <= i < |st.rules| && 0 <= k < |st.rules[i].deplist| ==> st.rules[i].deplist[k] < i)
    && (forall i :: 0 <= i < |st.rules| ==> NoDup(st.rules[i].deplist))
    && (forall p :: p in st.ypath2idx ==> -1 <= st.ypath2idx[p] < |st.rules|)
    && st.ypath2idx.Keys == st.path2file.Keys
  }

  lemma EmptyInv()
    ensures Inv(EmptyStore)
    ensures Graph(EmptyStore) == []
  {
  }

  /** The dependency graph the make engines receive. */
  function Graph(st: Store): (g: Topo.Graph)
    ensures |g| == |st.rules|
    ensures forall i :: 0 <= i < |g| ==> g[i] == st.rules[i].deplist
  {
    seq(|st.rules|, i requires 0 <= i < |st.rules| => st.rules[i].deplist)
  }

  /** `add` keeps the invariant, and the new rule depends exactly on the producers of its inputs. */
  lemma {:induction false} AddKeeps(st: Store, ys: seq<Entry>, xs: seq<Entry>, name: seq<string>, intended: bool)
    requires Inv(st)
    requires AddWith(st, ys, xs, name, intended).Ok?
    ensures Inv(AddWith(st, ys, xs, name, intended).value)
    ensures var st' := AddWith(st, ys, xs, name, intended).value;
      forall d :: d in st'.rules[|st.rules|].deplist <==> exists i :: 0 <= i < |xs| && 0 <= Producer(st, xs[i].key) == d
    ensures var st' := AddWith(st, ys, xs, name, intended).value;
      forall i :: 0 <= i < |ys| ==> Producer(st', ys[i].key) == |st.rules|
    ensures var st' := AddWith(st, ys, xs, name, intended).value;
      forall p :: p in st.ypath2idx ==> Producer(st', p) == Producer(st, p)
  {
    var st' := AddWith(st, ys, xs, name, intended).value;
    AddKeepsInv(st, ys, xs, name, intended, st');
    AddMarksOutputs(st, ys, xs, name, intended, st');
    assert st'.rules[|st.rules|] == NewRule(st, ys, xs);
  }

  /** The invariant half of `AddKeeps`, for the store `st'` that `add` returns. */
  lemma AddKeepsInv(st: Store, ys: seq<Entry>, xs: seq<Entry>, name: seq<string>, intended: bool, st': Store)
    requires Inv(st)
    requires AddWith(st, ys, xs, name, intended) == Ok(st')
    ensures Inv(st')
  {
    var rule := NewRule(st, ys, xs);
    forall d | d in rule.deplist
      ensures d < |st.rules|
    {
      var i :| 0 <= i < |xs| && Producer(st, xs[i].key) == d && d >= 0;
    }
    InvStep(st, st', rule, ys, xs);
  }

  /** The table half of `AddKeeps`: outputs map to the new rule, known paths keep their producer. */
  lemma AddMarksOutputs(st: Store, ys: seq<Entry>, xs: seq<Entry>, name: seq<string>, intended: bool, st': Store)
    requires AddWith(st, ys, xs, name, intended) == Ok(st')
    ensures forall i :: 0 <= i < |ys| ==> Producer(st', ys[i].key) == |st.rules|
    ensures forall p :: p in st.ypath2idx ==> Producer(st', p) == Producer(st, p)
  {
    forall i | 0 <= i < |ys|
      ensures Producer(st', ys[i].key) == |st.rules|
    {
      assert Keys(ys)[i] == ys[i].key;
    }
  }

  /** The invariant step of `add`, stated over the facts `Add` guarantees. */
  lemma InvStep(st: Store, st': Store, rule: RawRule, ys: seq<Entry>, xs: seq<Entry>)
    requires Inv(st)
    requires st'.rules == st.rules + [rule] && rule.id == |st.rules|
    requires NoDup(rule.deplist) && forall d :: d in rule.deplist ==> d < |st.rules|
    requires forall p :: p in st'.ypath2idx <==> p in st.ypath2idx || p in Keys(ys) || p in Keys(xs)
    requires forall p :: p in st.ypath2idx ==> st'.ypath2idx[p] == st.ypath2idx[p]
    requires forall p :: p in Keys(ys) ==> st'.ypath2idx[p] == |st.rules|
    requires forall p :: p in st'.ypath2idx && p !in st.ypath2idx && p !in Keys(ys) ==> st'.ypath2idx[p] == -1
    requires forall p :: p in st'.path2file <==> p in st.path2file || p in Keys(ys) || (p in Keys(xs) && p !in st.ypath2idx)
    ensures Inv(st')
  {
    assert forall i :: 0 <= i < |st.rules| ==> st'.rules[i] == st.rules[i];
    assert forall i, k :: 0 <= i < |st'.rules| && 0 <= k < |st'.rules[i].deplist| ==> st'.rules[i].deplist[k] < i by {
      forall i, k | 0 <= i < |st'.rules| && 0 <= k < |st'.rules[i].deplist|
        ensures st'.rules[i].deplist[k] < i
      {
        if i == |st.rules| {
          assert st'.rules[i].deplist[k] in rule.deplist;
        }
      }
    }
  }

  /**
   * An output path can be produced by one rule only, and a path an earlier
   * rule read as an original input can no longer become an output: a later
   * `add` naming it fails. Rules must therefore be added producers first.
   */
  lemma DuplicateOutputRefused(st: Store, ys: seq<Entry>, xs: seq<Entry>, name: seq<string>,
                               ys2: seq<Entry>, xs2: seq<Entry>, name2: seq<string>, j: nat, intended: bool)
    requires AddWith(st, ys, xs, name, intended).Ok?
    requires j < |ys2| && (ys2[j].key in Keys(ys) || ys2[j].key in Keys(xs) || ys2[j].key in st.ypath2idx)
    ensures AddWith(AddWith(st, ys, xs, name, intended).value, ys2, xs2, name2, intended).Err?
  {
    var st' := AddWith(st, ys, xs, name, intended).value;
    assert ys2[j].key in st'.ypath2idx;
  }

  /** A store built by `add` hands the engines a valid, ordered, simple graph. */
  lemma StoreGraphOrdered(st: Store)
    requires Inv(st)
    ensures Valid(Graph(st)) && Ordered(Graph(st)) && Simple(Graph(st))
  {
  }
}
