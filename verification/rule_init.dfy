/**
 * How `group_tree/rule.py` turns a rule declaration into a raw rule of the
 * store: `SELF` placeholders are resolved against the output files, every
 * output must appear among the method arguments, the other files in the
 * arguments become the inputs, and `RuleStore.add` registers the result.
 *
 * Paths are made absolute by `abs` and relative to the working directory by
 * `rel`; both are parameters because they depend on the process state.
 */
module RuleInit {
  import opened Wrappers
  import opened Paths
  import opened Files
  import opened Dicts
  import Nest
  import Sorting
  import GroupNodes
  import RuleStore

  // ---------------------------------------------------------------------------
  // SELF

  /** The key of a placeholder: `SELF`, `SELF[i]`, or `SELF[k]` / `SELF.k`. */
  datatype SelfKey = NoKey | IntKey(i: int) | StrKey(k: string)

  /** A leaf of the method arguments: a file, a rule (standing for its first output), a `SELF`, or anything else. */
  datatype ArgLeaf = LFile(f: File) | LRule(first: File) | LSelf(key: SelfKey) | LOther

  type Args = Nest.Struct<ArgLeaf>

  /** The file a `SELF` stands for, among the rule's output files in key order. */
  function ResolveSelf(files: Dict<File>, key: SelfKey): (r: Result<File>)
    ensures r.Ok? ==> exists j :: 0 <= j < |files| && files[j].1 == r.value
    ensures key.NoKey? ==> (r.Ok? <==> |files| == 1)
    ensures key.NoKey? && |files| >= 2 ==> r == Err(TypeError)
    ensures key.IntKey? ==> (r.Ok? <==> -|files| <= key.i < |files|)
    ensures key.IntKey? && r.Err? ==> r.error == IndexError
    ensures key.StrKey? ==> (r.Ok? <==> key.k in DKeys(files))
    ensures key.StrKey? && r.Err? ==> r.error == KeyError
  {
    match key
    case NoKey =>
      if |files| >= 2 then Err(TypeError)
      else if |files| == 0 then Err(Failure)  // `next` on an empty iterator
      else Ok(files[0].1)
    case IntKey(i) =>
      if i >= |files| then Err(IndexError)
      else if i >= 0 then Ok(files[i].1)
      else if -i <= |files| then Ok(files[|files| + i].1)  // Python's negative index
      else Err(IndexError)
    case StrKey(k) =>
      var i := Find(files, k);
      if i < |files| then
        assert DKeys(files)[i] == k;
        Ok(files[i].1)
      else Err(KeyError)
  }

  /** Every output file is reachable through `SELF` by its key, its index and its negative index. */
  lemma SelfReachesEach(files: Dict<File>, j: nat)
    requires Distinct(DKeys(files)) && j < |files|
    ensures ResolveSelf(files, StrKey(files[j].0)) == Ok(files[j].1)
    ensures ResolveSelf(files, IntKey(j)) == Ok(files[j].1)
    ensures ResolveSelf(files, IntKey(j - |files|)) == Ok(files[j].1)
    ensures |files| == 1 ==> ResolveSelf(files, NoKey) == Ok(files[j].1)
  {
    assert DKeys(files)[j] == files[j].0;
  }

  /** The value `repl` returns for a leaf when it does not raise. */
  function Resolved(files: Dict<File>, l: ArgLeaf): ArgLeaf {
    if l.LSelf? && ResolveSelf(files, l.key).Ok? then LFile(ResolveSelf(files, l.key).value) else l
  }

  /** The exception the first failing `SELF` raises, in the order `map_structure` visits leaves. */
  function FirstSelfError(files: Dict<File>, ls: seq<ArgLeaf>): (r: Option<Exc>)
    ensures r.None? <==> forall i :: 0 <= i < |ls| && ls[i].LSelf? ==> ResolveSelf(files, ls[i].key).Ok?
    ensures r.Some? ==> exists i :: 0 <= i < |ls| && ls[i].LSelf? && ResolveSelf(files, ls[i].key) == Err(r.value)
  {
    if |ls| == 0 then None
    else if ls[0].LSelf? && ResolveSelf(files, ls[0].key).Err? then Some(ResolveSelf(files, ls[0].key).error)
    else
      var r := FirstSelfError(files, ls[1..]);
      assert forall i :: 1 <= i < |ls| ==> ls[i] == ls[1..][i - 1];
      r
  }

  /** `_replace_self(files, args)`. */
  function ReplaceSelf(files: Dict<File>, args: Args): (r: Result<Args>)
    ensures r.Ok? <==> forall i :: 0 <= i < |Nest.Leaves(args)| && Nest.Leaves(args)[i].LSelf? ==>
      ResolveSelf(files, Nest.Leaves(args)[i].key).Ok?
    ensures r.Err? ==> r.error in {TypeError, IndexError, KeyError, Failure}
    ensures r.Ok? ==> Nest.Shape(r.value) == Nest.Shape(args)
    ensures r.Ok? ==> |Nest.Leaves(r.value)| == |Nest.Leaves(args)|
    ensures r.Ok? ==> forall i :: 0 <= i < |Nest.Leaves(args)| ==>
      var l := Nest.Leaves(args)[i];
      Nest.Leaves(r.value)[i] == if l.LSelf? then LFile(ResolveSelf(files, l.key).value) else l
    ensures r.Ok? ==> forall i :: 0 <= i < |Nest.Leaves(r.value)| ==> !Nest.Leaves(r.value)[i].LSelf?
  {
    var e := FirstSelfError(files, Nest.Leaves(args));
    if e.Some? then
      assert exists i :: (0 <= i < |Nest.Leaves(args)| && Nest.Leaves(args)[i].LSelf? &&
        ResolveSelf(files, Nest.Leaves(args)[i].key).Err?);
      Err(e.value)
    else
      var f := (l: ArgLeaf) => Resolved(files, l);
      var out := Nest.MapStructure(f, args);
      Nest.MapKeepsShape(f, args);
      Nest.LeavesOfMap(f, args);
      Ok(out)
  }

  // ---------------------------------------------------------------------------
  // Outputs used, inputs found

  /** The file a leaf contributes as an input: a file itself, or the first output of a rule. */
  function LeafFile(l: ArgLeaf): Option<File> {
    match l
    case LFile(f) => Some(f)
    case LRule(f) => Some(f)
    case _ => None
  }

  /** The outputs that no file leaf names: the `unused` set of `_assert_all_yfiles_used_in_args`. */
  function Unused(unused: set<Path>, ls: seq<ArgLeaf>, abs: Path -> Path): (r: set<Path>)
    ensures forall p :: p in r <==> p in unused && forall i :: 0 <= i < |ls| && ls[i].LFile? ==> abs(ls[i].f.path) != p
  {
    if |ls| == 0 then unused
    else
      var u := if ls[0].LFile? then unused - {abs(ls[0].f.path)} else unused;
      var r := Unused(u, ls[1..], abs);
      assert forall i :: 1 <= i < |ls| ==> ls[i] == ls[1..][i - 1];
      r
  }

  /** `_assert_all_yfiles_used_in_args`: every output path is the absolute path of a file leaf. */
  function AssertAllYfilesUsed(ypaths: seq<Path>, ls: seq<ArgLeaf>, abs: Path -> Path): (r: Result<()>)
    ensures r.Ok? <==> forall k :: 0 <= k < |ypaths| ==>
      exists i :: 0 <= i < |ls| && ls[i].LFile? && abs(ls[i].f.path) == ypaths[k]
    ensures r.Err? ==> r.error == ValueError
  {
    var all := set k | 0 <= k < |ypaths| :: ypaths[k];
    var u := Unused(all, ls, abs);
    if |u| > 0 then
      var p :| p in u;
      Err(ValueError)
    else
      assert u == {};
      assert forall k :: 0 <= k < |ypaths| ==> ypaths[k] in all && ypaths[k] !in u;
      Ok(())
  }

  /** The absolute paths of the files the leaves contribute. */
  function Mentioned(ls: seq<ArgLeaf>, abs: Path -> Path): set<Path> {
    set i | 0 <= i < |ls| && LeafFile(ls[i]).Some? :: abs(LeafFile(ls[i]).value.path)
  }

  lemma MentionedCons(ls: seq<ArgLeaf>, abs: Path -> Path)
    requires |ls| > 0
    ensures Mentioned(ls, abs) ==
      Mentioned(ls[1..], abs) + (if LeafFile(ls[0]).Some? then {abs(LeafFile(ls[0]).value.path)} else {})
  {
    var tail := ls[1..];
    forall p | p in Mentioned(tail, abs) ensures p in Mentioned(ls, abs) {
      var i :| 0 <= i < |tail| && LeafFile(tail[i]).Some? && abs(LeafFile(tail[i]).value.path) == p;
      assert ls[i + 1] == tail[i];
    }
    forall p | p in Mentioned(ls, abs) && p !in Mentioned(tail, abs)
      ensures LeafFile(ls[0]).Some? && p == abs(LeafFile(ls[0]).value.path)
    {
      var i :| 0 <= i < |ls| && LeafFile(ls[i]).Some? && abs(LeafFile(ls[i]).value.path) == p;
    }
  }

  /** `_find_xfiles_in_args`: each file leaf that is not an output, keyed by its absolute path. */
  function FindXfiles(ypaths: seq<Path>, ls: seq<ArgLeaf>, abs: Path -> Path, res: Dict<File>): (r: Dict<File>)
    ensures Distinct(DKeys(res)) ==> Distinct(DKeys(r))
    ensures forall p :: p in DKeys(r) <==> p in DKeys(res) || (p in Mentioned(ls, abs) && p !in ypaths)
    decreases |ls|
  {
    if |ls| == 0 then res
    else
      var f := LeafFile(ls[0]);
      var res' := if f.Some? && abs(f.value.path) !in ypaths then Put(res, abs(f.value.path), f.value) else res;
      MentionedCons(ls, abs);
      FindXfiles(ypaths, ls[1..], abs, res')
  }

  /** Every entry is keyed by the absolute path of its file. */
  predicate KeyedByAbs(d: Dict<File>, abs: Path -> Path) {
    forall j :: 0 <= j < |d| ==> abs(d[j].1.path) == d[j].0
  }

  lemma PutKeyed(d: Dict<File>, abs: Path -> Path, f: File)
    requires KeyedByAbs(d, abs)
    ensures KeyedByAbs(Put(d, abs(f.path), f), abs)
  {
  }

  /** The inputs are keyed by their absolute paths. */
  lemma {:induction false} FindXfilesKeyed(ypaths: seq<Path>, ls: seq<ArgLeaf>, abs: Path -> Path, res: Dict<File>)
    requires KeyedByAbs(res, abs)
    ensures KeyedByAbs(FindXfiles(ypaths, ls, abs, res), abs)
    decreases |ls|
  {
    if |ls| > 0 {
      var f := LeafFile(ls[0]);
      if f.Some? && abs(f.value.path) !in ypaths {
        PutKeyed(res, abs, f.value);
        FindXfilesKeyed(ypaths, ls[1..], abs, Put(res, abs(f.value.path), f.value));
      } else {
        FindXfilesKeyed(ypaths, ls[1..], abs, res);
      }
    }
  }

  /** An output that appears in the arguments is never an input of its own rule. */
  lemma OutputsAreNotInputs(ypaths: seq<Path>, ls: seq<ArgLeaf>, abs: Path -> Path, k: nat)
    requires k < |ypaths|
    ensures ypaths[k] !in DKeys(FindXfiles(ypaths, ls, abs, []))
  {
  }

  // ---------------------------------------------------------------------------
  // Registered objects become atoms

  datatype ContKind = CDict | CTuple | CList | CSet

  /**
   * A Python object of the arguments, with its identity: a leaf, a container
   * (dict keys kept beside the values), or an atom. A rebuilt container is a
   * new object that no registry knows, written with no identity.
   */
  datatype Obj =
    | Plain(oid: nat)
    | Cont(cid: Option<nat>, kind: ContKind, keys: seq<string>, items: seq<Obj>)
    | AtomOf(atom: nat)

  /** `_replace_obj_by_atom_in_structure`: a registered object becomes its atom; containers are rebuilt. */
  function ReplaceObjByAtom(store: map<nat, nat>, o: Obj): (r: Obj)
    ensures o.AtomOf? ==> r == o
    ensures o.Plain? ==> r == if o.oid in store then AtomOf(store[o.oid]) else o
    ensures o.Cont? && o.cid.Some? && o.cid.value in store ==> r == AtomOf(store[o.cid.value])
    ensures o.Cont? && !(o.cid.Some? && o.cid.value in store) ==>
      r.Cont? && r.cid.None? && r.kind == o.kind && r.keys == o.keys && |r.items| == |o.items|
  {
    match o
    case Plain(id) => if id in store then AtomOf(store[id]) else o
    case Cont(cid, kind, keys, items) =>
      if cid.Some? && cid.value in store then AtomOf(store[cid.value])
      else Cont(None, kind, keys, seq(|items|, i requires 0 <= i < |items| => ReplaceObjByAtom(store, items[i])))
    case AtomOf(_) => o
  }

  /** No object of `o` is registered. */
  predicate Free(store: map<nat, nat>, o: Obj) {
    match o
    case Plain(id) => id !in store
    case Cont(cid, _, _, items) => (cid.None? || cid.value !in store) && forall i :: 0 <= i < |items| ==> Free(store, items[i])
    case AtomOf(_) => true
  }

  /** The object with container identities forgotten: what `==` on the rebuilt value compares. */
  function Erase(o: Obj): Obj {
    match o
    case Cont(_, kind, keys, items) => Cont(None, kind, keys, seq(|items|, i requires 0 <= i < |items| => Erase(items[i])))
    case _ => o
  }

  /** After the replacement no registered object is left. */
  lemma {:induction false} ReplacedIsFree(store: map<nat, nat>, o: Obj)
    ensures Free(store, ReplaceObjByAtom(store, o))
  {
    match o
    case Cont(cid, kind, keys, items) =>
      if !(cid.Some? && cid.value in store) {
        forall i | 0 <= i < |items| ensures Free(store, ReplaceObjByAtom(store, o).items[i]) {
          ReplacedIsFree(store, items[i]);
        }
      }
    case _ =>
  }

  /** With nothing registered inside, the value keeps its shape and leaves: only the containers are new. */
  lemma {:induction false} FreeKeepsValue(store: map<nat, nat>, o: Obj)
    requires Free(store, o)
    ensures ReplaceObjByAtom(store, o) == Erase(o)
  {
    match o
    case Cont(cid, kind, keys, items) =>
      var a := seq(|items|, i requires 0 <= i < |items| => ReplaceObjByAtom(store, items[i]));
      var b := seq(|items|, i requires 0 <= i < |items| => Erase(items[i]));
      forall i | 0 <= i < |items| ensures a[i] == b[i] {
        FreeKeepsValue(store, items[i]);
      }
      assert a == b;
    case _ =>
  }

  /** A rebuilt value has no container identities left. */
  lemma {:induction false} ReplacedIsErased(store: map<nat, nat>, o: Obj)
    ensures Erase(ReplaceObjByAtom(store, o)) == ReplaceObjByAtom(store, o)
  {
    match o
    case Cont(cid, kind, keys, items) =>
      if !(cid.Some? && cid.value in store) {
        var r := ReplaceObjByAtom(store, o);
        var b := seq(|items|, i requires 0 <= i < |items| => Erase(r.items[i]));
        forall i | 0 <= i < |items| ensures b[i] == r.items[i] {
          ReplacedIsErased(store, items[i]);
        }
        assert b == r.items;
      }
    case _ =>
  }

  /** Replacing twice is replacing once. */
  lemma ReplaceIdempotent(store: map<nat, nat>, o: Obj)
    ensures ReplaceObjByAtom(store, ReplaceObjByAtom(store, o)) == ReplaceObjByAtom(store, o)
  {
    var r := ReplaceObjByAtom(store, o);
    ReplacedIsFree(store, o);
    FreeKeepsValue(store, r);
    ReplacedIsErased(store, o);
  }

  // ---------------------------------------------------------------------------
  // Building the rule

  /** `_normalize_path(p, pfx)`: the prefixed path, or its relative form when that is shorter. */
  function NormalizePath(p: Path, pfx: string, home: string, rel: Path -> Path): (r: Path)
    ensures var q := GroupNodes.ConcatPrefix(p, pfx, home); (r == q || r == rel(q)) && |r| <= |q|
  {
    var q := GroupNodes.ConcatPrefix(p, pfx, home);
    var rp := rel(q);
    if |rp| < |q| then rp else q
  }

  /** A path that is absolute after `~` expansion ignores the group's prefix. */
  lemma NormalizeAbsolute(p: Path, pfx1: string, pfx2: string, home: string, rel: Path -> Path)
    requires IsAbs(GroupNodes.ExpandUser(p, home))
    ensures NormalizePath(p, pfx1, home, rel) == NormalizePath(p, pfx2, home, rel)
  {
  }

  /** The output files with the group's prefix applied, keys unchanged. */
  function Prefixed(yfiles: Dict<File>, pfx: string, home: string, rel: Path -> Path): (r: Dict<File>)
    ensures DKeys(r) == DKeys(yfiles)
    ensures forall i :: 0 <= i < |r| ==> r[i].1 == Replace(yfiles[i].1, NormalizePath(yfiles[i].1.path, pfx, home, rel))
  {
    seq(|yfiles|, i requires 0 <= i < |yfiles| =>
      (yfiles[i].0, Replace(yfiles[i].1, NormalizePath(yfiles[i].1.path, pfx, home, rel))))
  }

  /** `{abspath(f): f for f in yfiles.values()}`. */
  function ByAbsPath(fs: Dict<File>, abs: Path -> Path, acc: Dict<File>): (r: Dict<File>)
    ensures Distinct(DKeys(acc)) ==> Distinct(DKeys(r))
    decreases |fs|
  {
    if |fs| == 0 then acc
    else ByAbsPath(fs[1..], abs, Put(acc, abs(fs[0].1.path), fs[0].1))
  }

  /** The keys of the result are the keys of `acc` and the absolute path of every file. */
  lemma {:induction false} ByAbsPathKeys(fs: Dict<File>, abs: Path -> Path, acc: Dict<File>)
    ensures forall p :: p in DKeys(ByAbsPath(fs, abs, acc)) <==>
      p in DKeys(acc) || exists j :: 0 <= j < |fs| && abs(fs[j].1.path) == p
    decreases |fs|
  {
    if |fs| > 0 {
      var k0 := abs(fs[0].1.path);
      var acc' := Put(acc, k0, fs[0].1);
      ByAbsPathKeys(fs[1..], abs, acc');
      forall p ensures p in DKeys(ByAbsPath(fs, abs, acc)) <==>
        p in DKeys(acc) || exists j :: 0 <= j < |fs| && abs(fs[j].1.path) == p
      {
        if exists j :: 0 <= j < |fs| && abs(fs[j].1.path) == p {
          var j :| 0 <= j < |fs| && abs(fs[j].1.path) == p;
          if j > 0 {
            assert fs[1..][j - 1] == fs[j];
          }
        }
        if exists j :: 0 <= j < |fs[1..]| && abs(fs[1..][j].1.path) == p {
          var j :| 0 <= j < |fs[1..]| && abs(fs[1..][j].1.path) == p;
          assert fs[j + 1] == fs[1..][j];
        }
      }
    }
  }

  /** The outputs are keyed by their absolute paths. */
  lemma {:induction false} ByAbsPathKeyed(fs: Dict<File>, abs: Path -> Path, acc: Dict<File>)
    requires KeyedByAbs(acc, abs)
    ensures KeyedByAbs(ByAbsPath(fs, abs, acc), abs)
    decreases |fs|
  {
    if |fs| > 0 {
      PutKeyed(acc, abs, fs[0].1);
      ByAbsPathKeyed(fs[1..], abs, Put(acc, abs(fs[0].1.path), fs[0].1));
    }
  }

  function Entries(d: Dict<File>): (r: seq<RuleStore.Entry>)
    ensures RuleStore.Keys(r) == DKeys(d)
    ensures |r| == |d| && forall i :: 0 <= i < |d| ==> r[i].file == d[i].1
  {
    var r := seq(|d|, i requires 0 <= i < |d| => RuleStore.Entry(d[i].0, d[i].1));
    assert RuleStore.Keys(r) == DKeys(d);
    r
  }

  /** What a rule keeps after initialisation. */
  datatype RuleView = RuleView(rawId: nat, files: Dict<File>, xfiles: seq<Path>, args: Args)

  /**
   * `_init_main`. `callable` and `sigOk` stand for the `callable(method)`
   * and signature checks; `args` is the argument structure after registered
   * objects were replaced by atoms.
   */
  function InitMain(st: RuleStore.Store, name: seq<string>, pfx: string, home: string,
                    rel: Path -> Path, abs: Path -> Path, yfiles: Dict<File>, args: Args,
                    callable: bool, sigOk: bool): (r: Result<(RuleStore.Store, RuleView)>)
    ensures |yfiles| == 0 ==> r == Err(ValueError)
    ensures r.Ok? ==> |r.value.0.rules| == |st.rules| + 1 && r.value.0.rules[..|st.rules|] == st.rules
    ensures r.Ok? ==> r.value.1.rawId == |st.rules| && DKeys(r.value.1.files) == DKeys(yfiles)
    ensures r.Ok? ==> callable && sigOk
    ensures r.Ok? ==> forall i :: 0 <= i < |Nest.Leaves(r.value.1.args)| ==> !Nest.Leaves(r.value.1.args)[i].LSelf?
    ensures r.Ok? ==> forall k :: 0 <= k < |r.value.1.files| ==>
      RuleStore.Producer(r.value.0, abs(r.value.1.files[k].1.path)) == |st.rules|
    ensures r.Ok? ==> forall k :: 0 <= k < |r.value.1.files| ==>
      abs(r.value.1.files[k].1.path) !in r.value.1.xfiles
    ensures r.Ok? && RuleStore.Inv(st) ==> RuleStore.Inv(r.value.0)
  {
    if |yfiles| == 0 then Err(ValueError)
    else
      var ys := Prefixed(yfiles, pfx, home, rel);
      var yp2f := ByAbsPath(ys, abs, []);
      var args' :- ReplaceSelf(ys, args);
      var _ :- AssertAllYfilesUsed(DKeys(yp2f), Nest.Leaves(args'), abs);
      var xp2f := FindXfiles(DKeys(yp2f), Nest.Leaves(args'), abs, []);
      if !callable || !sigOk then Err(TypeError)
      else
        var st' :- RuleStore.Add(st, Entries(yp2f), Entries(xp2f), name);
        InitMainFacts(st, st', name, ys, Nest.Leaves(args'), abs);
        Ok((st', RuleView(|st.rules|, ys, DKeys(xp2f), args')))
  }

  /** `st'` is `st` with the rule of outputs `ys` and argument leaves `ls` registered. */
  predicate Registered(st: RuleStore.Store, st': RuleStore.Store, name: seq<string>,
                       ys: Dict<File>, ls: seq<ArgLeaf>, abs: Path -> Path)
  {
    var yp2f := ByAbsPath(ys, abs, []);
    RuleStore.Add(st, Entries(yp2f), Entries(FindXfiles(DKeys(yp2f), ls, abs, [])), name) == Ok(st')
  }

  lemma InitMainFacts(st: RuleStore.Store, st': RuleStore.Store, name: seq<string>,
                      ys: Dict<File>, ls: seq<ArgLeaf>, abs: Path -> Path)
    requires Registered(st, st', name, ys, ls, abs)
    ensures |st'.rules| == |st.rules| + 1 && st'.rules[..|st.rules|] == st.rules
    ensures forall k :: 0 <= k < |ys| ==> RuleStore.Producer(st', abs(ys[k].1.path)) == |st.rules|
    ensures forall k :: 0 <= k < |ys| ==> abs(ys[k].1.path) !in DKeys(FindXfiles(DKeys(ByAbsPath(ys, abs, [])), ls, abs, []))
    ensures RuleStore.Inv(st) ==> RuleStore.Inv(st')
  {
    RegisteredAppends(st, st', name, ys, ls, abs);
    RegisteredProduces(st, st', name, ys, ls, abs);
    RegisteredOutputsNotInputs(ys, ls, abs);
    RegisteredKeepsInv(st, st', name, ys, ls, abs);
  }

  lemma RegisteredAppends(st: RuleStore.Store, st': RuleStore.Store, name: seq<string>,
                          ys: Dict<File>, ls: seq<ArgLeaf>, abs: Path -> Path)
    requires Registered(st, st', name, ys, ls, abs)
    ensures |st'.rules| == |st.rules| + 1 && st'.rules[..|st.rules|] == st.rules
  {
    var yp2f := ByAbsPath(ys, abs, []);
    var xs := Entries(FindXfiles(DKeys(yp2f), ls, abs, []));
    assert st'.rules == st.rules + [RuleStore.NewRule(st, Entries(yp2f), xs)];
  }

  lemma RegisteredProduces(st: RuleStore.Store, st': RuleStore.Store, name: seq<string>,
                           ys: Dict<File>, ls: seq<ArgLeaf>, abs: Path -> Path)
    requires Registered(st, st', name, ys, ls, abs)
    ensures forall k :: 0 <= k < |ys| ==> RuleStore.Producer(st', abs(ys[k].1.path)) == |st.rules|
  {
    var yp2f := ByAbsPath(ys, abs, []);
    var es := Entries(yp2f);
    assert forall p :: p in RuleStore.Keys(es) ==> p in st'.ypath2idx && st'.ypath2idx[p] == |st.rules|;
    OutputsAbsolute(ys, abs);
  }

  /** Every output's absolute path is a key of `yp2f`. */
  lemma OutputsAbsolute(ys: Dict<File>, abs: Path -> Path)
    ensures forall k :: 0 <= k < |ys| ==> abs(ys[k].1.path) in DKeys(ByAbsPath(ys, abs, []))
  {
    ByAbsPathKeys(ys, abs, []);
    forall k | 0 <= k < |ys| ensures abs(ys[k].1.path) in DKeys(ByAbsPath(ys, abs, [])) {
      var p := abs(ys[k].1.path);
      assert 0 <= k < |ys| && abs(ys[k].1.path) == p;
      assert p in DKeys(ByAbsPath(ys, abs, []));
    }
  }

  lemma RegisteredOutputsNotInputs(ys: Dict<File>, ls: seq<ArgLeaf>, abs: Path -> Path)
    ensures forall k :: 0 <= k < |ys| ==> abs(ys[k].1.path) !in DKeys(FindXfiles(DKeys(ByAbsPath(ys, abs, [])), ls, abs, []))
  {
    OutputsAbsolute(ys, abs);
  }

  lemma RegisteredKeepsInv(st: RuleStore.Store, st': RuleStore.Store, name: seq<string>,
                           ys: Dict<File>, ls: seq<ArgLeaf>, abs: Path -> Path)
    requires Registered(st, st', name, ys, ls, abs)
    ensures RuleStore.Inv(st) ==> RuleStore.Inv(st')
  {
    var yp2f := ByAbsPath(ys, abs, []);
    if RuleStore.Inv(st) {
      RuleStore.AddKeeps(st, Entries(yp2f), Entries(FindXfiles(DKeys(yp2f), ls, abs, [])), name, false);
    }
  }

  // ---------------------------------------------------------------------------
  // Two-phase initialisation

  /** The names of the rules declared but not yet initialised: `rules_to_be_init`. */
  datatype Tree = Tree(store: RuleStore.Store, pending: set<seq<string>>)

  /** `__init_partial__`: the rule is declared and waits for its definition. */
  function InitPartial(t: Tree, name: seq<string>): (r: Tree)
    ensures r.store == t.store && name in r.pending
  {
    Tree(t.store, t.pending + {name})
  }

  /** `__init_full__`: a rule that is no longer pending refuses a second definition. */
  function InitFull(t: Tree, name: seq<string>, pfx: string, home: string,
                    rel: Path -> Path, abs: Path -> Path, yfiles: Dict<File>, args: Args,
                    callable: bool, sigOk: bool): (r: Result<(Tree, RuleView)>)
    ensures name !in t.pending ==> r == Err(RuntimeError)
    ensures r.Ok? ==> name !in r.value.0.pending && r.value.0.pending == t.pending - {name}
    ensures r.Ok? ==> |r.value.0.store.rules| == |t.store.rules| + 1
  {
    if name !in t.pending then Err(RuntimeError)
    else
      var (st', view) :- InitMain(t.store, name, pfx, home, rel, abs, yfiles, args, callable, sigOk);
      Ok((Tree(st', t.pending - {name}), view))
  }

  /** A rule can be defined once: the second `init` raises `RuntimeError`. */
  lemma InitTwice(t: Tree, name: seq<string>, pfx: string, home: string,
                  rel: Path -> Path, abs: Path -> Path, yfiles: Dict<File>, args: Args,
                  callable: bool, sigOk: bool, yfiles2: Dict<File>, args2: Args)
    requires InitFull(t, name, pfx, home, rel, abs, yfiles, args, callable, sigOk).Ok?
    ensures var t' := InitFull(t, name, pfx, home, rel, abs, yfiles, args, callable, sigOk).value.0;
      InitFull(t', name, pfx, home, rel, abs, yfiles2, args2, callable, sigOk) == Err(RuntimeError)
  {
  }
}
