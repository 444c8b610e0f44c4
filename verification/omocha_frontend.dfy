/**
 * The declaration front end of omochamake (`omochamake/frontend/frontend.py`):
 * `SELF` placeholders, `create_group`, `Group.add`/`add_memo`/`add_group`/`_add`
 * and `create_rule`.
 *
 * A tree of groups shares one root, which remembers every (real) path any of
 * its rules writes; a rule is registered only when none of its paths is taken.
 * Object identities become numbers: a root is named by `root: nat` and a rule
 * by its position in the root's rule list. `os.path.normpath` and
 * `os.path.realpath` are parameters (`norm`, `rp`), since both consult
 * conventions or the file system outside this model.
 */
module OmochaFrontend {
  import opened Wrappers
  import opened Paths
  import opened Nest
  import Strings
  import Sorting
  import LegacyUtils
  import FrontendGroup

  /** A `name` argument: `str`, `int`, or any other object. */
  datatype Name = NStr(s: string) | NInt(i: int) | NOther

  /** A terminal of a nested path, a `dirname` or a `path_prefix`: `str`, `NoPfxPath`, or anything else. */
  datatype Simple = Str(s: string) | NoPfx(p: string) | Other

  /** A leaf of a rule's method arguments: a target of some rule, a `SELF` placeholder, or a plain value. */
  datatype Arg = Target(root: nat, rule: nat, path: Path) | SelfRef(sub: seq<Key>) | Value(v: int)

  /** A leaf after `create_rule`'s `map_fn`: a path, the sub-structure `SELF` stood for, or the value itself. */
  datatype MArg = MPath(p: Path) | MTree(t: Struct<Path>) | MValue(v: int)

  /** The method slot of `_add`: a callable, the `NOP` marker, or a non-callable object. */
  datatype Method = Fn(id: nat) | Nop | NotFn

  datatype Rule = Rule(
    name: string,
    action: Method,
    args: seq<Struct<MArg>>,
    kwargs: seq<Entry<MArg>>,
    deps: set<nat>,
    ypaths: set<Path>,
    ipaths: set<Path>,
    memo: Option<Path>)

  /** A group: its root, its path prefix, its name from the root, and the names already taken in it. */
  datatype Group = Group(root: nat, prefix: string, name: seq<Name>, children: set<Name>)

  /** The shared state of one root: `_path_str_set` and the rules created so far. */
  datatype Tree = Tree(used: set<Path>, rules: seq<Rule>)

  predicate Named(ns: seq<Name>) {
    forall i :: 0 <= i < |ns| ==> !ns[i].NOther?
  }

  /** `str(name)`. */
  function NameStr(n: Name): string
    requires !n.NOther?
  {
    if n.NStr? then n.s else Strings.IntToStr(n.i)
  }

  function Strs(ns: seq<Name>): (r: seq<string>)
    requires Named(ns)
    ensures |r| == |ns|
    ensures forall i :: 0 <= i < |ns| ==> r[i] == NameStr(ns[i])
  {
    seq(|ns|, i requires 0 <= i < |ns| => NameStr(ns[i]))
  }

  /** `repr_rule_name`: `/g1/g2:name`, every component through `str`. */
  function RuleName(ns: seq<Name>): (r: string)
    requires |ns| >= 1 && Named(ns)
    ensures Strings.StartsWith(r, FrontendGroup.ReprGroupName(Strs(ns[..|ns| - 1])))
    ensures Strings.EndsWith(r, [':'] + NameStr(ns[|ns| - 1]))
  {
    assert Strs(ns[..|ns| - 1]) == Strs(ns)[..|ns| - 1];
    FrontendGroup.ReprRuleName(Strs(ns)).value
  }

  // ---------------------------------------------------------------------------
  // SELF

  /** `Self.__getitem__`: one more key on the placeholder; only `int` and `str` keys are accepted. */
  function SelfItem(sub: seq<Key>, k: KeyArg): (r: Result<seq<Key>>)
    ensures k.ArgOther? <==> r == Err(ValueError)
    ensures r.Ok? ==> |r.value| == |sub| + 1 && r.value[..|sub|] == sub
  {
    var ks :- ExtendDeepKey(sub, k);
    assert ks[..|sub|] == sub;
    Ok(ks)
  }

  /** A placeholder built key by key stands for the sub-structure reached by following those keys one at a time. */
  lemma SelfItemFollows(path: Struct<Path>, sub: seq<Key>, k: KeyArg)
    requires SelfItem(sub, k).Ok? && DeepGet(path, sub).Ok?
    ensures DeepGet(path, SelfItem(sub, k).value)
         == DeepGet(DeepGet(path, sub).value, SelfItem(sub, k).value[|sub|..])
  {
    var ks := SelfItem(sub, k).value;
    assert ks == sub + ks[|sub|..];
    LegacyUtils.GetDeepAppend(path, sub, ks[|sub|..]);
  }

  // ---------------------------------------------------------------------------
  // create_group

  /** `create_group` as written: the chained comparison raises only when both arguments are missing, and `dirname` wins when both are given. */
  function CreateGroupAsWritten(root: nat, dirname: Option<string>, prefix: Option<Simple>, norm: string -> string): (r: Result<Group>)
    ensures r.Err? ==> r.error == TypeError
    ensures r.Err? <==> (dirname.None? && (prefix.None? || !prefix.value.Str?))
    ensures dirname.Some? ==> r == Ok(Group(root, norm(dirname.value) + "/", [], {}))
  {
    if dirname.None? && prefix.None? then Err(TypeError)
    else if dirname.Some? then Ok(Group(root, norm(dirname.value) + "/", [], {}))
    else if prefix.value.Str? then Ok(Group(root, prefix.value.s, [], {}))
    else Err(TypeError)
  }

  /** Both arguments given: the call is accepted and `path_prefix` is silently dropped. */
  lemma BothArgumentsAccepted(norm: string -> string)
    ensures CreateGroupAsWritten(0, Some("d"), Some(Str("pfx-")), norm).Ok?
    ensures CreateGroupAsWritten(0, Some("d"), Some(Str("pfx-")), norm).value.prefix == norm("d") + "/"
  {
  }

  /** `create_group` with the check its message describes: exactly one of `dirname` and `path_prefix`. */
  function CreateGroup(root: nat, dirname: Option<string>, prefix: Option<Simple>, norm: string -> string): (r: Result<Group>)
    ensures r.Err? ==> r.error == TypeError
    ensures r.Ok? ==> r.value.name == [] && r.value.children == {} && r.value.root == root
  {
    if dirname.None? == prefix.None? then Err(TypeError)
    else if dirname.Some? then Ok(Group(root, norm(dirname.value) + "/", [], {}))
    else if prefix.value.Str? then Ok(Group(root, prefix.value.s, [], {}))
    else Err(TypeError)
  }

  /** The corrected group refuses exactly the calls the as-written one wrongly accepts, and agrees with it elsewhere. */
  lemma CreateGroupCorrected(root: nat, dirname: Option<string>, prefix: Option<Simple>, norm: string -> string)
    ensures CreateGroup(root, dirname, prefix, norm).Err?
        <==> (dirname.Some? && prefix.Some?) || CreateGroupAsWritten(root, dirname, prefix, norm).Err?
    ensures !(dirname.Some? && prefix.Some?) ==> CreateGroup(root, dirname, prefix, norm) == CreateGroupAsWritten(root, dirname, prefix, norm)
  {
  }

  // ---------------------------------------------------------------------------
  // path prefixes

  /** The prefixing rule applied to an accepted terminal. */
  function Prefix(prefix: string, sp: Simple): Path {
    match sp
    case Str(s) => if IsAbs(s) then s else prefix + s
    case NoPfx(p) => p
    case Other => ""
  }

  /** `_add_pfx_to_simple_path`: relative strings get the group's prefix; absolute strings and `nopfx` paths are kept. */
  function AddPfx(prefix: string, sp: Simple): (r: Result<Path>)
    ensures r.Err? <==> sp.Other?
    ensures r.Err? ==> r.error == TypeError
    ensures r.Ok? && sp.Str? && IsAbs(sp.s) ==> r.value == sp.s
    ensures r.Ok? && sp.Str? && !IsAbs(sp.s) ==> Strings.StartsWith(r.value, prefix) && r.value[|prefix|..] == sp.s
    ensures r.Ok? && sp.NoPfx? ==> r.value == sp.p
  {
    if sp.Other? then Err(TypeError)
    else
      var p := Prefix(prefix, sp);
      assert sp.Str? && !IsAbs(sp.s) ==> p[..|prefix|] == prefix && p[|prefix|..] == sp.s;
      Ok(p)
  }

  /** Under an absolute prefix every prefixed path is absolute, except a `nopfx` path that was relative to begin with. */
  lemma AbsolutePrefixAnchors(prefix: string, sp: Simple)
    requires IsAbs(prefix) && AddPfx(prefix, sp).Ok?
    ensures IsAbs(AddPfx(prefix, sp).value) || (sp.NoPfx? && !IsAbs(sp.p))
  {
    if sp.Str? && !IsAbs(sp.s) {
      assert (prefix + sp.s)[0] == prefix[0];
    }
  }

  /** Some terminal of the path is neither a `str` nor a `NoPfxPath`. */
  predicate HasOther(path: Struct<Simple>) {
    exists k :: 0 <= k < |Leaves(path)| && Leaves(path)[k].Other?
  }

  /** Every terminal of the path is a `str`. */
  predicate AllStr(path: Struct<Simple>) {
    forall k :: 0 <= k < |Leaves(path)| ==> Leaves(path)[k].Str?
  }

  /** The nested path with every terminal prefixed (`map_nested(path, _add_pfx_to_simple_path)`). */
  function Prefixed(prefix: string, path: Struct<Simple>): (r: Result<Struct<Path>>)
    ensures r.Err? <==> HasOther(path)
    ensures r.Err? ==> r.error == TypeError
    ensures r.Ok? ==> Shape(r.value) == Shape(path) && |Leaves(r.value)| == |Leaves(path)|
    ensures r.Ok? ==> forall k :: 0 <= k < |Leaves(path)| ==> AddPfx(prefix, Leaves(path)[k]) == Ok(Leaves(r.value)[k])
  {
    if HasOther(path) then Err(TypeError)
    else
      var f := (sp: Simple) => Prefix(prefix, sp);
      MapKeepsShape(f, path);
      LeavesOfMap(f, path);
      Ok(MapStructure(f, path))
  }

  /** `nopfx(path)`: every terminal must be a `str`, and each is marked to bypass prefixing. */
  function NoPfxOf(path: Struct<Simple>): (r: Result<Struct<Simple>>)
    ensures r.Err? <==> !AllStr(path)
    ensures r.Err? ==> r.error == ValueError
    ensures r.Ok? ==> Shape(r.value) == Shape(path) && |Leaves(r.value)| == |Leaves(path)|
    ensures r.Ok? ==> forall k :: 0 <= k < |Leaves(path)| ==> Leaves(r.value)[k] == NoPfx(Leaves(path)[k].s)
  {
    if !AllStr(path) then Err(ValueError)
    else
      var f := (sp: Simple) => if sp.Str? then NoPfx(sp.s) else sp;
      MapKeepsShape(f, path);
      LeavesOfMap(f, path);
      Ok(MapStructure(f, path))
  }

  /** A `nopfx` path comes out of any group unchanged. */
  lemma NoPfxIgnoresPrefix(prefix: string, path: Struct<Simple>)
    requires NoPfxOf(path).Ok?
    ensures Prefixed(prefix, NoPfxOf(path).value).Ok?
    ensures var r := Prefixed(prefix, NoPfxOf(path).value).value;
      |Leaves(r)| == |Leaves(path)| && forall k :: 0 <= k < |Leaves(path)| ==> Leaves(r)[k] == Leaves(path)[k].s
  {
    var q := NoPfxOf(path).value;
    assert forall k :: 0 <= k < |Leaves(q)| ==> Leaves(q)[k].NoPfx?;
    var r := Prefixed(prefix, q).value;
    assert forall k :: 0 <= k < |Leaves(path)| ==> Leaves(r)[k] == Leaves(path)[k].s;
  }

  // ---------------------------------------------------------------------------
  // add_group

  /** `Group.add_group`: the sub-group's prefix comes from `dirname` (default `str(name)`) or from `path_prefix`. */
  function AddGroup(g: Group, name: Name, dirname: Option<Simple>, prefix: Option<Simple>, norm: string -> string): (r: Result<(Group, Group)>)
    ensures name.NOther? ==> r == Err(TypeError)
    ensures !name.NOther? && name in g.children ==> r == Err(KeyError)
    ensures r.Err? ==> r.error in {TypeError, KeyError}
    ensures r.Ok? ==> name !in g.children && !(dirname.Some? && prefix.Some?)
    ensures r.Ok? ==> r.value.0 == g.(children := g.children + {name})
    ensures r.Ok? ==> r.value.1.root == g.root && r.value.1.name == g.name + [name] && r.value.1.children == {}
  {
    if name.NOther? then Err(TypeError)
    else if name in g.children then Err(KeyError)
    else if dirname.Some? && prefix.Some? then Err(TypeError)
    else
      var dn := if dirname.None? && prefix.None? then Some(Str(NameStr(name))) else dirname;
      var pp :=
        if dn.None? then prefix
        else match dn.value
          case NoPfx(p) => Some(NoPfx(norm(p) + "/"))
          case Str(s) => Some(Str(norm(s) + "/"))
          case Other => prefix;
      if pp.Some? && pp.value.Str? then
        Ok((g.(children := g.children + {name}), Group(g.root, g.prefix + pp.value.s, g.name + [name], {})))
      else if pp.Some? && pp.value.NoPfx? then
        Ok((g.(children := g.children + {name}), Group(g.root, pp.value.p, g.name + [name], {})))
      else Err(TypeError)
  }

  /** A sub-group's prefix extends its parent's unless it was given through `nopfx`; with neither argument it is the normalised `str(name)` plus `/`. */
  lemma AddGroupPrefix(g: Group, name: Name, dirname: Option<Simple>, prefix: Option<Simple>, norm: string -> string)
    requires AddGroup(g, name, dirname, prefix, norm).Ok?
    ensures var c := AddGroup(g, name, dirname, prefix, norm).value.1;
      (dirname.None? && prefix.None? ==> c.prefix == g.prefix + norm(NameStr(name)) + "/")
      && (dirname.Some? && dirname.value.Str? ==> c.prefix == g.prefix + norm(dirname.value.s) + "/")
      && (prefix.Some? && prefix.value.Str? ==> c.prefix == g.prefix + prefix.value.s)
      && (dirname.Some? && dirname.value.NoPfx? ==> c.prefix == norm(dirname.value.p) + "/")
      && (prefix.Some? && prefix.value.NoPfx? ==> c.prefix == prefix.value.p)
      && (!(dirname.Some? && dirname.value.NoPfx?) && !(prefix.Some? && prefix.value.NoPfx?) ==> Strings.StartsWith(c.prefix, g.prefix))
  {
    var c := AddGroup(g, name, dirname, prefix, norm).value.1;
    if !(dirname.Some? && dirname.value.NoPfx?) && !(prefix.Some? && prefix.value.NoPfx?) {
      assert c.prefix[..|g.prefix|] == g.prefix;
    }
  }

  /** Every group reached from a root by `add_group` has a well-typed name. */
  lemma AddGroupKeepsNamed(g: Group, name: Name, dirname: Option<Simple>, prefix: Option<Simple>, norm: string -> string)
    requires Named(g.name) && AddGroup(g, name, dirname, prefix, norm).Ok?
    ensures Named(AddGroup(g, name, dirname, prefix, norm).value.1.name)
  {
    var n := AddGroup(g, name, dirname, prefix, norm).value.1.name;
    assert forall i :: 0 <= i < |n| ==> n[i] == (g.name + [name])[i];
  }

  // ---------------------------------------------------------------------------
  // create_rule

  /** The leaves of `(args, kwargs)`, positional first, in the order `map_nested` visits them. */
  function ArgLeaves(pos: seq<Struct<Arg>>, kw: seq<Entry<Arg>>): seq<Arg> {
    LeavesItems(pos, 0) + LeavesEntries(kw, 0)
  }

  /** A target of a rule under another root. */
  predicate Foreign(root: nat, a: Arg) {
    a.Target? && a.root != root
  }

  /** A `SELF` placeholder whose keys do not lead anywhere in the rule's path. */
  predicate Unresolved(path: Struct<Path>, a: Arg) {
    a.SelfRef? && DeepGet(path, a.sub).Err?
  }

  predicate BadArg(root: nat, path: Struct<Path>, a: Arg) {
    Foreign(root, a) || Unresolved(path, a)
  }

  /** `map_fn` of `create_rule`: targets become their path, placeholders the sub-structure of the rule's path. */
  function Resolve(path: Struct<Path>, a: Arg): MArg {
    match a
    case Target(_, _, p) => MPath(p)
    case SelfRef(sub) => if DeepGet(path, sub).Ok? then MTree(DeepGet(path, sub).value) else MValue(0)
    case Value(v) => MValue(v)
  }

  predicate HasSelf(ls: seq<Arg>) {
    exists k :: 0 <= k < |ls| && ls[k].SelfRef?
  }

  /** `depset`: the rules of all targets among the arguments. */
  function Deps(ls: seq<Arg>): set<nat> {
    set k | 0 <= k < |ls| && ls[k].Target? :: ls[k].rule
  }

  /** `ipaths`: the paths of all targets among the arguments. */
  function InputPaths(ls: seq<Arg>): set<Path> {
    set k | 0 <= k < |ls| && ls[k].Target? :: ls[k].path
  }

  /** `self_paths`: every path under some resolved placeholder. */
  function SelfPaths(path: Struct<Path>, ls: seq<Arg>): set<Path> {
    set k, x | 0 <= k < |ls| && ls[k].SelfRef? && DeepGet(path, ls[k].sub).Ok? && x in Leaves(DeepGet(path, ls[k].sub).value) :: x
  }

  function PathSet(path: Struct<Path>): set<Path> {
    set x | x in Leaves(path)
  }

  /** Some argument is a foreign target or an unresolved placeholder. */
  predicate AnyBad(root: nat, path: Struct<Path>, ls: seq<Arg>) {
    exists k :: 0 <= k < |ls| && BadArg(root, path, ls[k])
  }

  /** The placeholders reach every path of the rule. */
  predicate Covered(path: Struct<Path>, ls: seq<Arg>) {
    PathSet(path) <= SelfPaths(path, ls)
  }

  /** The positional arguments with every leaf resolved. */
  function ResolvedArgs(path: Struct<Path>, pos: seq<Struct<Arg>>): (r: seq<Struct<MArg>>)
    ensures |r| == |pos|
    ensures forall i :: 0 <= i < |pos| ==> Shape(r[i]) == Shape(pos[i])
  {
    var f := (a: Arg) => Resolve(path, a);
    var margs := seq(|pos|, i requires 0 <= i < |pos| => MapStructure(f, pos[i]));
    MapItemsKeepShape(f, pos, margs);
    margs
  }

  /** The keyword arguments with every leaf resolved, keys kept. */
  function ResolvedKwargs(path: Struct<Path>, kw: seq<Entry<Arg>>): (r: seq<Entry<MArg>>)
    ensures Keys(r) == Keys(kw)
  {
    var f := (a: Arg) => Resolve(path, a);
    seq(|kw|, j requires 0 <= j < |kw| => Entry(kw[j].key, MapStructure(f, kw[j].val)))
  }

  /** The whole path as the method's first argument. */
  function PathArg(path: Struct<Path>): (r: Struct<MArg>)
    ensures Shape(r) == Shape(path)
    ensures Leaves(r) == Sorting.MapSeq((p: Path) => MPath(p), Leaves(path))
  {
    var g := (p: Path) => MPath(p);
    MapKeepsShape(g, path);
    LeavesOfMap(g, path);
    MapStructure(g, path)
  }

  /** `create_rule`: resolve the arguments, check the placeholders cover every path, and pass the whole path first when no placeholder is used. */
  function CreateRule(root: nat, path: Struct<Path>, name: seq<Name>, action: Method,
                      pos: seq<Struct<Arg>>, kw: seq<Entry<Arg>>, memo: Option<Path>): (r: Result<Rule>)
    requires |name| >= 1 && Named(name)
    ensures r.Err? ==> r.error == ValueError
    ensures var ls := ArgLeaves(pos, kw);
      r.Err? <==> (|Leaves(path)| == 0 || AnyBad(root, path, ls) || (HasSelf(ls) && !Covered(path, ls)))
    ensures r.Ok? ==> r.value.name == RuleName(name) && r.value.action == action && r.value.memo == memo
    ensures r.Ok? ==> r.value.deps == Deps(ArgLeaves(pos, kw)) && r.value.ipaths == InputPaths(ArgLeaves(pos, kw))
    ensures r.Ok? ==> Keys(r.value.kwargs) == Keys(kw)
    ensures r.Ok? && HasSelf(ArgLeaves(pos, kw)) ==> r.value.args == ResolvedArgs(path, pos)
    ensures r.Ok? && !HasSelf(ArgLeaves(pos, kw)) ==> r.value.args == [PathArg(path)] + ResolvedArgs(path, pos)
  {
    var ls := ArgLeaves(pos, kw);
    if |Leaves(path)| == 0 || AnyBad(root, path, ls) then Err(ValueError)
    else if HasSelf(ls) then
      if !Covered(path, ls) then Err(ValueError)
      else Ok(Rule(RuleName(name), action, ResolvedArgs(path, pos), ResolvedKwargs(path, kw), Deps(ls), SelfPaths(path, ls), InputPaths(ls), memo))
    else
      Ok(Rule(RuleName(name), action, [PathArg(path)] + ResolvedArgs(path, pos), ResolvedKwargs(path, kw), Deps(ls), PathSet(path), InputPaths(ls), memo))
  }

  lemma MapItemsKeepShape<T, U>(f: T -> U, items: seq<Struct<T>>, a: seq<Struct<U>>)
    requires |a| == |items| && forall i :: 0 <= i < |items| ==> a[i] == MapStructure(f, items[i])
    ensures forall i :: 0 <= i < |items| ==> Shape(a[i]) == Shape(items[i])
  {
    forall i | 0 <= i < |items| {
      MapKeepsShape(f, items[i]);
    }
  }

  /** The outputs of a created rule are exactly the paths it was declared with, with or without placeholders. */
  lemma CreateRuleOutputs(root: nat, path: Struct<Path>, name: seq<Name>, action: Method,
                          pos: seq<Struct<Arg>>, kw: seq<Entry<Arg>>, memo: Option<Path>)
    requires |name| >= 1 && Named(name)
    requires CreateRule(root, path, name, action, pos, kw, memo).Ok?
    ensures CreateRule(root, path, name, action, pos, kw, memo).value.ypaths == PathSet(path)
  {
    var ls := ArgLeaves(pos, kw);
    if HasSelf(ls) {
      forall x | x in SelfPaths(path, ls)
        ensures x in PathSet(path)
      {
        var k :| 0 <= k < |ls| && ls[k].SelfRef? && DeepGet(path, ls[k].sub).Ok? && x in Leaves(DeepGet(path, ls[k].sub).value);
        DeepGetLeavesIn(path, ls[k].sub);
      }
    }
  }

  /** A created rule depends only on rules of its own root, and every target among its arguments is one of its inputs. */
  lemma CreateRuleSameRoot(root: nat, path: Struct<Path>, name: seq<Name>, action: Method,
                           pos: seq<Struct<Arg>>, kw: seq<Entry<Arg>>, memo: Option<Path>)
    requires |name| >= 1 && Named(name)
    requires CreateRule(root, path, name, action, pos, kw, memo).Ok?
    ensures var ls := ArgLeaves(pos, kw); var r := CreateRule(root, path, name, action, pos, kw, memo).value;
      forall k :: 0 <= k < |ls| && ls[k].Target? ==> ls[k].root == root && ls[k].rule in r.deps && ls[k].path in r.ipaths
  {
    var ls := ArgLeaves(pos, kw);
    assert forall k :: 0 <= k < |ls| ==> !BadArg(root, path, ls[k]);
  }

  /** Every path under a sub-structure reached by `get_deep` is a path of the whole structure. */
  lemma {:induction false} DeepGetLeavesIn<T>(s: Struct<T>, ks: seq<Key>)
    requires DeepGet(s, ks).Ok?
    ensures forall x :: x in Leaves(DeepGet(s, ks).value) ==> x in Leaves(s)
    decreases |ks|
  {
    if |ks| > 0 {
      IndexLeavesIn(s, ks[0]);
      DeepGetLeavesIn(Index(s, ks[0]).value, ks[1..]);
    }
  }

  lemma IndexLeavesIn<T>(s: Struct<T>, k: Key)
    requires Index(s, k).Ok?
    ensures forall x :: x in Leaves(Index(s, k).value) ==> x in Leaves(s)
  {
    match s
    case Leaf(_) =>
    case Tup(items) =>
      var j := if k.i >= 0 then k.i else |items| + k.i;
      ItemLeavesIn(items, 0, j);
    case Lst(items) =>
      var j := if k.i >= 0 then k.i else |items| + k.i;
      ItemLeavesIn(items, 0, j);
    case Dict(es) =>
      EntryLeavesIn(es, 0, FindKey(es, k.s).value);
  }

  lemma {:induction false} ItemLeavesIn<T>(items: seq<Struct<T>>, i: nat, j: nat)
    requires i <= j < |items|
    ensures forall x :: x in Leaves(items[j]) ==> x in LeavesItems(items, i)
    decreases j - i
  {
    if i < j {
      ItemLeavesIn(items, i + 1, j);
    }
  }

  lemma {:induction false} EntryLeavesIn<T>(es: seq<Entry<T>>, i: nat, j: nat)
    requires i <= j < |es|
    ensures forall x :: x in Leaves(es[j].val) ==> x in LeavesEntries(es, i)
    decreases j - i
  {
    if i < j {
      EntryLeavesIn(es, i + 1, j);
    }
  }

  // ---------------------------------------------------------------------------
  // _add and the root's path set

  /** The real paths a rule writes: its outputs and its memo file. */
  function Claims(rp: Path -> Path, ypaths: set<Path>, memo: Option<Path>): set<Path> {
    (set x | x in ypaths :: rp(x)) + (if memo.Some? then {rp(memo.value)} else {})
  }

  function RuleClaims(rp: Path -> Path, r: Rule): set<Path> {
    Claims(rp, r.ypaths, r.memo)
  }

  /** Every rule's real paths are recorded in the root, and no two rules share one. */
  predicate Inv(t: Tree, rp: Path -> Path) {
    (forall i :: 0 <= i < |t.rules| ==> RuleClaims(rp, t.rules[i]) <= t.used)
    && (forall i, j :: 0 <= i < j < |t.rules| ==> RuleClaims(rp, t.rules[i]) !! RuleClaims(rp, t.rules[j]))
  }

  /** The memo path, prefixed like the outputs. */
  function PrefixMemo(prefix: string, memo: Option<Simple>): (r: Result<Option<Path>>)
    ensures r.Err? <==> memo.Some? && memo.value.Other?
    ensures r.Ok? ==> (r.value.Some? <==> memo.Some?)
    ensures r.Ok? && memo.Some? ==> AddPfx(prefix, memo.value) == Ok(r.value.value)
  {
    if memo.None? then Ok(None)
    else
      var m :- AddPfx(prefix, memo.value);
      Ok(Some(m))
  }

  /** `_add` from the prefixed paths on: refuse taken paths, create the rule, record its paths. */
  function Commit(t: Tree, g: Group, name: Name, path: Struct<Path>, memo: Option<Path>, action: Method,
                  pos: seq<Struct<Arg>>, kw: seq<Entry<Arg>>, rp: Path -> Path): (r: Result<(Tree, Group)>)
    requires Named(g.name) && !name.NOther?
    ensures r.Err? ==> r.error == ValueError
    ensures !(Claims(rp, PathSet(path), memo) !! t.used) ==> r.Err?
    ensures r.Ok? ==> r.value.0.used == t.used + Claims(rp, PathSet(path), memo)
    ensures r.Ok? ==> |r.value.0.rules| == |t.rules| + 1 && r.value.0.rules[..|t.rules|] == t.rules
    ensures r.Ok? ==> r.value.1 == g.(children := g.children + {name})
  {
    var claims := Claims(rp, PathSet(path), memo);
    if !(claims !! t.used) then Err(ValueError)
    else
      var rule :- CreateRule(g.root, path, g.name + [name], action, pos, kw, memo);
      assert (t.rules + [rule])[..|t.rules|] == t.rules;
      Ok((Tree(t.used + claims, t.rules + [rule]), g.(children := g.children + {name})))
  }

  /** `Group._add`: name, duplicate and method checks, prefixing, then registration. */
  function Add(t: Tree, g: Group, name: Name, path: Struct<Simple>, memo: Option<Simple>, action: Method,
               pos: seq<Struct<Arg>>, kw: seq<Entry<Arg>>, rp: Path -> Path): (r: Result<(Tree, Group)>)
    requires Named(g.name)
    ensures name.NOther? ==> r == Err(ValueError)
    ensures !name.NOther? && name in g.children ==> r == Err(KeyError)
    ensures !name.NOther? && name !in g.children && action.NotFn? ==> r == Err(ValueError)
    ensures r.Err? ==> r.error in {ValueError, KeyError, TypeError}
    ensures HasOther(path) ==> r.Err?
    ensures r.Ok? ==> name !in g.children && !name.NOther? && !action.NotFn?
    ensures r.Ok? ==> t.used <= r.value.0.used
    ensures r.Ok? ==> |r.value.0.rules| == |t.rules| + 1 && r.value.0.rules[..|t.rules|] == t.rules
    ensures r.Ok? ==> r.value.1 == g.(children := g.children + {name})
  {
    if name.NOther? then Err(ValueError)
    else if name in g.children then Err(KeyError)
    else if action.NotFn? then Err(ValueError)
    else
      var p :- Prefixed(g.prefix, path);
      var m :- PrefixMemo(g.prefix, memo);
      Commit(t, g, name, p, m, action, pos, kw, rp)
  }

  /** Appending a rule whose real paths are all fresh keeps the root's invariant. */
  lemma InvAppend(t: Tree, rule: Rule, claims: set<Path>, rp: Path -> Path)
    requires Inv(t, rp) && RuleClaims(rp, rule) == claims && claims !! t.used
    ensures Inv(Tree(t.used + claims, t.rules + [rule]), rp)
  {
    var t' := Tree(t.used + claims, t.rules + [rule]);
    forall i, j | 0 <= i < j < |t'.rules|
      ensures RuleClaims(rp, t'.rules[i]) !! RuleClaims(rp, t'.rules[j])
    {
      if j == |t.rules| {
        assert t'.rules[i] == t.rules[i];
        assert RuleClaims(rp, t.rules[i]) <= t.used;
      } else {
        assert t'.rules[i] == t.rules[i] && t'.rules[j] == t.rules[j];
      }
    }
    forall i | 0 <= i < |t'.rules|
      ensures RuleClaims(rp, t'.rules[i]) <= t'.used
    {
      if i < |t.rules| {
        assert t'.rules[i] == t.rules[i];
      }
    }
  }

  lemma NamedAppend(ns: seq<Name>, n: Name)
    requires Named(ns) && !n.NOther?
    ensures Named(ns + [n])
  {
    assert forall i :: 0 <= i < |ns| ==> (ns + [n])[i] == ns[i];
  }

  /** A successful registration appends the created rule and records the claimed paths. */
  lemma CommitAppends(t: Tree, g: Group, name: Name, path: Struct<Path>, memo: Option<Path>, action: Method,
                      pos: seq<Struct<Arg>>, kw: seq<Entry<Arg>>, rp: Path -> Path)
    requires Named(g.name) && !name.NOther? && Named(g.name + [name])
    requires Commit(t, g, name, path, memo, action, pos, kw, rp).Ok?
    ensures CreateRule(g.root, path, g.name + [name], action, pos, kw, memo).Ok?
    ensures Claims(rp, PathSet(path), memo) !! t.used
    ensures Commit(t, g, name, path, memo, action, pos, kw, rp).value.0
         == Tree(t.used + Claims(rp, PathSet(path), memo), t.rules + [CreateRule(g.root, path, g.name + [name], action, pos, kw, memo).value])
  {
  }

  /** Registering a rule keeps the root's invariant: the new rule's real paths are exactly the fresh ones just recorded. */
  lemma CommitKeepsInv(t: Tree, g: Group, name: Name, path: Struct<Path>, memo: Option<Path>, action: Method,
                       pos: seq<Struct<Arg>>, kw: seq<Entry<Arg>>, rp: Path -> Path)
    requires Named(g.name) && !name.NOther? && Inv(t, rp)
    requires Commit(t, g, name, path, memo, action, pos, kw, rp).Ok?
    ensures Inv(Commit(t, g, name, path, memo, action, pos, kw, rp).value.0, rp)
  {
    NamedAppend(g.name, name);
    CommitAppends(t, g, name, path, memo, action, pos, kw, rp);
    var rule := CreateRule(g.root, path, g.name + [name], action, pos, kw, memo).value;
    CreateRuleOutputs(g.root, path, g.name + [name], action, pos, kw, memo);
    InvAppend(t, rule, Claims(rp, PathSet(path), memo), rp);
  }

  /** `_add` keeps the root's invariant: paths of distinct rules stay disjoint. */
  lemma AddKeepsInv(t: Tree, g: Group, name: Name, path: Struct<Simple>, memo: Option<Simple>, action: Method,
                    pos: seq<Struct<Arg>>, kw: seq<Entry<Arg>>, rp: Path -> Path)
    requires Named(g.name) && Inv(t, rp)
    requires Add(t, g, name, path, memo, action, pos, kw, rp).Ok?
    ensures Inv(Add(t, g, name, path, memo, action, pos, kw, rp).value.0, rp)
  {
    var p := Prefixed(g.prefix, path).value;
    var m := PrefixMemo(g.prefix, memo).value;
    CommitKeepsInv(t, g, name, p, m, action, pos, kw, rp);
  }

  // ---------------------------------------------------------------------------
  // add / add_memo argument dispatch

  /** A positional argument of `add`/`add_memo`: a callable, `None`, or any other value (a path, a memo path, ...). */
  datatype CallArg = Call(id: nat) | NoneArg | Val(v: Struct<Simple>)

  predicate IsMethodSlot(a: CallArg) {
    a.Call? || a.NoneArg?
  }

  /** What `add`/`add_memo` pass on to `_add`: path, memo path, the method argument (`None` for the decorator form) and where the method's own arguments start. */
  datatype Dispatch = Dispatch(path: Struct<Simple>, memo: Option<Simple>, action: CallArg, rest: nat)

  predicate NoSlotBefore(args: seq<CallArg>, n: nat)
    requires n <= |args|
  {
    forall j :: 0 <= j < n ==> !IsMethodSlot(args[j])
  }

  /** `Group.add(name, [path], method, *args)`: the path defaults to `str(name)`. */
  function AddArgs(name: Name, args: seq<CallArg>): (r: Result<Dispatch>)
    ensures name.NOther? ==> r == Err(ValueError)
    ensures !name.NOther? ==> (r.Err? <==> !(exists k :: 0 <= k < |args| && k < 2 && IsMethodSlot(args[k])))
    ensures r.Err? && !name.NOther? ==> r.error == TypeError
    ensures r.Ok? ==> (1 <= r.value.rest <= 2 && r.value.rest <= |args|
      && r.value.action == args[r.value.rest - 1] && IsMethodSlot(r.value.action)
      && NoSlotBefore(args, r.value.rest - 1) && r.value.memo.None?)
    ensures r.Ok? && r.value.rest == 1 ==> r.value.path == Leaf(Str(NameStr(name)))
    ensures r.Ok? && r.value.rest == 2 ==> args[0].Val? && r.value.path == args[0].v
  {
    if name.NOther? then Err(ValueError)
    else if |args| == 0 then Err(TypeError)
    else if IsMethodSlot(args[0]) then Ok(Dispatch(Leaf(Str(NameStr(name))), None, args[0], 1))
    else if !(|args| >= 2 && IsMethodSlot(args[1])) then Err(TypeError)
    else Ok(Dispatch(args[0].v, None, args[1], 2))
  }

  /** `Group.add_memo(name, [path, [memo_save_path]], method, *args)`: defaults `str(name)` and `str(name) + ".memo"`. */
  function AddMemoArgs(name: Name, args: seq<CallArg>): (r: Result<Dispatch>)
    ensures name.NOther? ==> r == Err(ValueError)
    ensures r.Err? && !name.NOther? ==> r.error == TypeError
    ensures !name.NOther? && |args| < 3 && NoSlotBefore(args, |args|) ==> r == Err(TypeError)
    ensures r.Ok? ==> (1 <= r.value.rest <= 3 && r.value.rest <= |args|
      && r.value.action == args[r.value.rest - 1] && NoSlotBefore(args, r.value.rest - 1)
      && (IsMethodSlot(r.value.action) || r.value.rest == 3))
    ensures r.Ok? ==> r.value.memo.Some? && r.value.memo.value.Str?
    ensures r.Ok? && r.value.rest < 3 ==> r.value.memo == Some(Str(NameStr(name) + ".memo"))
    ensures r.Ok? && r.value.rest == 1 ==> r.value.path == Leaf(Str(NameStr(name)))
    ensures r.Ok? && r.value.rest >= 2 ==> args[0].Val? && r.value.path == args[0].v
  {
    if name.NOther? then Err(ValueError)
    else if |args| < 3 && NoSlotBefore(args, |args|) then Err(TypeError)
    else if IsMethodSlot(args[0]) then
      Ok(Dispatch(Leaf(Str(NameStr(name))), Some(Str(NameStr(name) + ".memo")), args[0], 1))
    else if IsMethodSlot(args[1]) then
      Ok(Dispatch(args[0].v, Some(Str(NameStr(name) + ".memo")), args[1], 2))
    else if args[1].v.Leaf? && args[1].v.v.Str? then
      Ok(Dispatch(args[0].v, Some(args[1].v.v), args[2], 3))
    else Err(TypeError)
  }

  /** `_add`'s view of the method argument once the decorator form has been resolved. */
  function MethodOf(a: CallArg): Method
    requires !a.NoneArg?
  {
    if a.Call? then Fn(a.id) else NotFn
  }

  /** Three non-callables to `add_memo` get past the dispatch and are refused by `_add`. */
  lemma ThreeValuesReachAdd(t: Tree, g: Group, name: Name, args: seq<CallArg>, rp: Path -> Path)
    requires Named(g.name) && !name.NOther? && name !in g.children
    requires AddMemoArgs(name, args).Ok? && !IsMethodSlot(AddMemoArgs(name, args).value.action)
    ensures var d := AddMemoArgs(name, args).value;
      d.rest == 3 && Add(t, g, name, d.path, d.memo, MethodOf(d.action), [], [], rp) == Err(ValueError)
  {
  }
}
