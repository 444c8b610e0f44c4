/**
 * The group tree of the older `frontend/group.py`: child groups with their
 * path prefixes, the printable names of groups and rules, and `Group._add`,
 * which validates a rule's outputs and arguments, derives its dependencies
 * and inputs, and registers it in the tree-wide path tables.
 */
module FrontendGroup {
  import opened Wrappers
  import opened Paths
  import Nest
  import Strings
  import Sorting
  import Selector

  /** `File` or `VFile`: two files are equal when class and path agree. */
  datatype FFile = FFile(isVf: bool, path: Path)

  /** A `name` argument: a str (or path-like), or anything else. */
  datatype StrArg = SArg(s: string) | NotStr

  datatype Group = Group(prefix: string, name: seq<string>, children: set<string>)

  // ---------------------------------------------------------------------------
  // Groups

  /** `str(Path(d))` on an already normalised path: only `""` changes, to `"."`. */
  function NormDir(d: string): string {
    if d == "" then "." else d
  }

  /** The child prefix: an absolute one is kept, a relative one extends the parent's. */
  function ChildPrefix(parent: string, p: string): string {
    if IsAbs(p) then p else parent + p
  }

  /** `Group.add_group(name, dirname=None, *, prefix=None)`: the updated parent and the new child. */
  function AddGroup(g: Group, name: StrArg, dirname: Option<string>, prefix: Option<string>): (r: Result<(Group, Group)>)
    ensures r.Ok? <==> name.SArg? && name.s !in g.children && name.s != "" && !(dirname.Some? && prefix.Some?)
    ensures name.NotStr? ==> r == Err(TypeError)
    ensures name.SArg? && name.s in g.children ==> r == Err(KeyError)
    ensures name.SArg? && name.s !in g.children && name.s == "" ==> r == Err(ValueError)
    ensures name.SArg? && name.s !in g.children && name.s != "" && dirname.Some? && prefix.Some? ==> r == Err(TypeError)
    ensures r.Ok? ==> r.value.0 == g.(children := g.children + {name.s})
    ensures r.Ok? ==> r.value.1.name == g.name + [name.s] && r.value.1.children == {}
    ensures r.Ok? && prefix.Some? ==> r.value.1.prefix == ChildPrefix(g.prefix, prefix.value)
    ensures r.Ok? && prefix.None? ==> r.value.1.prefix == ChildPrefix(g.prefix, NormDir(dirname.GetOr(name.s)) + [Sep])
    ensures r.Ok? && prefix.None? ==> r.value.1.prefix[|r.value.1.prefix| - 1] == Sep
  {
    if name.NotStr? then Err(TypeError)
    else if name.s in g.children then Err(KeyError)
    else if name.s == "" then Err(ValueError)
    else if dirname.Some? && prefix.Some? then Err(TypeError)
    else
      var p := if prefix.Some? then prefix.value else NormDir(dirname.GetOr(name.s)) + [Sep];
      var child := Group(ChildPrefix(g.prefix, p), g.name + [name.s], {});
      Ok((g.(children := g.children + {name.s}), child))
  }

  /** Without `dirname` and `prefix` the child directory is named after the group. */
  lemma AddGroupDefaultsToName(g: Group, name: string)
    ensures AddGroup(g, SArg(name), None, None) == AddGroup(g, SArg(name), Some(name), None)
  {
  }

  /** Relative directories nest: a grandchild's prefix is the root prefix followed by both directories. */
  lemma NestedPrefixes(root: Group, a: string, b: string)
    requires a != "" && b != "" && a !in root.children
    requires !IsAbs(a) && !IsAbs(b)
    ensures AddGroup(root, SArg(a), None, None).Ok?
    ensures AddGroup(AddGroup(root, SArg(a), None, None).value.1, SArg(b), None, None).Ok?
    ensures AddGroup(AddGroup(root, SArg(a), None, None).value.1, SArg(b), None, None).value.1.prefix
      == root.prefix + a + [Sep] + b + [Sep]
    ensures AddGroup(AddGroup(root, SArg(a), None, None).value.1, SArg(b), None, None).value.1.name
      == root.name + [a, b]
  {
    var c := AddGroup(root, SArg(a), None, None).value.1;
    assert !IsAbs(a + [Sep]) by { assert (a + [Sep])[0] == a[0]; }
    assert !IsAbs(b + [Sep]) by { assert (b + [Sep])[0] == b[0]; }
    assert c.prefix == root.prefix + (a + [Sep]);
  }

  /** An absolute prefix does not depend on where the group is added. */
  lemma AbsolutePrefixIgnoresParent(g1: Group, g2: Group, name: string, p: string)
    requires name != "" && name !in g1.children && name !in g2.children
    requires IsAbs(p)
    ensures AddGroup(g1, SArg(name), None, Some(p)).Ok? && AddGroup(g2, SArg(name), None, Some(p)).Ok?
    ensures AddGroup(g1, SArg(name), None, Some(p)).value.1.prefix == AddGroup(g2, SArg(name), None, Some(p)).value.1.prefix == p
  {
  }

  /** `create_group(dirname=None, prefix=None)`: exactly one of the two must be given. */
  function CreateGroup(dirname: Option<string>, prefix: Option<string>): (r: Result<Group>)
    ensures r.Err? <==> (dirname.Some? <==> prefix.Some?)
    ensures r.Err? ==> r.error == TypeError
    ensures r.Ok? ==> r.value.name == [] && r.value.children == {}
    ensures r.Ok? && dirname.Some? ==> r.value.prefix == dirname.value + [Sep]
    ensures r.Ok? && prefix.Some? ==> r.value.prefix == prefix.value
  {
    if dirname.Some? == prefix.Some? then Err(TypeError)
    else if dirname.Some? then Ok(Group(dirname.value + [Sep], [], {}))
    else Ok(Group(prefix.value, [], {}))
  }

  /** A tree rooted at directory `d` puts a default child group in `d/<name>/`. */
  lemma CreateThenAdd(d: string, name: string)
    requires name != "" && !IsAbs(name)
    ensures CreateGroup(Some(d), None).Ok?
    ensures AddGroup(CreateGroup(Some(d), None).value, SArg(name), None, None).Ok?
    ensures AddGroup(CreateGroup(Some(d), None).value, SArg(name), None, None).value.1.prefix == d + [Sep] + name + [Sep]
  {
    assert !IsAbs(name + [Sep]) by { assert (name + [Sep])[0] == name[0]; }
  }

  // ---------------------------------------------------------------------------
  // Names

  /** `repr_group_name`: `"/"` followed by the components joined with `/`. */
  function ReprGroupName(names: seq<string>): (r: string)
    ensures |r| >= 1 && r[0] == Sep
  {
    [Sep] + Strings.Join(names, [Sep])
  }

  /** `repr_rule_name`: the group part, `:`, then the last component; an empty name raises `IndexError`. */
  function ReprRuleName(names: seq<string>): (r: Result<string>)
    ensures r.Err? <==> |names| == 0
    ensures r.Err? ==> r.error == IndexError
    ensures r.Ok? ==> Strings.EndsWith(r.value, [':'] + names[|names| - 1])
    ensures r.Ok? ==> Strings.StartsWith(r.value, ReprGroupName(names[..|names| - 1]))
  {
    if |names| == 0 then Err(IndexError)
    else
      var g := ReprGroupName(names[..|names| - 1]);
      var s := g + [':'] + names[|names| - 1];
      assert s[..|g|] == g;
      assert s[|s| - |[':'] + names[|names| - 1]|..] == [':'] + names[|names| - 1];
      Ok(s)
  }

  /** Components that can be written into a path-like name unambiguously. */
  predicate CleanComponents(names: seq<string>) {
    forall i :: 0 <= i < |names| ==> |names[i]| > 0 && Selector.NoChar(names[i], Sep) && Selector.NoChar(names[i], ':')
  }

  /** A printed group name is a selection pattern that selects that group's name again. */
  lemma ReprGroupNameParses(names: seq<string>)
    requires |names| >= 1 && CleanComponents(names)
    ensures Selector.ParsePattern(Selector.PatStr(ReprGroupName(names))) == Ok(names)
  {
    var s := Strings.Join(names, [Sep]);
    var t := ReprGroupName(names);
    Selector.JoinFirst(names);
    Selector.JoinLast(names);
    assert t[1..] == s;
    assert Selector.StripLeft(s) == s;
    assert Selector.StripLeft(t) == s;
    assert Selector.StripRight(s) == s;
    Selector.SplitOfJoin(names);
  }

  lemma {:induction false} JoinNoChar(ps: seq<string>, c: char)
    requires c != Sep
    requires forall i :: 0 <= i < |ps| ==> Selector.NoChar(ps[i], c)
    ensures Selector.NoChar(Strings.Join(ps, [Sep]), c)
    decreases |ps|
  {
    if |ps| > 1 {
      JoinNoChar(ps[1..], c);
      var rest := Strings.Join(ps[1..], [Sep]);
      var s := ps[0] + [Sep] + rest;
      assert forall k :: 0 <= k < |s| ==> s[k] == (if k < |ps[0]| then ps[0][k] else if k == |ps[0]| then Sep else rest[k - |ps[0]| - 1]);
    }
  }

  lemma GroupNameLength(names: seq<string>)
    requires CleanComponents(names)
    ensures |names| == 0 <==> |ReprGroupName(names)| == 1
  {
    if |names| > 0 {
      Selector.JoinFirst(names);
    }
  }

  /** The prefix before the only `:` is determined by the string. */
  lemma SplitAtColon(a: string, x: string, b: string, y: string)
    requires Selector.NoChar(a, ':') && Selector.NoChar(b, ':')
    requires a + [':'] + x == b + [':'] + y
    ensures a == b && x == y
  {
    var s := a + [':'] + x;
    assert (b + [':'] + y)[|a|] == ':';
    assert (a + [':'] + x)[|b|] == ':';
    assert |a| == |b|;
    assert a == s[..|a|] && b == s[..|b|];
    assert x == s[|a| + 1..] && y == s[|b| + 1..];
  }

  /** Distinct group names print differently. */
  lemma ReprGroupNameInjective(a: seq<string>, b: seq<string>)
    requires CleanComponents(a) && CleanComponents(b)
    requires ReprGroupName(a) == ReprGroupName(b)
    ensures a == b
  {
    GroupNameLength(a);
    GroupNameLength(b);
    if |a| > 0 {
      ReprGroupNameParses(a);
      ReprGroupNameParses(b);
    }
  }

  /** Distinct rule names print differently. */
  lemma ReprRuleNameInjective(a: seq<string>, b: seq<string>)
    requires CleanComponents(a) && CleanComponents(b)
    requires ReprRuleName(a).Ok? && ReprRuleName(a) == ReprRuleName(b)
    ensures a == b
  {
    var ia := a[..|a| - 1];
    var ib := b[..|b| - 1];
    var la := a[|a| - 1];
    var lb := b[|b| - 1];
    assert |b| > 0;
    assert ReprRuleName(a).value == ReprGroupName(ia) + [':'] + la;
    assert ReprRuleName(b).value == ReprGroupName(ib) + [':'] + lb;
    assert CleanComponents(ia) && CleanComponents(ib);
    assert Selector.NoChar(la, ':') && Selector.NoChar(lb, ':');
    JoinNoChar(ia, ':');
    JoinNoChar(ib, ':');
    assert Selector.NoChar(ReprGroupName(ia), ':');
    assert Selector.NoChar(ReprGroupName(ib), ':');
    SplitAtColon(ReprGroupName(ia), la, ReprGroupName(ib), lb);
    ReprGroupNameInjective(ia, ib);
    assert a == ia + [la] && b == ib + [lb];
  }

  predicate IdStart(c: char) {
    'a' <= c <= 'z' || 'A' <= c <= 'Z' || c == '_'
  }

  predicate IdChar(c: char) {
    IdStart(c) || '0' <= c <= '9'
  }

  /** `str.isidentifier` on ASCII text. */
  predicate IsIdentifier(s: string) {
    |s| > 0 && IdStart(s[0]) && forall i :: 1 <= i < |s| ==> IdChar(s[i])
  }

  /** `_ismembername`: a public identifier, usable as an attribute of the group. */
  function IsMemberName(name: string): (r: bool)
    ensures r ==> |name| > 0 && name[0] != '_'
    ensures r ==> IsIdentifier(name)
  {
    IsIdentifier(name) && name[0] != '_'
  }

  lemma MemberNameExamples()
    ensures IsMemberName("foo1") && IsMemberName("a_b")
    ensures !IsMemberName("_foo") && !IsMemberName("1a") && !IsMemberName("") && !IsMemberName("a-b")
  {
    assert "a-b"[1] == '-';
  }

  // ---------------------------------------------------------------------------
  // Expanding SELF in the arguments

  /** An argument leaf: a file, a `SELF[...]` reference with its keys, or any other value. */
  datatype ArgLeaf = AFile(f: FFile) | ASelf(keys: seq<Nest.Key>) | AValue

  /** An argument leaf once SELF is expanded. */
  datatype Item = IFile(f: FFile) | IValue

  function AsItem(f: FFile): Item {
    IFile(f)
  }

  /** Every SELF among `ls` names a part of `files`. */
  predicate AllResolve(ls: seq<ArgLeaf>, files: Nest.Struct<FFile>) {
    forall k :: 0 <= k < |ls| && ls[k].ASelf? ==> Nest.DeepGet(files, ls[k].keys).Ok?
  }

  predicate AnySelf(ls: seq<ArgLeaf>) {
    exists k :: 0 <= k < |ls| && ls[k].ASelf?
  }

  lemma ConcatLeaves(a: seq<ArgLeaf>, b: seq<ArgLeaf>, files: Nest.Struct<FFile>)
    ensures AllResolve(a + b, files) <==> AllResolve(a, files) && AllResolve(b, files)
    ensures AnySelf(a + b) <==> AnySelf(a) || AnySelf(b)
  {
    var c := a + b;
    assert forall k :: 0 <= k < |a| ==> c[k] == a[k];
    assert forall k :: 0 <= k < |b| ==> c[|a| + k] == b[k];
    if AllResolve(a, files) && AllResolve(b, files) {
      forall k | 0 <= k < |c| && c[k].ASelf? ensures Nest.DeepGet(files, c[k].keys).Ok? {
        if k >= |a| { assert c[k] == b[k - |a|]; }
      }
    }
    if AnySelf(c) {
      var k :| 0 <= k < |c| && c[k].ASelf?;
      if k < |a| { assert a[k].ASelf?; } else { assert b[k - |a|].ASelf?; }
    }
    if AnySelf(b) {
      var k :| 0 <= k < |b| && b[k].ASelf?;
      assert c[|a| + k].ASelf?;
    }
    if AnySelf(a) {
      var k :| 0 <= k < |a| && a[k].ASelf?;
      assert c[k].ASelf?;
    }
  }

  /** A leaf without SELF becomes the matching item. */
  function Plain(a: ArgLeaf): Item {
    if a.AFile? then IFile(a.f) else IValue
  }

  function ExpandLeaf(a: ArgLeaf, files: Nest.Struct<FFile>): (r: Result<(Nest.Struct<Item>, bool)>)
    ensures r.Ok? <==> AllResolve([a], files)
    ensures r.Ok? ==> (r.value.1 <==> AnySelf([a]))
    ensures r.Err? ==> r.error == ValueError
    ensures !a.ASelf? ==> r == Ok((Nest.Leaf(Plain(a)), false))
  {
    match a
    case AFile(f) => Ok((Nest.Leaf(IFile(f)), false))
    case AValue => Ok((Nest.Leaf(IValue), false))
    case ASelf(ks) =>
      assert [a][0].ASelf?;
      match Nest.DeepGet(files, ks)
      case Ok(t) => Ok((Nest.MapStructure(AsItem, t), true))
      case Err(_) => Err(ValueError)
  }

  /**
   * `map_structure(expand_self, ...)`: every SELF leaf is replaced by the part
   * of the output structure its keys select; the flag says whether any SELF was
   * met. A key that selects nothing raises `ValueError`.
   */
  function Expand(s: Nest.Struct<ArgLeaf>, files: Nest.Struct<FFile>): (r: Result<(Nest.Struct<Item>, bool)>)
    ensures r.Ok? <==> AllResolve(Nest.Leaves(s), files)
    ensures r.Ok? ==> (r.value.1 <==> AnySelf(Nest.Leaves(s)))
    ensures r.Err? ==> r.error == ValueError
    decreases s, 0
  {
    match s
    case Leaf(a) => ExpandLeaf(a, files)
    case Tup(items) =>
      var p :- ExpandItems(items, 0, files);
      Ok((Nest.Tup(p.0), p.1))
    case Lst(items) =>
      var p :- ExpandItems(items, 0, files);
      Ok((Nest.Lst(p.0), p.1))
    case Dict(es) =>
      var p :- ExpandEntries(es, 0, files);
      Ok((Nest.Dict(p.0), p.1))
  }

  function ExpandItems(items: seq<Nest.Struct<ArgLeaf>>, i: nat, files: Nest.Struct<FFile>): (r: Result<(seq<Nest.Struct<Item>>, bool)>)
    ensures r.Ok? <==> AllResolve(Nest.LeavesItems(items, i), files)
    ensures r.Ok? ==> (r.value.1 <==> AnySelf(Nest.LeavesItems(items, i)))
    ensures r.Ok? ==> |r.value.0| == |items| - i || (i >= |items| && r.value.0 == [])
    ensures r.Err? ==> r.error == ValueError
    decreases items, |items| - i
  {
    if i >= |items| then Ok(([], false))
    else
      ConcatLeaves(Nest.Leaves(items[i]), Nest.LeavesItems(items, i + 1), files);
      var h :- Expand(items[i], files);
      var t :- ExpandItems(items, i + 1, files);
      Ok(([h.0] + t.0, h.1 || t.1))
  }

  function ExpandEntries(es: seq<Nest.Entry<ArgLeaf>>, i: nat, files: Nest.Struct<FFile>): (r: Result<(seq<Nest.Entry<Item>>, bool)>)
    ensures r.Ok? <==> AllResolve(Nest.LeavesEntries(es, i), files)
    ensures r.Ok? ==> (r.value.1 <==> AnySelf(Nest.LeavesEntries(es, i)))
    ensures r.Ok? ==> |r.value.0| == |es| - i || (i >= |es| && r.value.0 == [])
    ensures r.Err? ==> r.error == ValueError
    decreases es, |es| - i
  {
    if i >= |es| then Ok(([], false))
    else
      ConcatLeaves(Nest.Leaves(es[i].val), Nest.LeavesEntries(es, i + 1), files);
      var h :- Expand(es[i].val, files);
      var t :- ExpandEntries(es, i + 1, files);
      Ok(([Nest.Entry(es[i].key, h.0)] + t.0, h.1 || t.1))
  }

  /** Without SELF the arguments come through unchanged. */
  lemma {:induction false} ExpandWithoutSelf(s: Nest.Struct<ArgLeaf>, files: Nest.Struct<FFile>)
    requires !AnySelf(Nest.Leaves(s))
    ensures Expand(s, files) == Ok((Nest.MapStructure(Plain, s), false))
    decreases s, 0
  {
    match s
    case Leaf(a) =>
      assert [a][0] == a;
    case Tup(items) =>
      ExpandItemsWithoutSelf(items, 0, files);
      assert Nest.MapStructure(Plain, s).items == seq(|items|, i requires 0 <= i < |items| => Nest.MapStructure(Plain, items[i]))[0..];
    case Lst(items) =>
      ExpandItemsWithoutSelf(items, 0, files);
      assert Nest.MapStructure(Plain, s).items == seq(|items|, i requires 0 <= i < |items| => Nest.MapStructure(Plain, items[i]))[0..];
    case Dict(es) =>
      ExpandEntriesWithoutSelf(es, 0, files);
      assert Nest.MapStructure(Plain, s).entries == seq(|es|, j requires 0 <= j < |es| => Nest.Entry(es[j].key, Nest.MapStructure(Plain, es[j].val)))[0..];
  }

  lemma {:induction false} ExpandItemsWithoutSelf(items: seq<Nest.Struct<ArgLeaf>>, i: nat, files: Nest.Struct<FFile>)
    requires i <= |items|
    requires !AnySelf(Nest.LeavesItems(items, i))
    ensures ExpandItems(items, i, files) == Ok((seq(|items|, k requires 0 <= k < |items| => Nest.MapStructure(Plain, items[k]))[i..], false))
    decreases items, |items| - i
  {
    var all := seq(|items|, k requires 0 <= k < |items| => Nest.MapStructure(Plain, items[k]));
    if i < |items| {
      ConcatLeaves(Nest.Leaves(items[i]), Nest.LeavesItems(items, i + 1), files);
      ExpandWithoutSelf(items[i], files);
      ExpandItemsWithoutSelf(items, i + 1, files);
      assert all[i..] == [all[i]] + all[i + 1..];
    }
  }

  lemma {:induction false} ExpandEntriesWithoutSelf(es: seq<Nest.Entry<ArgLeaf>>, i: nat, files: Nest.Struct<FFile>)
    requires i <= |es|
    requires !AnySelf(Nest.LeavesEntries(es, i))
    ensures ExpandEntries(es, i, files) == Ok((seq(|es|, j requires 0 <= j < |es| => Nest.Entry(es[j].key, Nest.MapStructure(Plain, es[j].val)))[i..], false))
    decreases es, |es| - i
  {
    var all := seq(|es|, j requires 0 <= j < |es| => Nest.Entry(es[j].key, Nest.MapStructure(Plain, es[j].val)));
    if i < |es| {
      ConcatLeaves(Nest.Leaves(es[i].val), Nest.LeavesEntries(es, i + 1), files);
      ExpandWithoutSelf(es[i].val, files);
      ExpandEntriesWithoutSelf(es, i + 1, files);
      assert all[i..] == [all[i]] + all[i + 1..];
    }
  }

  // ---------------------------------------------------------------------------
  // Checks on the flattened outputs and arguments

  /** Arguments on one path are one file, and each agrees with the file registered for its path; up to `n`. */
  predicate AgreeUpTo(xs: seq<Item>, n: nat, ptf: map<Path, FFile>)
    requires n <= |xs|
  {
    && (forall a, b :: 0 <= a < b < n && xs[a].IFile? && xs[b].IFile? && xs[a].f.path == xs[b].f.path ==> xs[a].f == xs[b].f)
    && (forall a :: 0 <= a < n && xs[a].IFile? && xs[a].f.path in ptf ==> ptf[xs[a].f.path] == xs[a].f)
  }

  predicate FilesAgree(xs: seq<Item>, ptf: map<Path, FFile>) {
    AgreeUpTo(xs, |xs|, ptf)
  }

  /** The `p2f` built so far: one entry per path of the files among the first `n` arguments. */
  predicate SeenUpTo(xs: seq<Item>, n: nat, p2f: map<Path, FFile>)
    requires n <= |xs|
  {
    && (forall a :: 0 <= a < n && xs[a].IFile? ==> xs[a].f.path in p2f && p2f[xs[a].f.path] == xs[a].f)
    && (forall p :: p in p2f ==> exists a :: 0 <= a < n && xs[a].IFile? && xs[a].f.path == p && p2f[p] == xs[a].f)
  }

  /**
   * The loop of `_add` that fills `p2f` and raises on a conflicting file.
   * The `TypeError` message reads `p2f[x.path]`, so when only the tree's
   * file disagrees and the path is not yet in `p2f`, building the message
   * raises `KeyError` instead.
   */
  function CheckFiles(xs: seq<Item>, i: nat, p2f: map<Path, FFile>, ptf: map<Path, FFile>): (r: Result<()>)
    requires i <= |xs|
    ensures r.Err? ==> r.error == TypeError || r.error == KeyError
    ensures i < |xs| && Conflicts(xs[i], p2f, ptf) ==> r == Err(if xs[i].f.path in p2f then TypeError else KeyError)
    decreases |xs| - i
  {
    if i == |xs| then Ok(())
    else if xs[i].IFile? then
      var x := xs[i].f;
      if (x.path in p2f && p2f[x.path] != x) || (x.path in ptf && ptf[x.path] != x) then
        Err(if x.path in p2f then TypeError else KeyError)
      else CheckFiles(xs, i + 1, p2f[x.path := x], ptf)
    else CheckFiles(xs, i + 1, p2f, ptf)
  }

  lemma {:induction false} CheckFilesFrom(xs: seq<Item>, i: nat, p2f: map<Path, FFile>, ptf: map<Path, FFile>)
    requires i <= |xs|
    requires SeenUpTo(xs, i, p2f) && AgreeUpTo(xs, i, ptf)
    ensures CheckFiles(xs, i, p2f, ptf).Ok? <==> FilesAgree(xs, ptf)
    decreases |xs| - i
  {
    if i < |xs| {
      if Conflicts(xs[i], p2f, ptf) {
        CheckFilesConflict(xs, i, p2f, ptf);
      } else {
        var p2f' := Record(xs[i], p2f);
        CheckFilesStep(xs, i, p2f, ptf);
        CheckFilesFrom(xs, i + 1, p2f', ptf);
        CheckFilesUnfold(xs, i, p2f, ptf);
      }
    }
  }

  /** `p2f[x.path] = x` for a file argument. */
  function Record(x: Item, p2f: map<Path, FFile>): map<Path, FFile> {
    if x.IFile? then p2f[x.f.path := x.f] else p2f
  }

  /** Past an argument without conflict, the loop goes on with that argument recorded. */
  lemma CheckFilesUnfold(xs: seq<Item>, i: nat, p2f: map<Path, FFile>, ptf: map<Path, FFile>)
    requires i < |xs|
    requires !Conflicts(xs[i], p2f, ptf)
    ensures CheckFiles(xs, i, p2f, ptf) == CheckFiles(xs, i + 1, Record(xs[i], p2f), ptf)
  {
  }

  /** The argument is a file that disagrees with `p2f` or with the registry. */
  predicate Conflicts(x: Item, p2f: map<Path, FFile>, ptf: map<Path, FFile>) {
    x.IFile? && ((x.f.path in p2f && p2f[x.f.path] != x.f) || (x.f.path in ptf && ptf[x.f.path] != x.f))
  }

  /** A conflicting argument means the arguments do not agree. */
  lemma CheckFilesConflict(xs: seq<Item>, i: nat, p2f: map<Path, FFile>, ptf: map<Path, FFile>)
    requires i < |xs|
    requires SeenUpTo(xs, i, p2f)
    requires Conflicts(xs[i], p2f, ptf)
    ensures !FilesAgree(xs, ptf)
  {
    var x := xs[i].f;
    if x.path in p2f && p2f[x.path] != x {
      var a :| 0 <= a < i && xs[a].IFile? && xs[a].f.path == x.path && p2f[x.path] == xs[a].f;
      assert xs[a].f != xs[i].f;
    } else {
      assert ptf[xs[i].f.path] != xs[i].f;
    }
  }

  /** An argument without conflict extends what has been seen and checked by one. */
  lemma CheckFilesStep(xs: seq<Item>, i: nat, p2f: map<Path, FFile>, ptf: map<Path, FFile>)
    requires i < |xs|
    requires SeenUpTo(xs, i, p2f) && AgreeUpTo(xs, i, ptf)
    requires !Conflicts(xs[i], p2f, ptf)
    ensures SeenUpTo(xs, i + 1, Record(xs[i], p2f))
    ensures AgreeUpTo(xs, i + 1, ptf)
  {
    AgreeStep(xs, i, p2f, ptf);
    if xs[i].IFile? {
      SeenStep(xs, i, p2f);
    }
  }

  lemma AgreeStep(xs: seq<Item>, i: nat, p2f: map<Path, FFile>, ptf: map<Path, FFile>)
    requires i < |xs|
    requires SeenUpTo(xs, i, p2f) && AgreeUpTo(xs, i, ptf)
    requires !Conflicts(xs[i], p2f, ptf)
    ensures AgreeUpTo(xs, i + 1, ptf)
  {
    if xs[i].IFile? {
      var x := xs[i].f;
      forall a | 0 <= a < i && xs[a].IFile? && xs[a].f.path == x.path
        ensures xs[a].f == x
      {
        assert p2f[x.path] == xs[a].f;
      }
    }
  }

  lemma SeenStep(xs: seq<Item>, i: nat, p2f: map<Path, FFile>)
    requires i < |xs| && xs[i].IFile?
    requires SeenUpTo(xs, i, p2f)
    requires xs[i].f.path in p2f ==> p2f[xs[i].f.path] == xs[i].f
    ensures SeenUpTo(xs, i + 1, p2f[xs[i].f.path := xs[i].f])
  {
    var x := xs[i].f;
    var p2f' := p2f[x.path := x];
    forall a | 0 <= a < i + 1 && xs[a].IFile?
      ensures xs[a].f.path in p2f' && p2f'[xs[a].f.path] == xs[a].f
    {
      if a < i && xs[a].f.path == x.path {
        assert p2f[x.path] == xs[a].f;
      }
    }
    forall p | p in p2f'
      ensures exists a :: 0 <= a < i + 1 && xs[a].IFile? && xs[a].f.path == p && p2f'[p] == xs[a].f
    {
      if p != x.path {
        var a :| 0 <= a < i && xs[a].IFile? && xs[a].f.path == p && p2f[p] == xs[a].f;
        assert p2f'[p] == xs[a].f;
      } else {
        assert xs[i].f.path == p && p2f'[p] == xs[i].f;
      }
    }
  }

  /** The conflict loop raises exactly when two arguments or an argument and the registry disagree on a path. */
  lemma CheckFilesAgree(xs: seq<Item>, ptf: map<Path, FFile>)
    ensures CheckFiles(xs, 0, map[], ptf).Ok? <==> FilesAgree(xs, ptf)
  {
    CheckFilesFrom(xs, 0, map[], ptf);
  }

  /** The paths of some files. */
  function PathsOf(fs: seq<FFile>): (r: set<Path>)
    ensures forall k :: 0 <= k < |fs| ==> fs[k].path in r
    ensures forall p :: p in r ==> exists k :: 0 <= k < |fs| && fs[k].path == p
  {
    set k | 0 <= k < |fs| :: fs[k].path
  }

  /**
   * The checks of `_add` after flattening, as written: at least one output,
   * consistent files, no output already known to the tree, every output
   * passed on. The last check's message names the undefined `unused_ofiles`,
   * so it raises `NameError`; a file that disagrees only with the tree
   * raises `KeyError` (see `CheckFiles`).
   */
  function Validate(ptr: map<Path, Option<nat>>, ptf: map<Path, FFile>, ys: seq<FFile>, xs: seq<Item>): (r: Result<()>)
    ensures r.Ok? <==>
      && |ys| > 0
      && FilesAgree(xs, ptf)
      && (forall k :: 0 <= k < |ys| ==> ys[k].path !in ptr)
      && (forall k :: 0 <= k < |ys| ==> IFile(ys[k]) in xs)
    ensures |ys| == 0 ==> r == Err(ValueError)
    ensures |ys| > 0 && !FilesAgree(xs, ptf) ==> r == Err(TypeError) || r == Err(KeyError)
    ensures |ys| > 0 && FilesAgree(xs, ptf) && (exists k :: 0 <= k < |ys| && ys[k].path in ptr) ==> r == Err(ValueError)
    ensures |ys| > 0 && FilesAgree(xs, ptf) && (forall k :: 0 <= k < |ys| ==> ys[k].path !in ptr) && r.Err? ==> r.error == NameError
  {
    CheckFilesAgree(xs, ptf);
    if |ys| == 0 then Err(ValueError)
    else if CheckFiles(xs, 0, map[], ptf).Err? then CheckFiles(xs, 0, map[], ptf)
    else if exists k :: 0 <= k < |ys| && ys[k].path in ptr then Err(ValueError)
    else if exists k :: 0 <= k < |ys| && IFile(ys[k]) !in xs then Err(NameError)
    else Ok(())
  }

  /**
   * The checks of `_add` with the exception classes the messages intend:
   * disagreeing files raise `TypeError`, unused outputs `ValueError`.
   */
  function ValidateCorrected(ptr: map<Path, Option<nat>>, ptf: map<Path, FFile>, ys: seq<FFile>, xs: seq<Item>): (r: Result<()>)
    ensures r.Ok? <==>
      && |ys| > 0
      && FilesAgree(xs, ptf)
      && (forall k :: 0 <= k < |ys| ==> ys[k].path !in ptr)
      && (forall k :: 0 <= k < |ys| ==> IFile(ys[k]) in xs)
    ensures |ys| == 0 ==> r == Err(ValueError)
    ensures |ys| > 0 && !FilesAgree(xs, ptf) ==> r == Err(TypeError)
    ensures |ys| > 0 && FilesAgree(xs, ptf) && r.Err? ==> r.error == ValueError
  {
    CheckFilesAgree(xs, ptf);
    if |ys| == 0 then Err(ValueError)
    else if CheckFiles(xs, 0, map[], ptf).Err? then Err(TypeError)
    else if exists k :: 0 <= k < |ys| && ys[k].path in ptr then Err(ValueError)
    else if exists k :: 0 <= k < |ys| && IFile(ys[k]) !in xs then Err(ValueError)
    else Ok(())
  }

  /** The class a check of `_add` evidently means to raise, given the one it raises as written. */
  function IntendedExc(e: Exc): Exc {
    match e
    case KeyError => TypeError
    case NameError => ValueError
    case _ => e
  }

  /** The correction changes only the exception classes, never whether the checks pass. */
  lemma ValidateCorrectedOnlyRenames(ptr: map<Path, Option<nat>>, ptf: map<Path, FFile>, ys: seq<FFile>, xs: seq<Item>)
    ensures ValidateCorrected(ptr, ptf, ys, xs).Ok? <==> Validate(ptr, ptf, ys, xs).Ok?
    ensures Validate(ptr, ptf, ys, xs).Err? ==> ValidateCorrected(ptr, ptf, ys, xs).error == IntendedExc(Validate(ptr, ptf, ys, xs).error)
  {
  }

  /**
   * A value file `/a` passed where the tree holds a plain file `/a`: the
   * program raises `KeyError` while building its `TypeError`.
   */
  lemma TreeConflictRaisesKeyError()
    ensures var f := FFile(false, "/a");
      var ptf := map["/a" := FFile(true, "/a")];
      && Validate(map[], ptf, [f], [IFile(f)]) == Err(KeyError)
      && ValidateCorrected(map[], ptf, [f], [IFile(f)]) == Err(TypeError)
  {
    var f := FFile(false, "/a");
    var ptf := map["/a" := FFile(true, "/a")];
    assert Conflicts(IFile(f), map[], ptf);
    assert CheckFiles([IFile(f)], 0, map[], ptf) == Err(KeyError);
  }

  /** An output `/o` that is not passed to the method: the program raises `NameError`. */
  lemma UnusedOutputRaisesNameError()
    ensures var f := FFile(false, "/o");
      && Validate(map[], map[], [f], [IValue]) == Err(NameError)
      && ValidateCorrected(map[], map[], [f], [IValue]) == Err(ValueError)
  {
    var f := FFile(false, "/o");
    assert CheckFiles([IValue], 1, map[], map[]) == Ok(());
    assert CheckFiles([IValue], 0, map[], map[]) == Ok(());
    assert IFile([f][0]) !in [IValue];
    assert FilesAgree([IValue], map[]);
    assert Validate(map[], map[], [f], [IValue]).Err?;
  }

  // ---------------------------------------------------------------------------
  // Dependencies

  /** `path_to_rule.get(f.path)` for a file argument. */
  function Producer(ptr: map<Path, Option<nat>>, x: Item): Option<nat> {
    if x.IFile? && x.f.path in ptr then ptr[x.f.path] else None
  }

  /** The producing rules of the arguments, in argument order, repetitions kept. */
  function Producers(xs: seq<Item>, ptr: map<Path, Option<nat>>): (r: seq<nat>)
    ensures forall d :: d in r <==> exists k :: 0 <= k < |xs| && Producer(ptr, xs[k]) == Some(d)
  {
    if |xs| == 0 then []
    else
      var t := Producers(xs[1..], ptr);
      assert forall k :: 1 <= k < |xs| ==> xs[k] == xs[1..][k - 1];
      match Producer(ptr, xs[0])
      case Some(d) => [d] + t
      case None => t
  }

  predicate Distinct(s: seq<nat>) {
    forall i, j :: 0 <= i < j < |s| ==> s[i] != s[j]
  }

  /** Reference: the first occurrence of every element, in order, built from the back. */
  function Dedup(ps: seq<nat>): (r: seq<nat>)
    ensures Distinct(r)
    ensures forall d :: d in r <==> d in ps
  {
    if |ps| == 0 then []
    else
      var init := ps[..|ps| - 1];
      var last := ps[|ps| - 1];
      assert ps == init + [last];
      var d := Dedup(init);
      if last in init then d else d + [last]
  }

  /** The `deplist`/`_added` loop: append a producer the first time it is met. */
  function DedupFront(ps: seq<nat>, seen: seq<nat>): seq<nat>
    decreases |ps|
  {
    if |ps| == 0 then []
    else if ps[0] in seen then DedupFront(ps[1..], seen)
    else [ps[0]] + DedupFront(ps[1..], seen + [ps[0]])
  }

  lemma {:induction false} DedupFrontExtends(pre: seq<nat>, ps: seq<nat>)
    ensures Dedup(pre) + DedupFront(ps, Dedup(pre)) == Dedup(pre + ps)
    decreases |ps|
  {
    if |ps| == 0 {
      assert pre + ps == pre;
    } else {
      var p := ps[0];
      var pre' := pre + [p];
      assert (pre + ps) == pre' + ps[1..];
      assert pre'[..|pre'| - 1] == pre && pre'[|pre'| - 1] == p;
      DedupFrontExtends(pre', ps[1..]);
      if p in pre {
        assert Dedup(pre') == Dedup(pre);
      } else {
        assert Dedup(pre') == Dedup(pre) + [p];
        assert Dedup(pre) + ([p] + DedupFront(ps[1..], Dedup(pre) + [p]))
          == (Dedup(pre) + [p]) + DedupFront(ps[1..], Dedup(pre) + [p]);
      }
    }
  }

  /** `deplist` of `_add`. */
  function DepList(xs: seq<Item>, ptr: map<Path, Option<nat>>): (r: seq<nat>)
    ensures r == Dedup(Producers(xs, ptr))
    ensures Distinct(r)
    ensures forall d :: d in r <==> exists k :: 0 <= k < |xs| && Producer(ptr, xs[k]) == Some(d)
  {
    var ps := Producers(xs, ptr);
    DedupFrontIsDedup(ps);
    DedupFront(ps, [])
  }

  /** The `deplist` loop computes the reference deduplication. */
  lemma DedupFrontIsDedup(ps: seq<nat>)
    ensures DedupFront(ps, []) == Dedup(ps)
  {
    DedupFrontExtends([], ps);
    assert [] + ps == ps;
    assert Dedup([]) == [];
  }

  // ---------------------------------------------------------------------------
  // Input files

  function Min(a: nat, b: nat): nat {
    if a < b then a else b
  }

  /**
   * `[(k, f) for k, f in zip(keys, xs) if f is a file not among the outputs]`;
   * `zip` stops at the shorter of the two.
   */
  function ZipXfiles(keys: seq<seq<Nest.Key>>, xs: seq<Item>, ypaths: set<Path>, i: nat): (r: seq<(seq<Nest.Key>, FFile)>)
    requires i <= Min(|keys|, |xs|)
    ensures forall m :: 0 <= m < |r| ==> r[m].1.path !in ypaths
    ensures forall m :: 0 <= m < |r| ==> exists k :: i <= k < Min(|keys|, |xs|) && xs[k] == IFile(r[m].1) && keys[k] == r[m].0
    ensures forall k :: i <= k < Min(|keys|, |xs|) && xs[k].IFile? && xs[k].f.path !in ypaths ==> (keys[k], xs[k].f) in r
    decreases Min(|keys|, |xs|) - i
  {
    if i == Min(|keys|, |xs|) then []
    else
      var t := ZipXfiles(keys, xs, ypaths, i + 1);
      if xs[i].IFile? && xs[i].f.path !in ypaths then [(keys[i], xs[i].f)] + t else t
  }

  lemma {:induction false} DeepKeysLength<T>(s: Nest.Struct<T>)
    ensures |Nest.DeepKeys(s)| == |Nest.Flatten(s)|
    decreases s, 0
  {
    match s
    case Leaf(_) =>
    case Tup(items) => DeepKeysItemsLength(items, 0);
    case Lst(items) => DeepKeysItemsLength(items, 0);
    case Dict(es) => DeepKeysOrdLength(es, Nest.KeyOrder(Nest.Keys(es)), 0);
  }

  lemma {:induction false} DeepKeysItemsLength<T>(items: seq<Nest.Struct<T>>, i: nat)
    ensures |Nest.DeepKeysItems(items, i)| == |Nest.FlattenItems(items, i)|
    decreases items, |items| - i
  {
    if i < |items| {
      DeepKeysLength(items[i]);
      DeepKeysItemsLength(items, i + 1);
    }
  }

  lemma {:induction false} DeepKeysOrdLength<T>(es: seq<Nest.Entry<T>>, ord: seq<nat>, k: nat)
    requires forall m :: 0 <= m < |ord| ==> ord[m] < |es|
    ensures |Nest.DeepKeysOrd(es, ord, k)| == |Nest.FlattenOrd(es, ord, k)|
    decreases es, |ord| - k
  {
    if k < |ord| {
      DeepKeysLength(es[ord[k]].val);
      DeepKeysOrdLength(es, ord, k + 1);
    }
  }

  /** `flatten((args, kwargs))`: the positional leaves, then the keyword leaves. */
  lemma FlattenPair<T>(a: Nest.Struct<T>, b: Nest.Struct<T>)
    ensures Nest.Flatten(Nest.Tup([a, b])) == Nest.Flatten(a) + Nest.Flatten(b)
  {
    var items := [a, b];
    assert Nest.FlattenItems(items, 2) == [];
    assert Nest.FlattenItems(items, 1) == Nest.Flatten(b);
  }

  /** The keys `_add` pairs with the flattened `(args, kwargs)`: those of `args` alone. */
  function ArgKeysAsWritten(pos: seq<Nest.Struct<Item>>, kw: seq<Nest.Entry<Item>>): (r: seq<seq<Nest.Key>>)
    ensures |r| == |Nest.Flatten(Nest.Tup(pos))|
  {
    DeepKeysLength(Nest.Tup(pos));
    Nest.DeepKeys(Nest.Tup(pos))
  }

  /** The keys of `args` followed by the keys of `kwargs`, one per flattened argument. */
  function ArgKeys(pos: seq<Nest.Struct<Item>>, kw: seq<Nest.Entry<Item>>): (r: seq<seq<Nest.Key>>)
    ensures |r| == |Nest.Flatten(ArgsOf(pos, kw))|
  {
    DeepKeysLength(Nest.Tup(pos));
    DeepKeysLength(Nest.Dict(kw));
    FlattenPair(Nest.Tup(pos), Nest.Dict(kw));
    Nest.DeepKeys(Nest.Tup(pos)) + Nest.DeepKeys(Nest.Dict(kw))
  }

  function ArgsOf(pos: seq<Nest.Struct<Item>>, kw: seq<Nest.Entry<Item>>): Nest.Struct<Item> {
    Nest.Tup([Nest.Tup(pos), Nest.Dict(kw)])
  }

  /** The input files of `_add` as written: `zip` drops every file passed by keyword. */
  function XfilesAsWritten(pos: seq<Nest.Struct<Item>>, kw: seq<Nest.Entry<Item>>, xs: seq<Item>, ypaths: set<Path>): (r: seq<(seq<Nest.Key>, FFile)>)
    ensures forall k :: 0 <= k < |xs| && k < |Nest.Flatten(Nest.Tup(pos))| && xs[k].IFile? && xs[k].f.path !in ypaths ==>
      (ArgKeysAsWritten(pos, kw)[k], xs[k].f) in r
    ensures forall m :: 0 <= m < |r| ==> r[m].1.path !in ypaths && IFile(r[m].1) in xs
  {
    var keys := ArgKeysAsWritten(pos, kw);
    DeepKeysLength(Nest.Tup(pos));
    var r := ZipXfiles(keys, xs, ypaths, 0);
    assert forall m :: 0 <= m < |r| ==> IFile(r[m].1) in xs by {
      forall m | 0 <= m < |r| ensures IFile(r[m].1) in xs {
        var k :| 0 <= k < Min(|keys|, |xs|) && xs[k] == IFile(r[m].1) && keys[k] == r[m].0;
      }
    }
    r
  }

  /** The input files with keyword arguments included: every argument file that is not an output. */
  function Xfiles(pos: seq<Nest.Struct<Item>>, kw: seq<Nest.Entry<Item>>, xs: seq<Item>, ypaths: set<Path>): (r: seq<(seq<Nest.Key>, FFile)>)
    requires |xs| == |Nest.Flatten(ArgsOf(pos, kw))|
    ensures forall k :: 0 <= k < |xs| && xs[k].IFile? && xs[k].f.path !in ypaths ==> (ArgKeys(pos, kw)[k], xs[k].f) in r
    ensures forall m :: 0 <= m < |r| ==> r[m].1.path !in ypaths && IFile(r[m].1) in xs
  {
    var keys := ArgKeys(pos, kw);
    var r := ZipXfiles(keys, xs, ypaths, 0);
    assert forall m :: 0 <= m < |r| ==> IFile(r[m].1) in xs by {
      forall m | 0 <= m < |r| ensures IFile(r[m].1) in xs {
        var k :| 0 <= k < Min(|keys|, |xs|) && xs[k] == IFile(r[m].1) && keys[k] == r[m].0;
      }
    }
    r
  }

  /** The arguments of the keyword example: output `/o` passed positionally, input `/i` as `src=`. */
  function KwPos(): seq<Nest.Struct<Item>> { [Nest.Leaf(IFile(FFile(false, "/o")))] }

  function KwKw(): seq<Nest.Entry<Item>> { [Nest.Entry("src", Nest.Leaf(IFile(FFile(false, "/i"))))] }

  function KwXs(): seq<Item> { [IFile(FFile(false, "/o")), IFile(FFile(false, "/i"))] }

  lemma KeywordExampleFlatten()
    ensures Nest.Flatten(Nest.Tup(KwPos())) == [IFile(FFile(false, "/o"))]
    ensures Nest.Flatten(Nest.Dict(KwKw())) == [IFile(FFile(false, "/i"))]
    ensures Nest.Flatten(ArgsOf(KwPos(), KwKw())) == KwXs()
  {
    var pos, kw := KwPos(), KwKw();
    FlattenPair(Nest.Tup(pos), Nest.Dict(kw));
    var ord := Nest.KeyOrder(Nest.Keys(kw));
    assert ord == [0];
    assert Nest.FlattenOrd(kw, ord, 1) == [];
    assert Nest.FlattenOrd(kw, ord, 0) == Nest.Flatten(kw[0].val) + Nest.FlattenOrd(kw, ord, 1);
    assert Nest.FlattenItems(pos, 1) == [];
    assert Nest.FlattenItems(pos, 0) == Nest.Flatten(pos[0]) + Nest.FlattenItems(pos, 1);
  }

  lemma KeywordExampleKeys()
    ensures Nest.DeepKeys(Nest.Tup(KwPos())) == [[Nest.KInt(0)]]
    ensures Nest.DeepKeys(Nest.Dict(KwKw())) == [[Nest.KStr("src")]]
  {
    var pos, kw := KwPos(), KwKw();
    var ord := Nest.KeyOrder(Nest.Keys(kw));
    assert ord == [0];
    assert Nest.DeepKeysItems(pos, 1) == [];
    var leafKeys: seq<seq<Nest.Key>> := [[]];
    assert [Nest.KInt(0)] + leafKeys[0] == [Nest.KInt(0)];
    assert Nest.Prefixed(Nest.KInt(0), leafKeys) == [[Nest.KInt(0)]];
    assert Nest.DeepKeysItems(pos, 0) == Nest.Prefixed(Nest.KInt(0), Nest.DeepKeys(pos[0])) + Nest.DeepKeysItems(pos, 1);
    assert Nest.DeepKeysOrd(kw, ord, 1) == [];
    assert [Nest.KStr("src")] + leafKeys[0] == [Nest.KStr("src")];
    assert Nest.Prefixed(Nest.KStr("src"), leafKeys) == [[Nest.KStr("src")]];
    assert Nest.DeepKeysOrd(kw, ord, 0) == Nest.Prefixed(Nest.KStr(kw[0].key), Nest.DeepKeys(kw[0].val)) + Nest.DeepKeysOrd(kw, ord, 1);
  }

  lemma KeywordExampleAsWritten()
    requires Nest.Flatten(ArgsOf(KwPos(), KwKw())) == KwXs()
    requires Nest.DeepKeys(Nest.Tup(KwPos())) == [[Nest.KInt(0)]]
    ensures XfilesAsWritten(KwPos(), KwKw(), KwXs(), {"/o"}) == []
  {
    assert ZipXfiles([[Nest.KInt(0)]], KwXs(), {"/o"}, 1) == [];
  }

  lemma KeywordExampleCorrected()
    requires Nest.Flatten(ArgsOf(KwPos(), KwKw())) == KwXs()
    requires ArgKeys(KwPos(), KwKw()) == [[Nest.KInt(0)], [Nest.KStr("src")]]
    ensures Xfiles(KwPos(), KwKw(), KwXs(), {"/o"}) == [([Nest.KStr("src")], FFile(false, "/i"))]
  {
    var keys := [[Nest.KInt(0)], [Nest.KStr("src")]];
    assert ZipXfiles(keys, KwXs(), {"/o"}, 2) == [];
    assert ZipXfiles(keys, KwXs(), {"/o"}, 1) == [([Nest.KStr("src")], FFile(false, "/i"))];
  }

  /** A file passed only by keyword is an input of the rule, but `_add` as written leaves it out. */
  lemma KeywordInputDropped()
    ensures var out := FFile(false, "/o");
      var inp := FFile(false, "/i");
      var pos := [Nest.Leaf(IFile(out))];
      var kw := [Nest.Entry("src", Nest.Leaf(IFile(inp)))];
      var xs := [IFile(out), IFile(inp)];
      && Nest.Flatten(ArgsOf(pos, kw)) == xs
      && XfilesAsWritten(pos, kw, xs, {"/o"}) == []
      && Xfiles(pos, kw, xs, {"/o"}) == [([Nest.KStr("src")], inp)]
  {
    KeywordExampleFlatten();
    KeywordExampleKeys();
    assert ArgKeys(KwPos(), KwKw()) == [[Nest.KInt(0)], [Nest.KStr("src")]];
    KeywordExampleAsWritten();
    KeywordExampleCorrected();
  }

  // ---------------------------------------------------------------------------
  // Registering a rule

  /** A registered rule: its outputs, its inputs with their argument keys, and the rules it depends on. */
  datatype FRule = FRule(yfiles: seq<FFile>, xfiles: seq<(seq<Nest.Key>, FFile)>, deps: seq<nat>)

  /**
   * The tables every group of a tree shares: the producing rule of each known
   * path (`None` for a path only ever read), the file object of each path, and
   * the rules with their full names. A rule is identified by its position.
   */
  datatype Info = Info(pathToRule: map<Path, Option<nat>>, pathToFile: map<Path, FFile>, rules: seq<FRule>, ruleNames: seq<string>)

  /** Every output of rule `id` is registered as produced by `id`. */
  predicate OutputsOwned(info: Info, id: nat)
    requires id < |info.rules|
  {
    forall k :: 0 <= k < |info.rules[id].yfiles| ==>
      info.rules[id].yfiles[k].path in info.pathToRule && info.pathToRule[info.rules[id].yfiles[k].path] == Some(id)
  }

  /** Every dependency of rule `id` was registered before it. */
  predicate DepsEarlier(info: Info, id: nat)
    requires id < |info.rules|
  {
    forall k :: 0 <= k < |info.rules[id].deps| ==> info.rules[id].deps[k] < id
  }

  /**
   * What `_add` keeps true of the shared tables: one name per rule, every
   * producer is a registered rule, dependencies point backwards (so the rules
   * in registration order are topologically sorted), every output points to
   * its rule, and every path with a producer entry has a file entry.
   */
  predicate Inv(info: Info) {
    && |info.ruleNames| == |info.rules|
    && (forall p :: p in info.pathToRule && info.pathToRule[p].Some? ==> info.pathToRule[p].value < |info.rules|)
    && (forall id :: 0 <= id < |info.rules| ==> DepsEarlier(info, id) && OutputsOwned(info, id))
    && (forall p :: p in info.pathToRule ==> p in info.pathToFile)
  }

  /** `for f in files_: path_to_rule[f.path] = r`. */
  function MarkOutputs(ptr: map<Path, Option<nat>>, ys: seq<FFile>, id: nat): (r: map<Path, Option<nat>>)
    ensures forall k :: 0 <= k < |ys| ==> ys[k].path in r && r[ys[k].path] == Some(id)
    ensures forall p :: p in r <==> p in ptr || p in PathsOf(ys)
    ensures forall p :: p in ptr && p !in PathsOf(ys) ==> r[p] == ptr[p]
    ensures forall p :: p in r ==> (p in ptr && r[p] == ptr[p]) || r[p] == Some(id)
    decreases |ys|
  {
    if |ys| == 0 then ptr
    else
      assert forall k :: 1 <= k < |ys| ==> ys[k] == ys[1..][k - 1];
      MarkOutputs(ptr[ys[0].path := Some(id)], ys[1..], id)
  }

  /** `for _k, f in xfiles: if f.path not in path_to_rule: path_to_rule[f.path] = None`. */
  function MarkInputs(ptr: map<Path, Option<nat>>, xf: seq<(seq<Nest.Key>, FFile)>): (r: map<Path, Option<nat>>)
    ensures forall p :: p in ptr ==> p in r && r[p] == ptr[p]
    ensures forall m :: 0 <= m < |xf| ==> xf[m].1.path in r
    ensures forall p :: p in r && p !in ptr ==> r[p] == None && exists m :: 0 <= m < |xf| && xf[m].1.path == p
    decreases |xf|
  {
    if |xf| == 0 then ptr
    else
      assert forall m :: 1 <= m < |xf| ==> xf[m] == xf[1..][m - 1];
      var p := xf[0].1.path;
      MarkInputs(if p in ptr then ptr else ptr[p := None], xf[1..])
  }

  /** `for f in chain(files_, xfiles): path_to_file[f.path] = f`. */
  function SetFiles(ptf: map<Path, FFile>, fs: seq<FFile>): (r: map<Path, FFile>)
    ensures forall p :: p in r <==> p in ptf || p in PathsOf(fs)
    ensures forall p :: p in ptf && p !in PathsOf(fs) ==> r[p] == ptf[p]
    decreases |fs|
  {
    if |fs| == 0 then ptf
    else
      assert forall k :: 1 <= k < |fs| ==> fs[k] == fs[1..][k - 1];
      SetFiles(ptf[fs[0].path := fs[0]], fs[1..])
  }

  /** Files on one path are one file, and each agrees with the file already known for its path. */
  predicate Consistent(fs: seq<FFile>, ptf: map<Path, FFile>) {
    && (forall a, b :: 0 <= a < |fs| && 0 <= b < |fs| && fs[a].path == fs[b].path ==> fs[a] == fs[b])
    && (forall a :: 0 <= a < |fs| && fs[a].path in ptf ==> ptf[fs[a].path] == fs[a])
  }

  /** Over consistent files, the table ends up holding each of them and keeps every earlier entry. */
  lemma {:induction false} SetFilesAgree(ptf: map<Path, FFile>, fs: seq<FFile>)
    requires Consistent(fs, ptf)
    ensures forall k :: 0 <= k < |fs| ==> SetFiles(ptf, fs)[fs[k].path] == fs[k]
    ensures forall p :: p in ptf ==> SetFiles(ptf, fs)[p] == ptf[p]
    decreases |fs|
  {
    if |fs| > 0 {
      var ptf' := ptf[fs[0].path := fs[0]];
      var t := fs[1..];
      assert forall k :: 1 <= k < |fs| ==> fs[k] == t[k - 1];
      assert Consistent(t, ptf') by {
        forall a | 0 <= a < |t| && t[a].path in ptf' ensures ptf'[t[a].path] == t[a] {
          assert fs[a + 1] == t[a];
        }
      }
      SetFilesAgree(ptf', t);
      forall k | 0 <= k < |fs| ensures SetFiles(ptf, fs)[fs[k].path] == fs[k] {
        if k > 0 { assert fs[k] == t[k - 1]; }
      }
    }
  }

  /** Every file drawn from arguments that agree with each other and with the table is consistent. */
  lemma AgreeConsistent(xs: seq<Item>, ptf: map<Path, FFile>, fs: seq<FFile>)
    requires FilesAgree(xs, ptf)
    requires forall k :: 0 <= k < |fs| ==> IFile(fs[k]) in xs
    ensures Consistent(fs, ptf)
  {
    forall a, b | 0 <= a < |fs| && 0 <= b < |fs| && fs[a].path == fs[b].path ensures fs[a] == fs[b] {
      var i :| 0 <= i < |xs| && xs[i] == IFile(fs[a]);
      var j :| 0 <= j < |xs| && xs[j] == IFile(fs[b]);
      if i < j {
        assert xs[i].f == xs[j].f;
      } else if j < i {
        assert xs[j].f == xs[i].f;
      }
    }
    forall a | 0 <= a < |fs| && fs[a].path in ptf ensures ptf[fs[a].path] == fs[a] {
      var i :| 0 <= i < |xs| && xs[i] == IFile(fs[a]);
      assert xs[i].IFile?;
    }
  }

  /** The files of the inputs. */
  function InputFiles(xf: seq<(seq<Nest.Key>, FFile)>): (r: seq<FFile>)
    ensures |r| == |xf|
    ensures forall m :: 0 <= m < |xf| ==> r[m] == xf[m].1
  {
    seq(|xf|, m requires 0 <= m < |xf| => xf[m].1)
  }

  /** The table updates at the end of `_add`: outputs, then inputs, then files, then the rule's full name. */
  function Register(info: Info, gname: seq<string>, name: string, ys: seq<FFile>, xf: seq<(seq<Nest.Key>, FFile)>, deps: seq<nat>): Info {
    var id := |info.rules|;
    Info(
      MarkInputs(MarkOutputs(info.pathToRule, ys, id), xf),
      SetFiles(info.pathToFile, ys + InputFiles(xf)),
      info.rules + [FRule(ys, xf, deps)],
      info.ruleNames + [Strings.Join(gname + [name], "/")])
  }

  // ---------------------------------------------------------------------------
  // `_add`

  /** An output path relative to the group is put under its prefix. */
  function AddPfx(prefix: string, f: FFile): FFile {
    if IsAbs(f.path) then f else FFile(f.isVf, prefix + f.path)
  }

  /** `os.path.abspath` on a file's path, keeping its class. */
  function NormFile(abs: Path -> Path, f: FFile): FFile {
    FFile(f.isVf, abs(f.path))
  }

  function NormItem(abs: Path -> Path, x: Item): Item {
    if x.IFile? then IFile(NormFile(abs, x.f)) else x
  }

  /** The outputs and arguments of `_add` once prefixed, expanded, flattened and normalised. */
  datatype Prepared = Prepared(ys: seq<FFile>, pos: seq<Nest.Struct<Item>>, kw: seq<Nest.Entry<Item>>, xs: seq<Item>)

  /** The outputs under the group's prefix. */
  function Prefixed(g: Group, files: Nest.Struct<FFile>): Nest.Struct<FFile> {
    Nest.MapStructure(f => AddPfx(g.prefix, f), files)
  }

  /**
   * The first half of `_add`: prefix the outputs, expand SELF in the
   * arguments (passing the outputs as first argument when no SELF is used),
   * check the signature (`sigOk` is whether `inspect.signature(method).bind`
   * accepts the arguments), then flatten and normalise outputs and arguments.
   */
  function Prepare(g: Group, files: Nest.Struct<FFile>, pos: seq<Nest.Struct<ArgLeaf>>, kw: seq<Nest.Entry<ArgLeaf>>, sigOk: bool, abs: Path -> Path): (r: Result<Prepared>)
    ensures r.Ok? <==> AllResolve(Nest.LeavesItems(pos, 0), Prefixed(g, files)) && AllResolve(Nest.LeavesEntries(kw, 0), Prefixed(g, files)) && sigOk
    ensures r.Err? ==> r.error == ValueError || (r.error == Failure && !sigOk)
    ensures r.Ok? ==> |r.value.xs| == |Nest.Flatten(ArgsOf(r.value.pos, r.value.kw))|
    ensures r.Ok? ==> forall k :: 0 <= k < |r.value.xs| ==> r.value.xs[k] == NormItem(abs, Nest.Flatten(ArgsOf(r.value.pos, r.value.kw))[k])
    ensures r.Ok? ==> WellPrepared(r.value)
    ensures r.Ok? ==> |r.value.ys| == |Nest.Flatten(Prefixed(g, files))|
    ensures r.Ok? ==> forall k :: 0 <= k < |r.value.ys| ==> r.value.ys[k] == NormFile(abs, Nest.Flatten(Prefixed(g, files))[k])
    ensures r.Ok? && !AnySelf(Nest.LeavesItems(pos, 0)) && !AnySelf(Nest.LeavesEntries(kw, 0)) ==>
      |r.value.pos| == |pos| + 1 && r.value.pos[0] == Nest.MapStructure(AsItem, Prefixed(g, files))
    ensures r.Ok? && (AnySelf(Nest.LeavesItems(pos, 0)) || AnySelf(Nest.LeavesEntries(kw, 0))) ==> |r.value.pos| == |pos|
  {
    var files1 := Prefixed(g, files);
    var pe :- ExpandItems(pos, 0, files1);
    var ke :- ExpandEntries(kw, 0, files1);
    var args := if pe.1 || ke.1 then pe.0 else [Nest.MapStructure(AsItem, files1)] + pe.0;
    if !sigOk then Err(Failure)
    else
      var fy := Nest.Flatten(files1);
      var fl := Nest.Flatten(ArgsOf(args, ke.0));
      Ok(Prepared(
        seq(|fy|, k requires 0 <= k < |fy| => NormFile(abs, fy[k])),
        args, ke.0,
        seq(|fl|, k requires 0 <= k < |fl| => NormItem(abs, fl[k]))))
  }

  /**
   * `Group._add(name, files, method, *args, **kwargs)`: the updated tables
   * and group. The new rule's id is the number of rules registered before it.
   */
  function Add(info: Info, g: Group, name: string, files: Nest.Struct<FFile>, pos: seq<Nest.Struct<ArgLeaf>>, kw: seq<Nest.Entry<ArgLeaf>>, sigOk: bool, abs: Path -> Path): (r: Result<(Info, Group)>)
    ensures name in g.children ==> r == Err(KeyError)
    ensures name !in g.children && name == "" ==> r == Err(ValueError)
    ensures r.Ok? ==> name !in g.children && name != "" && sigOk
    ensures r.Ok? ==> r.value.1 == g.(children := g.children + {name})
    ensures r.Ok? ==> |r.value.0.rules| == |info.rules| + 1 && r.value.0.rules[..|info.rules|] == info.rules
    ensures r.Ok? ==> r.value.0.ruleNames == info.ruleNames + [Strings.Join(g.name + [name], "/")]
  {
    if name in g.children then Err(KeyError)
    else if name == "" then Err(ValueError)
    else
      var pr :- Prepare(g, files, pos, kw, sigOk, abs);
      var info' :- Commit(info, g.name, name, pr);
      Ok((info', g.(children := g.children + {name})))
  }

  /** `_add` with the keyword-argument files counted as inputs. */
  function AddCorrected(info: Info, g: Group, name: string, files: Nest.Struct<FFile>, pos: seq<Nest.Struct<ArgLeaf>>, kw: seq<Nest.Entry<ArgLeaf>>, sigOk: bool, abs: Path -> Path): (r: Result<(Info, Group)>)
    ensures name in g.children ==> r == Err(KeyError)
    ensures name !in g.children && name == "" ==> r == Err(ValueError)
    ensures r.Ok? ==> name !in g.children && name != "" && sigOk
    ensures r.Ok? ==> r.value.1 == g.(children := g.children + {name})
    ensures r.Ok? ==> |r.value.0.rules| == |info.rules| + 1 && r.value.0.rules[..|info.rules|] == info.rules
    ensures r.Ok? ==> r.value.0.ruleNames == info.ruleNames + [Strings.Join(g.name + [name], "/")]
  {
    if name in g.children then Err(KeyError)
    else if name == "" then Err(ValueError)
    else
      var pr :- Prepare(g, files, pos, kw, sigOk, abs);
      var info' :- CommitCorrected(info, g.name, name, pr);
      Ok((info', g.(children := g.children + {name})))
  }

  /** The arguments line up with the keys of the structure they were flattened from. */
  predicate WellPrepared(pr: Prepared) {
    |pr.xs| == |Nest.Flatten(ArgsOf(pr.pos, pr.kw))|
  }

  /**
   * The second half of `_add` for a given list of input files `xf`: the
   * checks on the flattened files, then the dependencies and the table updates.
   */
  function CommitWith(info: Info, gname: seq<string>, name: string, pr: Prepared, xf: seq<(seq<Nest.Key>, FFile)>): (r: Result<Info>)
    ensures r.Ok? <==> Validate(info.pathToRule, info.pathToFile, pr.ys, pr.xs).Ok?
    ensures r.Err? ==> r.error == Validate(info.pathToRule, info.pathToFile, pr.ys, pr.xs).error
    ensures r.Ok? ==> |r.value.rules| == |info.rules| + 1 && r.value.rules[..|info.rules|] == info.rules
    ensures r.Ok? ==> r.value.ruleNames == info.ruleNames + [Strings.Join(gname + [name], "/")]
  {
    var _ :- Validate(info.pathToRule, info.pathToFile, pr.ys, pr.xs);
    var deps := DepList(pr.xs, info.pathToRule);
    var r := Register(info, gname, name, pr.ys, xf, deps);
    assert r.rules[..|info.rules|] == info.rules;
    Ok(r)
  }

  /** The second half of `_add` as written: the inputs are paired with the keys of `args` only. */
  function Commit(info: Info, gname: seq<string>, name: string, pr: Prepared): (r: Result<Info>)
    ensures r.Ok? <==> Validate(info.pathToRule, info.pathToFile, pr.ys, pr.xs).Ok?
    ensures r.Ok? ==> |r.value.rules| == |info.rules| + 1 && r.value.rules[..|info.rules|] == info.rules
    ensures r.Ok? ==> r.value.rules[|info.rules|].xfiles == XfilesAsWritten(pr.pos, pr.kw, pr.xs, PathsOf(pr.ys))
  {
    CommitWith(info, gname, name, pr, XfilesAsWritten(pr.pos, pr.kw, pr.xs, PathsOf(pr.ys)))
  }

  /**
   * The second half of `_add` as intended: every argument file, positional
   * or keyword, is considered as an input, and the checks raise the
   * exception classes their messages describe.
   */
  function CommitCorrected(info: Info, gname: seq<string>, name: string, pr: Prepared): (r: Result<Info>)
    requires WellPrepared(pr)
    ensures r.Ok? <==> Validate(info.pathToRule, info.pathToFile, pr.ys, pr.xs).Ok?
    ensures r.Ok? ==> |r.value.rules| == |info.rules| + 1 && r.value.rules[..|info.rules|] == info.rules
    ensures r.Err? ==> r.error == ValidateCorrected(info.pathToRule, info.pathToFile, pr.ys, pr.xs).error
    ensures r.Ok? ==> r == CommitWith(info, gname, name, pr, Xfiles(pr.pos, pr.kw, pr.xs, PathsOf(pr.ys)))
    ensures r.Ok? ==> r.value.rules[|info.rules|].xfiles == Xfiles(pr.pos, pr.kw, pr.xs, PathsOf(pr.ys))
  {
    ValidateCorrectedOnlyRenames(info.pathToRule, info.pathToFile, pr.ys, pr.xs);
    var _ :- ValidateCorrected(info.pathToRule, info.pathToFile, pr.ys, pr.xs);
    CommitWith(info, gname, name, pr, Xfiles(pr.pos, pr.kw, pr.xs, PathsOf(pr.ys)))
  }

  /** The input files are argument files that are not outputs. */
  predicate InputsFromArgs(pr: Prepared, xf: seq<(seq<Nest.Key>, FFile)>) {
    forall m :: 0 <= m < |xf| ==> xf[m].1.path !in PathsOf(pr.ys) && IFile(xf[m].1) in pr.xs
  }

  /** Every argument file that is not an output is an input. */
  predicate InputsComplete(pr: Prepared, xf: seq<(seq<Nest.Key>, FFile)>) {
    forall k :: 0 <= k < |pr.xs| && pr.xs[k].IFile? && pr.xs[k].f.path !in PathsOf(pr.ys) ==> exists m :: 0 <= m < |xf| && xf[m].1 == pr.xs[k].f
  }

  // ---------------------------------------------------------------------------
  // Properties of registration

  /** With outputs new to the table, registering keeps every earlier producer entry. */
  lemma MarkKeepsEntries(ptr: map<Path, Option<nat>>, ys: seq<FFile>, xf: seq<(seq<Nest.Key>, FFile)>, id: nat)
    requires forall k :: 0 <= k < |ys| ==> ys[k].path !in ptr
    ensures forall p :: p in ptr ==> p in MarkInputs(MarkOutputs(ptr, ys, id), xf) && MarkInputs(MarkOutputs(ptr, ys, id), xf)[p] == ptr[p]
  {
    var ptr1 := MarkOutputs(ptr, ys, id);
    forall p | p in ptr ensures p in ptr1 && ptr1[p] == ptr[p] {
      assert forall k :: 0 <= k < |ys| ==> ys[k].path != p;
    }
  }

  /** Every path of the outputs and of the inputs is a path of the files recorded for them. */
  lemma PathsOfRegistered(ys: seq<FFile>, xf: seq<(seq<Nest.Key>, FFile)>)
    ensures forall k :: 0 <= k < |ys| ==> ys[k].path in PathsOf(ys + InputFiles(xf))
    ensures forall m :: 0 <= m < |xf| ==> xf[m].1.path in PathsOf(ys + InputFiles(xf))
  {
    var fs := ys + InputFiles(xf);
    assert forall k :: 0 <= k < |ys| ==> fs[k] == ys[k];
    assert forall m :: 0 <= m < |xf| ==> fs[|ys| + m] == xf[m].1;
  }

  /** After registering rule `id`, every producer named is `id` or an earlier one. */
  lemma RegisterProducers(ptr: map<Path, Option<nat>>, ys: seq<FFile>, xf: seq<(seq<Nest.Key>, FFile)>, id: nat)
    requires forall p :: p in ptr && ptr[p].Some? ==> ptr[p].value < id
    ensures forall p :: p in MarkInputs(MarkOutputs(ptr, ys, id), xf) && MarkInputs(MarkOutputs(ptr, ys, id), xf)[p].Some? ==>
      MarkInputs(MarkOutputs(ptr, ys, id), xf)[p].value <= id
  {
  }

  /** Every path with a producer entry after registration has a file entry. */
  lemma RegisterFilesCover(ptr: map<Path, Option<nat>>, ptf: map<Path, FFile>, ys: seq<FFile>, xf: seq<(seq<Nest.Key>, FFile)>, id: nat)
    requires forall p :: p in ptr ==> p in ptf
    ensures forall p :: p in MarkInputs(MarkOutputs(ptr, ys, id), xf) ==> p in SetFiles(ptf, ys + InputFiles(xf))
  {
    PathsOfRegistered(ys, xf);
    var ptr1 := MarkOutputs(ptr, ys, id);
    var fps := PathsOf(ys + InputFiles(xf));
    forall p | p in MarkInputs(ptr1, xf) ensures p in ptf || p in fps {
      if p !in ptr1 {
        var m :| 0 <= m < |xf| && xf[m].1.path == p;
      } else if p !in ptr {
        var k :| 0 <= k < |ys| && ys[k].path == p;
      }
    }
  }

  /** Rules kept as they were, over producer entries kept as they were, stay owned and ordered. */
  lemma OldRulesKept(info: Info, r: Info)
    requires |info.rules| <= |r.rules|
    requires forall j :: 0 <= j < |info.rules| ==> r.rules[j] == info.rules[j]
    requires forall j :: 0 <= j < |info.rules| ==> DepsEarlier(info, j) && OutputsOwned(info, j)
    requires forall p :: p in info.pathToRule ==> p in r.pathToRule && r.pathToRule[p] == info.pathToRule[p]
    ensures forall j :: 0 <= j < |info.rules| ==> DepsEarlier(r, j) && OutputsOwned(r, j)
  {
    forall j | 0 <= j < |info.rules| ensures DepsEarlier(r, j) && OutputsOwned(r, j) {
      assert DepsEarlier(info, j) && OutputsOwned(info, j);
      var rule := info.rules[j];
      assert r.rules[j] == rule;
      forall k | 0 <= k < |rule.yfiles|
        ensures rule.yfiles[k].path in r.pathToRule && r.pathToRule[rule.yfiles[k].path] == Some(j)
      {
        var p := rule.yfiles[k].path;
        assert p in info.pathToRule && info.pathToRule[p] == Some(j);
      }
    }
  }

  /** Registering a rule whose outputs are new to the table keeps the earlier rules owned and ordered. */
  lemma RegisterKeepsOldRules(info: Info, gname: seq<string>, name: string, ys: seq<FFile>, xf: seq<(seq<Nest.Key>, FFile)>, deps: seq<nat>)
    requires forall j :: 0 <= j < |info.rules| ==> DepsEarlier(info, j) && OutputsOwned(info, j)
    requires forall k :: 0 <= k < |ys| ==> ys[k].path !in info.pathToRule
    ensures forall j :: 0 <= j < |info.rules| ==>
      DepsEarlier(Register(info, gname, name, ys, xf, deps), j) && OutputsOwned(Register(info, gname, name, ys, xf, deps), j)
  {
    MarkKeepsEntries(info.pathToRule, ys, xf, |info.rules|);
    OldRulesKept(info, Register(info, gname, name, ys, xf, deps));
  }

  /** The registered rule depends only on earlier rules when its dependencies are registered rules. */
  lemma RegisterNewRuleDeps(info: Info, gname: seq<string>, name: string, ys: seq<FFile>, xf: seq<(seq<Nest.Key>, FFile)>, deps: seq<nat>)
    requires forall k :: 0 <= k < |deps| ==> deps[k] < |info.rules|
    ensures DepsEarlier(Register(info, gname, name, ys, xf, deps), |info.rules|)
  {
    assert Register(info, gname, name, ys, xf, deps).rules[|info.rules|] == FRule(ys, xf, deps);
  }

  /** The registered rule owns its outputs. */
  lemma RegisterNewRule(info: Info, gname: seq<string>, name: string, ys: seq<FFile>, xf: seq<(seq<Nest.Key>, FFile)>, deps: seq<nat>)
    ensures OutputsOwned(Register(info, gname, name, ys, xf, deps), |info.rules|)
  {
    var id := |info.rules|;
    var r := Register(info, gname, name, ys, xf, deps);
    var ptr1 := MarkOutputs(info.pathToRule, ys, id);
    assert r.rules[id] == FRule(ys, xf, deps);
    forall k | 0 <= k < |ys| ensures ys[k].path in r.pathToRule && r.pathToRule[ys[k].path] == Some(id) {
      assert ys[k].path in ptr1 && ptr1[ys[k].path] == Some(id);
    }
  }

  /**
   * Registering a rule whose outputs are new to the table and whose
   * dependencies are registered rules keeps the table invariant.
   */
  lemma RegisterKeepsInv(info: Info, gname: seq<string>, name: string, ys: seq<FFile>, xf: seq<(seq<Nest.Key>, FFile)>, deps: seq<nat>)
    requires Inv(info)
    requires forall k :: 0 <= k < |ys| ==> ys[k].path !in info.pathToRule
    requires forall k :: 0 <= k < |deps| ==> deps[k] < |info.rules|
    ensures Inv(Register(info, gname, name, ys, xf, deps))
  {
    var id := |info.rules|;
    var r := Register(info, gname, name, ys, xf, deps);
    RegisterProducers(info.pathToRule, ys, xf, id);
    RegisterFilesCover(info.pathToRule, info.pathToFile, ys, xf, id);
    RegisterKeepsOldRules(info, gname, name, ys, xf, deps);
    RegisterNewRuleDeps(info, gname, name, ys, xf, deps);
    RegisterNewRule(info, gname, name, ys, xf, deps);
    InvOfParts(r, id);
  }

  /** The table invariant, assembled from its parts for the rules before `id` and for rule `id`. */
  lemma InvOfParts(r: Info, id: nat)
    requires |r.ruleNames| == |r.rules| == id + 1
    requires forall p :: p in r.pathToRule && r.pathToRule[p].Some? ==> r.pathToRule[p].value <= id
    requires forall j :: 0 <= j < id ==> DepsEarlier(r, j) && OutputsOwned(r, j)
    requires DepsEarlier(r, id) && OutputsOwned(r, id)
    requires forall p :: p in r.pathToRule ==> p in r.pathToFile
    ensures Inv(r)
  {
    forall j | 0 <= j < |r.rules| ensures DepsEarlier(r, j) && OutputsOwned(r, j) {
      if j < id {
        assert DepsEarlier(r, j) && OutputsOwned(r, j);
      }
    }
  }

  /** What a successful commit registers, spelled out. */
  lemma CommitParts(info: Info, gname: seq<string>, name: string, pr: Prepared, xf: seq<(seq<Nest.Key>, FFile)>)
    requires CommitWith(info, gname, name, pr, xf).Ok?
    ensures Validate(info.pathToRule, info.pathToFile, pr.ys, pr.xs).Ok?
    ensures CommitWith(info, gname, name, pr, xf).value == Register(info, gname, name, pr.ys, xf, DepList(pr.xs, info.pathToRule))
  {
  }

  /** Committing a rule keeps the table invariant, whatever its list of inputs. */
  lemma CommitKeepsInv(info: Info, gname: seq<string>, name: string, pr: Prepared, xf: seq<(seq<Nest.Key>, FFile)>)
    requires Inv(info)
    requires CommitWith(info, gname, name, pr, xf).Ok?
    ensures Inv(CommitWith(info, gname, name, pr, xf).value)
  {
    CommitParts(info, gname, name, pr, xf);
    var deps := DepList(pr.xs, info.pathToRule);
    DepsRegistered(pr.xs, info.pathToRule, |info.rules|);
    RegisterKeepsInv(info, gname, name, pr.ys, xf, deps);
  }

  /** The inputs of `_add` as written are argument files that are not outputs. */
  lemma XfilesAsWrittenFromArgs(pr: Prepared)
    ensures InputsFromArgs(pr, XfilesAsWritten(pr.pos, pr.kw, pr.xs, PathsOf(pr.ys)))
  {
  }

  /** The corrected inputs are exactly the argument files that are not outputs. */
  lemma XfilesFromArgs(pr: Prepared)
    requires WellPrepared(pr)
    ensures InputsFromArgs(pr, Xfiles(pr.pos, pr.kw, pr.xs, PathsOf(pr.ys)))
    ensures InputsComplete(pr, Xfiles(pr.pos, pr.kw, pr.xs, PathsOf(pr.ys)))
  {
    var xf := Xfiles(pr.pos, pr.kw, pr.xs, PathsOf(pr.ys));
    var keys := ArgKeys(pr.pos, pr.kw);
    forall k | 0 <= k < |pr.xs| && pr.xs[k].IFile? && pr.xs[k].f.path !in PathsOf(pr.ys)
      ensures exists m :: 0 <= m < |xf| && xf[m].1 == pr.xs[k].f
    {
      assert (keys[k], pr.xs[k].f) in xf;
      var m :| 0 <= m < |xf| && xf[m] == (keys[k], pr.xs[k].f);
    }
  }

  /** When every producer in the table is below `n`, so is every dependency derived from it. */
  lemma DepsRegistered(xs: seq<Item>, ptr: map<Path, Option<nat>>, n: nat)
    requires forall p :: p in ptr && ptr[p].Some? ==> ptr[p].value < n
    ensures forall k :: 0 <= k < |DepList(xs, ptr)| ==> DepList(xs, ptr)[k] < n
  {
    var deps := DepList(xs, ptr);
    forall k | 0 <= k < |deps| ensures deps[k] < n {
      var j :| 0 <= j < |xs| && Producer(ptr, xs[j]) == Some(deps[k]);
    }
  }

  /** The outputs and the inputs of a committed rule are all among its arguments. */
  lemma RegisteredFilesPassed(pr: Prepared, xf: seq<(seq<Nest.Key>, FFile)>)
    requires forall k :: 0 <= k < |pr.ys| ==> IFile(pr.ys[k]) in pr.xs
    requires forall m :: 0 <= m < |xf| ==> IFile(xf[m].1) in pr.xs
    ensures forall k :: 0 <= k < |pr.ys + InputFiles(xf)| ==> IFile((pr.ys + InputFiles(xf))[k]) in pr.xs
  {
    var fs := pr.ys + InputFiles(xf);
    forall k | 0 <= k < |fs| ensures IFile(fs[k]) in pr.xs {
      if k >= |pr.ys| { assert fs[k] == xf[k - |pr.ys|].1; }
    }
  }

  /** Committing never changes an entry of the tables: every known path keeps its producer and its file. */
  lemma CommitKeepsEntries(info: Info, gname: seq<string>, name: string, pr: Prepared, xf: seq<(seq<Nest.Key>, FFile)>)
    requires InputsFromArgs(pr, xf)
    requires CommitWith(info, gname, name, pr, xf).Ok?
    ensures var info' := CommitWith(info, gname, name, pr, xf).value;
      && (forall p :: p in info.pathToRule ==> p in info'.pathToRule && info'.pathToRule[p] == info.pathToRule[p])
      && (forall p :: p in info.pathToFile ==> p in info'.pathToFile && info'.pathToFile[p] == info.pathToFile[p])
  {
    CommitParts(info, gname, name, pr, xf);
    MarkKeepsEntries(info.pathToRule, pr.ys, xf, |info.rules|);
    RegisteredFilesPassed(pr, xf);
    AgreeConsistent(pr.xs, info.pathToFile, pr.ys + InputFiles(xf));
    SetFilesAgree(info.pathToFile, pr.ys + InputFiles(xf));
  }

  /** Over consistent files, registration records every output and input file as itself. */
  lemma RegisterRecordsFiles(info: Info, gname: seq<string>, name: string, ys: seq<FFile>, xf: seq<(seq<Nest.Key>, FFile)>, deps: seq<nat>)
    requires Consistent(ys + InputFiles(xf), info.pathToFile)
    ensures var ptf := Register(info, gname, name, ys, xf, deps).pathToFile;
      && (forall k :: 0 <= k < |ys| ==> ys[k].path in ptf && ptf[ys[k].path] == ys[k])
      && (forall m :: 0 <= m < |xf| ==> xf[m].1.path in ptf && ptf[xf[m].1.path] == xf[m].1)
  {
    SetFilesRecordsBoth(info.pathToFile, ys, InputFiles(xf));
  }

  /** Over consistent files given in two runs, the table ends up holding each file of both. */
  lemma SetFilesRecordsBoth(ptf: map<Path, FFile>, ys: seq<FFile>, zs: seq<FFile>)
    requires Consistent(ys + zs, ptf)
    ensures forall k :: 0 <= k < |ys| ==> ys[k].path in SetFiles(ptf, ys + zs) && SetFiles(ptf, ys + zs)[ys[k].path] == ys[k]
    ensures forall m :: 0 <= m < |zs| ==> zs[m].path in SetFiles(ptf, ys + zs) && SetFiles(ptf, ys + zs)[zs[m].path] == zs[m]
  {
    var fs := ys + zs;
    SetFilesAgree(ptf, fs);
    forall k | 0 <= k < |ys| ensures ys[k].path in PathsOf(fs) && SetFiles(ptf, fs)[ys[k].path] == ys[k] {
      assert fs[k] == ys[k];
    }
    forall m | 0 <= m < |zs| ensures zs[m].path in PathsOf(fs) && SetFiles(ptf, fs)[zs[m].path] == zs[m] {
      assert fs[|ys| + m] == zs[m];
    }
  }

  /**
   * The rule a registration adds, for outputs new to the tree, inputs that
   * are not outputs and consistent files: every output produced by the rule,
   * every input recorded, every file of the rule recorded as itself.
   */
  lemma RegisterRuleShape(info: Info, gname: seq<string>, name: string, ys: seq<FFile>, xf: seq<(seq<Nest.Key>, FFile)>, deps: seq<nat>)
    requires Consistent(ys + InputFiles(xf), info.pathToFile)
    ensures var info' := Register(info, gname, name, ys, xf, deps);
      var rule := info'.rules[|info.rules|];
      && rule.yfiles == ys && rule.xfiles == xf
      && (forall k :: 0 <= k < |rule.yfiles| ==>
            && rule.yfiles[k].path in info'.pathToRule && info'.pathToRule[rule.yfiles[k].path] == Some(|info.rules|)
            && rule.yfiles[k].path in info'.pathToFile && info'.pathToFile[rule.yfiles[k].path] == rule.yfiles[k])
      && (forall m :: 0 <= m < |rule.xfiles| ==>
            && rule.xfiles[m].1.path in info'.pathToRule
            && rule.xfiles[m].1.path in info'.pathToFile && info'.pathToFile[rule.xfiles[m].1.path] == rule.xfiles[m].1)
  {
    RegisterRecordsFiles(info, gname, name, ys, xf, deps);
    RegisterNewRule(info, gname, name, ys, xf, deps);
    assert Register(info, gname, name, ys, xf, deps).rules[|info.rules|] == FRule(ys, xf, deps);
  }

  /**
   * The rule a commit registers: at least one output, every output new to the
   * tree and now produced by the rule, every input recorded (produced by
   * another rule or by none) and never an output of the rule, and every file
   * of the rule recorded as itself.
   */
  lemma CommitRegistersRule(info: Info, gname: seq<string>, name: string, pr: Prepared, xf: seq<(seq<Nest.Key>, FFile)>)
    requires InputsFromArgs(pr, xf)
    requires CommitWith(info, gname, name, pr, xf).Ok?
    ensures var info' := CommitWith(info, gname, name, pr, xf).value;
      var rule := info'.rules[|info.rules|];
      && |rule.yfiles| > 0
      && (forall k :: 0 <= k < |rule.yfiles| ==>
            && rule.yfiles[k].path !in info.pathToRule
            && rule.yfiles[k].path in info'.pathToRule && info'.pathToRule[rule.yfiles[k].path] == Some(|info.rules|)
            && rule.yfiles[k].path in info'.pathToFile && info'.pathToFile[rule.yfiles[k].path] == rule.yfiles[k])
      && (forall m :: 0 <= m < |rule.xfiles| ==>
            && rule.xfiles[m].1.path !in PathsOf(rule.yfiles)
            && rule.xfiles[m].1.path in info'.pathToRule
            && rule.xfiles[m].1.path in info'.pathToFile && info'.pathToFile[rule.xfiles[m].1.path] == rule.xfiles[m].1)
  {
    CommitParts(info, gname, name, pr, xf);
    var deps := DepList(pr.xs, info.pathToRule);
    RegisteredFilesPassed(pr, xf);
    AgreeConsistent(pr.xs, info.pathToFile, pr.ys + InputFiles(xf));
    RegisterRuleShape(info, gname, name, pr.ys, xf, deps);
  }

  /** Every rule producing an input is among the distinct producers of the arguments. */
  lemma DepsCoverInputs(ptr: map<Path, Option<nat>>, xs: seq<Item>, xf: seq<(seq<Nest.Key>, FFile)>)
    requires forall m :: 0 <= m < |xf| ==> IFile(xf[m].1) in xs
    ensures forall m, d :: 0 <= m < |xf| && xf[m].1.path in ptr && ptr[xf[m].1.path] == Some(d) ==> d in DepList(xs, ptr)
  {
    forall m, d | 0 <= m < |xf| && xf[m].1.path in ptr && ptr[xf[m].1.path] == Some(d) ensures d in DepList(xs, ptr) {
      var k :| 0 <= k < |xs| && xs[k] == IFile(xf[m].1);
      assert Producer(ptr, xs[k]) == Some(d);
    }
  }

  /** When every argument file that is not an output is an input, every distinct producer of the arguments produces an input. */
  lemma DepsOnlyInputs(ptr: map<Path, Option<nat>>, ys: seq<FFile>, xs: seq<Item>, xf: seq<(seq<Nest.Key>, FFile)>)
    requires forall k :: 0 <= k < |ys| ==> ys[k].path !in ptr
    requires forall k :: 0 <= k < |xs| && xs[k].IFile? && xs[k].f.path !in PathsOf(ys) ==> exists m :: 0 <= m < |xf| && xf[m].1 == xs[k].f
    ensures forall d :: d in DepList(xs, ptr) ==> exists m :: 0 <= m < |xf| && xf[m].1.path in ptr && ptr[xf[m].1.path] == Some(d)
  {
    forall d | d in DepList(xs, ptr) ensures exists m :: 0 <= m < |xf| && xf[m].1.path in ptr && ptr[xf[m].1.path] == Some(d) {
      var k :| 0 <= k < |xs| && Producer(ptr, xs[k]) == Some(d);
      var x := xs[k].f;
      assert forall j :: 0 <= j < |ys| ==> ys[j].path != x.path;
      var m :| 0 <= m < |xf| && xf[m].1 == x;
    }
  }

  /**
   * The dependencies of a committed rule are distinct and include every rule
   * that produces one of its inputs.
   */
  lemma CommitDepsCoverInputs(info: Info, gname: seq<string>, name: string, pr: Prepared, xf: seq<(seq<Nest.Key>, FFile)>)
    requires InputsFromArgs(pr, xf)
    requires CommitWith(info, gname, name, pr, xf).Ok?
    ensures var rule := CommitWith(info, gname, name, pr, xf).value.rules[|info.rules|];
      && Distinct(rule.deps)
      && (forall m, d :: 0 <= m < |rule.xfiles| && rule.xfiles[m].1.path in info.pathToRule && info.pathToRule[rule.xfiles[m].1.path] == Some(d) ==> d in rule.deps)
  {
    CommitParts(info, gname, name, pr, xf);
    var deps := DepList(pr.xs, info.pathToRule);
    DepsCoverInputs(info.pathToRule, pr.xs, xf);
    assert Register(info, gname, name, pr.ys, xf, deps).rules[|info.rules|] == FRule(pr.ys, xf, deps);
  }

  /**
   * When the inputs are exactly the argument files that are not outputs, the
   * dependencies of a committed rule are exactly the distinct rules that
   * produce one of its inputs.
   */
  lemma CommitDepsExact(info: Info, gname: seq<string>, name: string, pr: Prepared, xf: seq<(seq<Nest.Key>, FFile)>)
    requires InputsFromArgs(pr, xf) && InputsComplete(pr, xf)
    requires CommitWith(info, gname, name, pr, xf).Ok?
    ensures var rule := CommitWith(info, gname, name, pr, xf).value.rules[|info.rules|];
      && Distinct(rule.deps)
      && (forall d :: d in rule.deps <==>
            exists m :: 0 <= m < |rule.xfiles| && rule.xfiles[m].1.path in info.pathToRule && info.pathToRule[rule.xfiles[m].1.path] == Some(d))
  {
    CommitParts(info, gname, name, pr, xf);
    var deps := DepList(pr.xs, info.pathToRule);
    DepsCoverInputs(info.pathToRule, pr.xs, xf);
    DepsOnlyInputs(info.pathToRule, pr.ys, pr.xs, xf);
    assert Register(info, gname, name, pr.ys, xf, deps).rules[|info.rules|] == FRule(pr.ys, xf, deps);
  }

  /**
   * With the corrected inputs, the dependencies of a committed rule are
   * exactly the distinct rules that produce one of its inputs.
   */
  lemma CommitCorrectedDepsAreProducers(info: Info, gname: seq<string>, name: string, pr: Prepared)
    requires WellPrepared(pr)
    requires CommitCorrected(info, gname, name, pr).Ok?
    ensures var rule := CommitCorrected(info, gname, name, pr).value.rules[|info.rules|];
      && Distinct(rule.deps)
      && (forall d :: d in rule.deps <==>
            exists m :: 0 <= m < |rule.xfiles| && rule.xfiles[m].1.path in info.pathToRule && info.pathToRule[rule.xfiles[m].1.path] == Some(d))
  {
    XfilesFromArgs(pr);
    CommitDepsExact(info, gname, name, pr, Xfiles(pr.pos, pr.kw, pr.xs, PathsOf(pr.ys)));
  }

  /** `_add` keeps the table invariant. */
  lemma AddKeepsInv(info: Info, g: Group, name: string, files: Nest.Struct<FFile>, pos: seq<Nest.Struct<ArgLeaf>>, kw: seq<Nest.Entry<ArgLeaf>>, sigOk: bool, abs: Path -> Path)
    requires Inv(info)
    requires Add(info, g, name, files, pos, kw, sigOk, abs).Ok?
    ensures Inv(Add(info, g, name, files, pos, kw, sigOk, abs).value.0)
  {
    var pr := Prepare(g, files, pos, kw, sigOk, abs).value;
    CommitKeepsInv(info, g.name, name, pr, XfilesAsWritten(pr.pos, pr.kw, pr.xs, PathsOf(pr.ys)));
  }

  /** `_add` never changes an entry of the tables. */
  lemma AddKeepsEntries(info: Info, g: Group, name: string, files: Nest.Struct<FFile>, pos: seq<Nest.Struct<ArgLeaf>>, kw: seq<Nest.Entry<ArgLeaf>>, sigOk: bool, abs: Path -> Path)
    requires Add(info, g, name, files, pos, kw, sigOk, abs).Ok?
    ensures var info' := Add(info, g, name, files, pos, kw, sigOk, abs).value.0;
      && (forall p :: p in info.pathToRule ==> p in info'.pathToRule && info'.pathToRule[p] == info.pathToRule[p])
      && (forall p :: p in info.pathToFile ==> p in info'.pathToFile && info'.pathToFile[p] == info.pathToFile[p])
  {
    var pr := Prepare(g, files, pos, kw, sigOk, abs).value;
    XfilesAsWrittenFromArgs(pr);
    CommitKeepsEntries(info, g.name, name, pr, XfilesAsWritten(pr.pos, pr.kw, pr.xs, PathsOf(pr.ys)));
  }

  /** With keyword files counted, the new rule depends on exactly the rules producing its inputs. */
  lemma AddCorrectedDepsAreProducers(info: Info, g: Group, name: string, files: Nest.Struct<FFile>, pos: seq<Nest.Struct<ArgLeaf>>, kw: seq<Nest.Entry<ArgLeaf>>, sigOk: bool, abs: Path -> Path)
    requires AddCorrected(info, g, name, files, pos, kw, sigOk, abs).Ok?
    ensures var rule := AddCorrected(info, g, name, files, pos, kw, sigOk, abs).value.0.rules[|info.rules|];
      && Distinct(rule.deps)
      && (forall d :: d in rule.deps <==>
            exists m :: 0 <= m < |rule.xfiles| && rule.xfiles[m].1.path in info.pathToRule && info.pathToRule[rule.xfiles[m].1.path] == Some(d))
  {
    var pr := Prepare(g, files, pos, kw, sigOk, abs).value;
    CommitCorrectedDepsAreProducers(info, g.name, name, pr);
  }
}
