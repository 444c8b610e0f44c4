/**
 * The node layer of `group_tree/core.py`: node names, the path prefix of a
 * group (`parse_args_prefix`, `concat_prefix`, `set_prefix`, `prefix`),
 * the rule ids a `make` call gathers from groups and rules
 * (`gather_raw_rule_ids`), the same-tree check of
 * `get_group_info_of_nodes`, and the dispatch of the module-level `make`.
 *
 * The tree is an arena: a node refers to its parent and children by index,
 * the root is its own parent, and a non-root node's parent has a smaller
 * index (a group exists before the children added to it).
 */
module GroupNodes {
  import opened Wrappers
  import opened Strings
  import opened Paths

  datatype Node =
    | Group(parent: nat, names: seq<string>, pfx: Option<string>, groups: seq<nat>, rules: seq<nat>, tree: nat)
    | Rule(parent: nat, names: seq<string>, rawId: nat, tree: nat)

  type Arena = seq<Node>

  /**
   * Parents come first, roots are groups named by the empty tuple, a node
   * is listed among its parent's children, and a group lists only nodes
   * whose parent it is.
   */
  predicate WellFormed(a: Arena) {
    forall n :: 0 <= n < |a| ==>
      && a[n].parent < |a|
      && (a[n].parent == n ==> a[n].Group? && |a[n].names| == 0)
      && (a[n].parent != n ==> a[n].parent < n && a[a[n].parent].Group? && |a[n].names| > 0)
      && (a[n].parent != n ==> n in Children(a[a[n].parent]))
      && (a[n].Group? ==> forall c :: c in Children(a[n]) ==> 0 <= c < |a| && c != n && a[c].parent == n)
  }

  /** `node.groups.values()` then `node.rules.values()`: the order a walk pushes the children. */
  function Children(g: Node): seq<nat>
    requires g.Group?
  {
    g.groups + g.rules
  }

  // ---------------------------------------------------------------------------
  // Names

  /** `INode.name`: `"/"` for the root, otherwise `"/"` before the `/`-joined name tuple. */
  function NodeName(names: seq<string>): (r: string)
    ensures |r| > 0 && r[0] == Sep
    ensures |names| == 0 ==> r == "/"
    ensures |names| > 0 ==> r[1..] == Join(names, "/")
  {
    if |names| == 0 then "/" else "/" + Join(names, "/")
  }

  // ---------------------------------------------------------------------------
  // Prefix arguments

  /** A Python argument: `None`, a str, a PathLike, or something else. */
  datatype Arg = ANone | AStr(s: string) | APathLike(p: string) | AOther

  /** `parse_args_prefix(dirname, prefix)`. */
  function ParsePrefix(dirname: Arg, prefix: Arg): (r: Result<string>)
    ensures dirname != ANone && prefix != ANone ==> r == Err(TypeError)
    ensures r.Err? ==> r.error == TypeError
    ensures r.Ok? && dirname != ANone ==> |r.value| > 0 && r.value[|r.value| - 1] == Sep
    ensures dirname == ANone && prefix == ANone ==> r == Ok("")
    ensures r.Ok? <==> (dirname == ANone || prefix == ANone) && dirname != AOther && prefix != AOther
  {
    if dirname != ANone && prefix != ANone then Err(TypeError)
    else if dirname != ANone then
      match dirname
      case AStr(s) => Ok(s + [Sep])
      case APathLike(p) => Ok(p + [Sep])
      case _ => Err(TypeError)
    else
      match prefix
      case ANone => Ok("")
      case AStr(s) => Ok(s)
      case APathLike(p) => Ok(p)
      case _ => Err(TypeError)
  }

  /** `h.rstrip(sep)`: the home directory without its trailing separators. */
  function RStripSep(h: string): (r: string)
    ensures |r| <= |h| && r == h[..|r|]
    ensures forall k :: |r| <= k < |h| ==> h[k] == Sep
    ensures |r| == 0 || r[|r| - 1] != Sep
  {
    if |h| > 0 && h[|h| - 1] == Sep then RStripSep(h[..|h| - 1]) else h
  }

  /** `~` alone or `~/...`: the forms expanded with the current user's home. */
  predicate OwnTilde(s: string) {
    s == "~" || (|s| >= 2 && s[0] == '~' && s[1] == Sep)
  }

  /**
   * `os.path.expanduser` for the current user's `~`, with the home directory
   * as a parameter: the home loses its trailing separators, the rest of the
   * path follows it, and an empty result becomes the root.
   */
  function ExpandUser(s: string, home: string): (r: string)
    ensures !OwnTilde(s) ==> r == s
    ensures s == "~" ==> r == (if |RStripSep(home)| == 0 then [Sep] else RStripSep(home))
    ensures OwnTilde(s) && s != "~" ==> r == RStripSep(home) + s[1..]
    ensures OwnTilde(s) ==> |r| > 0
  {
    if OwnTilde(s) then
      var t := RStripSep(home) + s[1..];
      if |t| == 0 then [Sep] else t
    else s
  }

  /** Trailing separators on the home directory never reach the expansion. */
  lemma {:induction false} ExpandUserTrailingSep(s: string, home: string)
    ensures ExpandUser(s, home + [Sep]) == ExpandUser(s, home)
  {
    assert (home + [Sep])[..|home|] == home;
  }

  /** With an absolute (or empty) home directory, `~` and `~/...` expand to an absolute path that replaces any prefix. */
  lemma {:induction false} ExpandUserAbsolute(s: string, home: string, prefix: string)
    requires OwnTilde(s)
    requires |home| == 0 || home[0] == Sep
    ensures IsAbs(ExpandUser(s, home))
    ensures ConcatPrefix(s, prefix, home) == ExpandUser(s, home)
  {
    var h := RStripSep(home);
    if |h| > 0 {
      assert h[0] == home[0];
    }
  }

  /** The root as home, a home with a trailing separator, and an empty home. */
  lemma ExpandUserExamples()
    ensures ExpandUser("~/x", "/") == "/x"
    ensures ExpandUser("~/x", "/home/u/") == "/home/u/x"
    ensures ExpandUser("~", "") == "/"
    ensures ExpandUser("~u/x", "/home/u") == "~u/x"
  {
    assert RStripSep("/") == "";
    assert RStripSep("/home/u/") == "/home/u";
  }

  /** `concat_prefix(base, prefix)`: an absolute base replaces the prefix, a relative one is appended to it. */
  function ConcatPrefix(base: string, prefix: string, home: string): (r: string)
    ensures IsAbs(ExpandUser(base, home)) ==> r == ExpandUser(base, home)
    ensures !IsAbs(ExpandUser(base, home)) ==> StartsWith(r, prefix) && r[|prefix|..] == ExpandUser(base, home)
  {
    var b := ExpandUser(base, home);
    if IsAbs(b) then b else prefix + b
  }

  /** A relative base that does not start with `~` is plainly appended. */
  lemma ConcatRelative(base: string, prefix: string, home: string)
    requires |base| > 0 && base[0] != Sep && base[0] != '~'
    ensures ConcatPrefix(base, prefix, home) == prefix + base
  {
  }

  // ---------------------------------------------------------------------------
  // set_prefix / prefix

  /** Only prefixes differ: the tree itself is untouched. */
  predicate SameShape(a: Arena, b: Arena) {
    && |a| == |b|
    && forall n :: 0 <= n < |a| ==>
      && a[n].Group? == b[n].Group? && a[n].parent == b[n].parent && a[n].names == b[n].names && a[n].tree == b[n].tree
      && (a[n].Group? ==> a[n].groups == b[n].groups && a[n].rules == b[n].rules)
      && (a[n].Rule? ==> a[n].rawId == b[n].rawId)
  }

  /** A prefix once set never changes. */
  predicate Keeps(a: Arena, b: Arena)
    requires |a| == |b|
  {
    forall n :: 0 <= n < |a| && a[n].Group? && a[n].pfx.Some? ==> b[n].Group? && b[n].pfx == a[n].pfx
  }

  /** Set prefixes only. */
  predicate Grows(a: Arena, b: Arena) {
    SameShape(a, b) && Keeps(a, b)
  }

  lemma GrowsTrans(a: Arena, b: Arena, c: Arena)
    requires Grows(a, b) && Grows(b, c)
    ensures Grows(a, c)
  {
  }

  lemma GrowsWellFormed(a: Arena, b: Arena)
    requires WellFormed(a) && SameShape(a, b)
    ensures WellFormed(b)
  {
  }

  function SetPfx(a: Arena, n: nat, p: string): (b: Arena)
    requires n < |a| && a[n].Group?
    ensures SameShape(a, b) && b[n].pfx == Some(p)
    ensures forall m :: 0 <= m < |a| && m != n ==> b[m] == a[m]
  {
    a[n := a[n].(pfx := Some(p))]
  }

  /**
   * `set_prefix(dirname, prefix)` on group `n`: refused once the prefix is
   * set; a root takes the parsed prefix as is, any other group concatenates
   * it to its parent's prefix, which reading finalizes.
   */
  function SetPrefix(a: Arena, n: nat, dirname: Arg, prefix: Arg, home: string): (r: Result<Arena>)
    requires WellFormed(a) && n < |a| && a[n].Group?
    ensures a[n].pfx.Some? ==> r == Err(Failure)
    ensures r.Ok? ==> a[n].pfx.None? && ParsePrefix(dirname, prefix).Ok?
    ensures r.Ok? ==> Grows(a, r.value) && r.value[n].pfx.Some?
    ensures r.Ok? && a[n].parent == n ==> r.value[n].pfx == Some(ParsePrefix(dirname, prefix).value)
    ensures r.Ok? && a[n].parent != n ==>
      r.value[a[n].parent].pfx.Some? &&
      r.value[n].pfx == Some(ConcatPrefix(ParsePrefix(dirname, prefix).value, r.value[a[n].parent].pfx.value, home))
    decreases n, 0
  {
    if a[n].pfx.Some? then Err(Failure)
    else
      var p :- ParsePrefix(dirname, prefix);
      if a[n].parent == n then Ok(SetPfx(a, n, p))
      else
        var (pp, a1) :- Prefix(a, a[n].parent, home);
        GrowsWellFormed(a, a1);
        Ok(SetPfx(a1, n, ConcatPrefix(p, pp, home)))
  }

  /**
   * The `prefix` property: a set prefix is returned; an unset one is
   * finalized by `set_prefix(name_tuple[-1])`; a root must have one.
   */
  function Prefix(a: Arena, n: nat, home: string): (r: Result<(string, Arena)>)
    requires WellFormed(a) && n < |a| && a[n].Group?
    ensures r.Ok? ==> Grows(a, r.value.1) && r.value.1[n].pfx == Some(r.value.0)
    ensures a[n].pfx.Some? ==> r == Ok((a[n].pfx.value, a))
    ensures a[n].pfx.None? && a[n].parent == n ==> r == Err(AssertionError)
    decreases n, 1
  {
    if a[n].pfx.Some? then Ok((a[n].pfx.value, a))
    else if a[n].parent == n then Err(AssertionError)
    else
      var a1 :- SetPrefix(a, n, AStr(a[n].names[|a[n].names| - 1]), ANone, home);
      Ok((a1[n].pfx.value, a1))
  }

  /** Every root group has its prefix: the group constructors set it. */
  predicate RootsSet(a: Arena) {
    forall n :: 0 <= n < |a| && a[n].Group? && a[n].parent == n ==> a[n].pfx.Some?
  }

  /** A group's prefix is only ever set after its parent's. */
  predicate PrefixClosed(a: Arena)
    requires WellFormed(a)
  {
    forall n :: 0 <= n < |a| && a[n].Group? && a[n].pfx.Some? && a[n].parent != n ==> a[a[n].parent].pfx.Some?
  }

  /** Once the roots have their prefixes, every group's prefix can be read. */
  lemma {:induction false} PrefixDefined(a: Arena, n: nat, home: string)
    requires WellFormed(a) && n < |a| && a[n].Group? && RootsSet(a)
    ensures Prefix(a, n, home).Ok?
    decreases n
  {
    if a[n].pfx.None? {
      PrefixDefined(a, a[n].parent, home);
    }
  }

  /** Reading a prefix keeps parents set before children. */
  lemma {:induction false} PrefixKeepsClosed(a: Arena, n: nat, home: string)
    requires WellFormed(a) && PrefixClosed(a) && n < |a| && a[n].Group?
    requires Prefix(a, n, home).Ok?
    ensures WellFormed(Prefix(a, n, home).value.1) && PrefixClosed(Prefix(a, n, home).value.1)
    decreases n, 1
  {
    GrowsWellFormed(a, Prefix(a, n, home).value.1);
    if a[n].pfx.None? {
      SetPrefixKeepsClosed(a, n, AStr(a[n].names[|a[n].names| - 1]), ANone, home);
    }
  }

  /** Setting a prefix keeps parents set before children. */
  lemma {:induction false} SetPrefixKeepsClosed(a: Arena, n: nat, dirname: Arg, prefix: Arg, home: string)
    requires WellFormed(a) && PrefixClosed(a) && n < |a| && a[n].Group?
    requires SetPrefix(a, n, dirname, prefix, home).Ok?
    ensures WellFormed(SetPrefix(a, n, dirname, prefix, home).value)
    ensures PrefixClosed(SetPrefix(a, n, dirname, prefix, home).value)
    decreases n, 0
  {
    var b := SetPrefix(a, n, dirname, prefix, home).value;
    GrowsWellFormed(a, b);
    if a[n].parent != n {
      var a1 := Prefix(a, a[n].parent, home).value.1;
      PrefixKeepsClosed(a, a[n].parent, home);
      assert b == SetPfx(a1, n, ConcatPrefix(ParsePrefix(dirname, prefix).value, a1[a[n].parent].pfx.value, home));
    }
  }

  /**
   * Reading the prefix of a group finalizes its parent's, so a later
   * `set_prefix` on the parent is refused.
   */
  lemma ChildReadFreezesParent(a: Arena, n: nat, home: string, dirname: Arg, prefix: Arg)
    requires WellFormed(a) && PrefixClosed(a) && n < |a| && a[n].Group? && a[n].parent != n
    requires Prefix(a, n, home).Ok?
    ensures WellFormed(Prefix(a, n, home).value.1)
    ensures SetPrefix(Prefix(a, n, home).value.1, a[n].parent, dirname, prefix, home) == Err(Failure)
  {
    PrefixKeepsClosed(a, n, home);
  }

  // ---------------------------------------------------------------------------
  // gather_raw_rule_ids

  /** `n` lies in the sub-tree of one of `roots`. */
  predicate Under(a: Arena, roots: seq<nat>, n: nat)
    requires WellFormed(a) && n < |a|
    decreases n
  {
    n in roots || (a[n].parent != n && Under(a, roots, a[n].parent))
  }

  /** Distinct rule nodes stand for distinct raw rules. */
  predicate RawIdsDistinct(a: Arena) {
    forall m, n :: 0 <= m < n < |a| && a[m].Rule? && a[n].Rule? ==> a[m].rawId != a[n].rawId
  }

  function Reverse(s: seq<nat>): (r: seq<nat>)
    ensures |r| == |s| && forall x :: x in r <==> x in s
  {
    if |s| == 0 then [] else
      var r := Reverse(s[1..]) + [s[0]];
      assert forall x :: x in s <==> x in s[1..] || x == s[0] by {
        assert s == [s[0]] + s[1..];
      }
      r
  }

  function RangeSet(n: nat): (r: set<nat>)
    ensures forall i :: i in r <==> 0 <= i < n
  {
    if n == 0 then {} else RangeSet(n - 1) + {n - 1}
  }

  /** The raw ids of a sequence of rule nodes. */
  function RawIds(a: Arena, order: seq<nat>): (r: seq<nat>)
    requires forall k :: 0 <= k < |order| ==> order[k] < |a| && a[order[k]].Rule?
    ensures |r| == |order|
  {
    seq(|order|, k requires 0 <= k < |order| => a[order[k]].rawId)
  }

  /** The children of a node in the sub-trees are in them too. */
  lemma UnderChild(a: Arena, roots: seq<nat>, n: nat, c: nat)
    requires WellFormed(a) && n < |a| && a[n].Group? && Under(a, roots, n) && c in Children(a[n])
    ensures c < |a| && Under(a, roots, c)
  {
  }

  /** A set that holds the roots and the children of its groups holds the whole sub-trees. */
  lemma {:induction false} ClosedHoldsUnder(a: Arena, roots: seq<nat>, vs: set<nat>, n: nat)
    requires WellFormed(a) && n < |a| && Under(a, roots, n)
    requires WalkComplete(a, roots, vs, [])
    ensures n in vs
    decreases n
  {
    if n in roots {
      assert n !in [];
    } else {
      var p := a[n].parent;
      ClosedHoldsUnder(a, roots, vs, p);
      assert n in Children(a[p]);
      assert n !in [];
    }
  }

  /** What is stacked or visited lies in the sub-trees. */
  predicate WalkSound(a: Arena, roots: seq<nat>, visited: set<nat>, stack: seq<nat>)
    requires WellFormed(a)
  {
    && (forall x :: x in stack ==> 0 <= x < |a| && Under(a, roots, x))
    && (forall v :: v in visited ==> 0 <= v < |a| && Under(a, roots, v))
  }

  /** Nothing is lost: the roots and the children of visited groups are visited or stacked. */
  predicate WalkComplete(a: Arena, roots: seq<nat>, visited: set<nat>, stack: seq<nat>)
    requires WellFormed(a)
  {
    && (forall r :: r in roots ==> r in visited || r in stack)
    && (forall v, c :: v in visited && 0 <= v < |a| && a[v].Group? && c in Children(a[v]) ==> c in visited || c in stack)
  }

  /** `order` lists the visited rule nodes, each once, and `ids` their raw ids. */
  predicate WalkListed(a: Arena, visited: set<nat>, order: seq<nat>, ids: seq<nat>) {
    && (forall k :: 0 <= k < |order| ==> order[k] in visited && order[k] < |a| && a[order[k]].Rule?)
    && (forall v :: v in visited && v < |a| && a[v].Rule? ==> v in order)
    && (forall k, m :: 0 <= k < m < |order| ==> order[k] != order[m])
    && ids == RawIds(a, order)
  }

  predicate WalkInv(a: Arena, roots: seq<nat>, visited: set<nat>, stack: seq<nat>, order: seq<nat>, ids: seq<nat>)
    requires WellFormed(a)
  {
    WalkSound(a, roots, visited, stack) && WalkComplete(a, roots, visited, stack) && WalkListed(a, visited, order, ids)
  }

  /** The raw ids of the rule nodes in the sub-trees of `roots`. */
  function SubtreeIds(a: Arena, roots: seq<nat>): set<nat>
    requires WellFormed(a)
  {
    set n: nat | n < |a| && Under(a, roots, n) && a[n].Rule? :: a[n].rawId
  }

  /** What the walk promises: the ids are exactly those of the rules in the sub-trees, each once when raw ids are distinct. */
  predicate Gathered(a: Arena, roots: seq<nat>, ids: seq<nat>)
    requires WellFormed(a)
  {
    && (forall x :: x in ids ==> x in SubtreeIds(a, roots))
    && (forall x :: x in SubtreeIds(a, roots) ==> x in ids)
    && (RawIdsDistinct(a) ==> NoDupIds(ids))
  }

  lemma WalkStart(a: Arena, roots: seq<nat>)
    requires WellFormed(a) && forall k :: 0 <= k < |roots| ==> roots[k] < |a|
    ensures WalkInv(a, roots, {}, Reverse(roots), [], [])
  {
  }

  /** The top of a non-empty stack of nodes below `n` is below `n`, and popping it leaves the rest. */
  lemma WalkPop(top: seq<nat>, n: nat)
    requires |top| > 0 && forall x :: x in top ==> x < n
    ensures top[|top| - 1] < n && top[|top| - 1] in RangeSet(n)
    ensures top == top[..|top| - 1] + [top[|top| - 1]]
  {
    assert top[|top| - 1] in top;
  }

  lemma WalkSkip(a: Arena, roots: seq<nat>, visited: set<nat>, stack: seq<nat>, order: seq<nat>, ids: seq<nat>, node: nat)
    requires WellFormed(a)
    requires WalkInv(a, roots, visited, stack + [node], order, ids) && node in visited
    ensures WalkInv(a, roots, visited, stack, order, ids)
  {
    assert forall x :: x in stack + [node] <==> x in stack || x == node;
  }

  lemma WalkRule(a: Arena, roots: seq<nat>, visited: set<nat>, stack: seq<nat>, order: seq<nat>, ids: seq<nat>, node: nat)
    requires WellFormed(a) && node < |a|
    requires WalkInv(a, roots, visited, stack + [node], order, ids) && node !in visited && a[node].Rule?
    ensures WalkInv(a, roots, visited + {node}, stack, order + [node], ids + [a[node].rawId])
  {
    PopSound(a, roots, visited, stack, node);
    PopRuleComplete(a, roots, visited, stack, node);
    ListRule(a, visited, order, ids, node);
  }

  /** Moving the top of the stack to the visited set keeps both in the sub-trees. */
  lemma PopSound(a: Arena, roots: seq<nat>, visited: set<nat>, stack: seq<nat>, node: nat)
    requires WellFormed(a) && WalkSound(a, roots, visited, stack + [node])
    ensures WalkSound(a, roots, visited + {node}, stack)
  {
    assert node in stack + [node];
    assert forall x :: x in stack ==> x in stack + [node];
  }

  /** Visiting a rule, which has no children, loses nothing. */
  lemma PopRuleComplete(a: Arena, roots: seq<nat>, visited: set<nat>, stack: seq<nat>, node: nat)
    requires WellFormed(a) && node < |a| && a[node].Rule?
    requires WalkComplete(a, roots, visited, stack + [node])
    ensures WalkComplete(a, roots, visited + {node}, stack)
  {
    assert forall x :: x in stack + [node] <==> x in stack || x == node;
  }

  /** A newly visited rule is listed once, with its raw id. */
  lemma ListRule(a: Arena, visited: set<nat>, order: seq<nat>, ids: seq<nat>, node: nat)
    requires WalkListed(a, visited, order, ids) && node < |a| && node !in visited && a[node].Rule?
    ensures WalkListed(a, visited + {node}, order + [node], ids + [a[node].rawId])
  {
    assert forall k :: 0 <= k < |order| ==> order[k] != node;
    assert RawIds(a, order + [node]) == RawIds(a, order) + [a[node].rawId];
  }

  lemma WalkGroup(a: Arena, roots: seq<nat>, visited: set<nat>, stack: seq<nat>, order: seq<nat>, ids: seq<nat>, node: nat)
    requires WellFormed(a) && node < |a|
    requires WalkInv(a, roots, visited, stack + [node], order, ids) && node !in visited && a[node].Group?
    ensures WalkInv(a, roots, visited + {node}, stack + a[node].groups + a[node].rules, order, ids)
  {
    PopSound(a, roots, visited, stack, node);
    PushChildrenSound(a, roots, visited + {node}, stack, node);
    PopGroupComplete(a, roots, visited, stack, node);
    ListGroup(a, visited, order, ids, node);
  }

  /** Stacking the children of a visited group keeps the stack in the sub-trees. */
  lemma PushChildrenSound(a: Arena, roots: seq<nat>, visited: set<nat>, stack: seq<nat>, node: nat)
    requires WellFormed(a) && node < |a| && a[node].Group?
    requires WalkSound(a, roots, visited, stack) && node in visited
    ensures WalkSound(a, roots, visited, stack + a[node].groups + a[node].rules)
  {
    var stack' := stack + a[node].groups + a[node].rules;
    assert forall x :: x in stack' <==> x in stack || x in Children(a[node]);
    forall c | c in Children(a[node])
      ensures 0 <= c < |a| && Under(a, roots, c)
    {
      UnderChild(a, roots, node, c);
    }
  }

  /** Visiting a group whose children are then stacked loses nothing. */
  lemma PopGroupComplete(a: Arena, roots: seq<nat>, visited: set<nat>, stack: seq<nat>, node: nat)
    requires WellFormed(a) && node < |a| && a[node].Group?
    requires WalkComplete(a, roots, visited, stack + [node])
    ensures WalkComplete(a, roots, visited + {node}, stack + a[node].groups + a[node].rules)
  {
    assert forall x :: x in stack + [node] <==> x in stack || x == node;
    var stack' := stack + a[node].groups + a[node].rules;
    assert forall x :: x in stack' <==> x in stack || x in Children(a[node]);
  }

  /** A visited group adds nothing to the listed rules. */
  lemma ListGroup(a: Arena, visited: set<nat>, order: seq<nat>, ids: seq<nat>, node: nat)
    requires WalkListed(a, visited, order, ids) && node < |a| && a[node].Group?
    ensures WalkListed(a, visited + {node}, order, ids)
  {
  }

  lemma WalkEnd(a: Arena, roots: seq<nat>, visited: set<nat>, order: seq<nat>, ids: seq<nat>)
    requires WellFormed(a) && WalkInv(a, roots, visited, [], order, ids)
    ensures Gathered(a, roots, ids)
  {
    EndComplete(a, roots, visited, order, ids);
    EndSound(a, roots, visited, order, ids);
    EndDistinct(a, visited, order, ids);
  }

  lemma EndComplete(a: Arena, roots: seq<nat>, visited: set<nat>, order: seq<nat>, ids: seq<nat>)
    requires WellFormed(a) && WalkComplete(a, roots, visited, []) && WalkListed(a, visited, order, ids)
    ensures forall x :: x in SubtreeIds(a, roots) ==> x in ids
  {
    forall x | x in SubtreeIds(a, roots)
      ensures x in ids
    {
      var n: nat :| n < |a| && Under(a, roots, n) && a[n].Rule? && a[n].rawId == x;
      EndHolds(a, roots, visited, n);
      ListedRawId(a, visited, order, ids, n);
    }
  }

  lemma EndHolds(a: Arena, roots: seq<nat>, visited: set<nat>, n: nat)
    requires WellFormed(a) && WalkComplete(a, roots, visited, []) && n < |a| && Under(a, roots, n)
    ensures n in visited
  {
    ClosedHoldsUnder(a, roots, visited, n);
  }

  lemma EndSound(a: Arena, roots: seq<nat>, visited: set<nat>, order: seq<nat>, ids: seq<nat>)
    requires WellFormed(a) && WalkSound(a, roots, visited, []) && WalkListed(a, visited, order, ids)
    ensures forall x :: x in ids ==> x in SubtreeIds(a, roots)
  {
    forall x | x in ids
      ensures x in SubtreeIds(a, roots)
    {
      var k :| 0 <= k < |ids| && ids[k] == x;
      var n: nat := order[k];
      assert n in visited && Under(a, roots, n);
      assert a[n].rawId == x;
    }
  }

  lemma EndDistinct(a: Arena, visited: set<nat>, order: seq<nat>, ids: seq<nat>)
    requires WalkListed(a, visited, order, ids)
    ensures RawIdsDistinct(a) ==> NoDupIds(ids)
  {
    if RawIdsDistinct(a) {
      forall k, m | 0 <= k < m < |ids|
        ensures ids[k] != ids[m]
      {
        assert ids[k] == a[order[k]].rawId && ids[m] == a[order[m]].rawId;
        assert order[k] != order[m];
      }
    }
  }

  lemma ListedRawId(a: Arena, visited: set<nat>, order: seq<nat>, ids: seq<nat>, n: nat)
    requires WalkListed(a, visited, order, ids) && n in visited && n < |a| && a[n].Rule?
    ensures a[n].rawId in ids
  {
    var k :| 0 <= k < |order| && order[k] == n;
    assert ids[k] == a[n].rawId;
  }

  /**
   * `gather_raw_rule_ids(group_or_rules)`: a depth-first walk with an
   * explicit stack that lists the raw id of every rule in the sub-trees of
   * the arguments, each rule once, ignoring nodes met again.
   */
  method GatherRawRuleIds(a: Arena, roots: seq<nat>) returns (ids: seq<nat>)
    requires WellFormed(a) && forall k :: 0 <= k < |roots| ==> roots[k] < |a|
    ensures Gathered(a, roots, ids)
  {
    var visited: set<nat> := {};
    var stack := Reverse(roots);
    ghost var order: seq<nat> := [];
    ids := [];
    WalkStart(a, roots);
    while |stack| > 0
      invariant WalkInv(a, roots, visited, stack, order, ids)
      decreases RangeSet(|a|) - visited, |stack|
    {
      var top := stack;
      var node := top[|top| - 1];
      stack := top[..|top| - 1];
      WalkPop(top, |a|);
      if node in visited {
        WalkSkip(a, roots, visited, stack, order, ids, node);
        continue;
      }
      if a[node].Rule? {
        WalkRule(a, roots, visited, stack, order, ids, node);
        order := order + [node];
        ids := ids + [a[node].rawId];
      } else {
        WalkGroup(a, roots, visited, stack, order, ids, node);
        stack := stack + a[node].groups + a[node].rules;
      }
      visited := visited + {node};
    }
    WalkEnd(a, roots, visited, order, ids);
  }

  predicate NoDupIds(ids: seq<nat>) {
    forall k, m :: 0 <= k < m < |ids| ==> ids[k] != ids[m]
  }

  // ---------------------------------------------------------------------------
  // get_group_info_of_nodes and the module-level make

  /** All the nodes belong to tree `t`. */
  predicate AllIn(a: Arena, nodes: seq<nat>, t: nat)
    requires forall k :: 0 <= k < |nodes| ==> nodes[k] < |a|
  {
    forall k :: 0 <= k < |nodes| ==> a[nodes[k]].tree == t
  }

  /** The first node whose tree differs from `t`, or `|nodes|`. */
  function FirstStranger(a: Arena, nodes: seq<nat>, t: nat): (i: nat)
    requires forall k :: 0 <= k < |nodes| ==> nodes[k] < |a|
    ensures i <= |nodes|
    ensures forall k :: 0 <= k < i ==> a[nodes[k]].tree == t
    ensures i < |nodes| ==> a[nodes[i]].tree != t
  {
    if |nodes| == 0 then 0
    else if a[nodes[0]].tree != t then 0
    else 1 + FirstStranger(a, nodes[1..], t)
  }

  /**
   * `get_group_info_of_nodes(nodes)`: the tree of the first node, an
   * internal error for no nodes, and `ValueError` when a node belongs to
   * another tree.
   */
  function GroupInfoOf(a: Arena, nodes: seq<nat>): (r: Result<nat>)
    requires forall k :: 0 <= k < |nodes| ==> nodes[k] < |a|
    ensures |nodes| == 0 <==> r == Err(Failure)
    ensures r.Ok? <==> |nodes| > 0 && AllIn(a, nodes, a[nodes[0]].tree)
    ensures r.Ok? ==> r.value == a[nodes[0]].tree
    ensures |nodes| > 0 && r.Err? ==> r.error == ValueError
  {
    if |nodes| == 0 then Err(Failure)
    else if FirstStranger(a, nodes, a[nodes[0]].tree) < |nodes| then Err(ValueError)
    else Ok(a[nodes[0]].tree)
  }

  /** What the module-level `make` hands to an engine. */
  datatype Plan = NothingToDo | Serial(ids: seq<nat>) | Parallel(ids: seq<nat>, njobs: int)

  /**
   * `make(*rule_or_groups, njobs=...)`: nothing to do for no nodes;
   * otherwise the nodes must share a tree, their rules are gathered, and
   * `njobs >= 2` selects the multi-process engine.
   */
  method MakeNodes(a: Arena, nodes: seq<nat>, njobs: Option<int>) returns (r: Result<Plan>)
    requires WellFormed(a) && forall k :: 0 <= k < |nodes| ==> nodes[k] < |a|
    ensures |nodes| == 0 <==> r == Ok(NothingToDo)
    ensures r.Ok? <==> |nodes| == 0 || AllIn(a, nodes, a[nodes[0]].tree)
    ensures r.Err? ==> r.error == ValueError
    ensures r.Ok? && !r.value.NothingToDo? ==> Gathered(a, nodes, r.value.ids)
    ensures r.Ok? && |nodes| > 0 ==> (r.value.Parallel? <==> njobs.Some? && njobs.value >= 2)
  {
    if |nodes| == 0 {
      return Ok(NothingToDo);
    }
    var info := GroupInfoOf(a, nodes);
    if info.Err? {
      return Err(info.error);
    }
    var ids := GatherRawRuleIds(a, nodes);
    if njobs.Some? && njobs.value >= 2 {
      r := Ok(Parallel(ids, njobs.value));
    } else {
      r := Ok(Serial(ids));
    }
  }
}
