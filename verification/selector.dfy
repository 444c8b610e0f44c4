/**
 * Pattern selection of `group_tree/group_mixins/selector.py`: a pattern is
 * a sequence of name components; `**` matches any number of whole
 * components, a lone `*` matches exactly one non-empty component, and `*`
 * inside a component matches any run of characters within it. Names are
 * taken relative to the selecting group, so `**` selects that group too.
 *
 * The source compiles the pattern into a regular expression and matches it
 * against the name components joined with `;`. That separator is an
 * ordinary character of names and patterns, so a component that contains
 * `;` is cut in two. The expression is anchored with `^…$` and run with
 * `re.match`, and Python's `$` also matches just before a final newline, so
 * a name ending in a newline can match a pattern ending in a literal.
 * `RxMatch` models that code; `GlobMatch` is the component-wise meaning, and
 * the two agree when no name contains `;` or a newline and no pattern
 * component contains `;`.
 */
module Selector {
  import opened Wrappers
  import opened Strings

  const Semi: char := ';'
  const Slash: char := '/'
  const Newline: char := '\n'

  predicate NoChar(s: string, c: char) {
    forall i :: 0 <= i < |s| ==> s[i] != c
  }

  // ---------------------------------------------------------------------------
  // Parsing the pattern argument

  datatype PatItem = PIStr(s: string) | PINotStr

  /** The `pattern` argument: a str, a sequence, or anything else. */
  datatype PatArg = PatStr(s: string) | PatSeq(items: seq<PatItem>) | PatOther

  function StripLeft(s: string): (r: string)
    ensures |r| <= |s| && r == s[|s| - |r|..]
    ensures |r| > 0 ==> r[0] != Slash
    ensures forall i :: 0 <= i < |s| - |r| ==> s[i] == Slash
  {
    if |s| > 0 && s[0] == Slash then StripLeft(s[1..]) else s
  }

  function StripRight(s: string): (r: string)
    ensures |r| <= |s| && r == s[..|r|]
    ensures |r| > 0 ==> r[|r| - 1] != Slash
    ensures forall i :: |r| <= i < |s| ==> s[i] == Slash
  {
    if |s| > 0 && s[|s| - 1] == Slash then StripRight(s[..|s| - 1]) else s
  }

  /** `s.strip("/")`. */
  function StripSlashes(s: string): (r: string)
    ensures |r| > 0 ==> r[0] != Slash && r[|r| - 1] != Slash
    ensures NoChar(s, Slash) ==> r == s
  {
    var l := StripLeft(s);
    var r := StripRight(l);
    if |r| > 0 then
      assert r[0] == l[0];
      r
    else r
  }

  /** The first `/` of `s`, or `|s|`. */
  function FirstSlash(s: string): (r: nat)
    ensures r <= |s| && (r < |s| ==> s[r] == Slash)
    ensures forall j :: 0 <= j < r ==> s[j] != Slash
  {
    if |s| == 0 then 0
    else if s[0] == Slash then 0
    else 1 + FirstSlash(s[1..])
  }

  /** The end of the run of `/` that starts at `i`. */
  function SkipSlashes(s: string, i: nat): (r: nat)
    requires i <= |s|
    ensures i <= r <= |s|
    ensures forall j :: i <= j < r ==> s[j] == Slash
    ensures r < |s| ==> s[r] != Slash
    decreases |s| - i
  {
    if i < |s| && s[i] == Slash then SkipSlashes(s, i + 1) else i
  }

  /** `re.split("/+", s)`. */
  function SplitRuns(s: string): (r: seq<string>)
    ensures |r| >= 1
    ensures forall i :: 0 <= i < |r| ==> NoChar(r[i], Slash)
    ensures |s| > 0 && s[0] != Slash && s[|s| - 1] != Slash ==> forall i :: 0 <= i < |r| ==> |r[i]| > 0
    decreases |s|
  {
    var i := FirstSlash(s);
    if i == |s| then [s]
    else
      var j := SkipSlashes(s, i);
      var rest := SplitRuns(s[j..]);
      assert |s| > 0 && s[0] != Slash && s[|s| - 1] != Slash ==>
          0 < i && j < |s| && s[j..][0] != Slash && s[j..][|s[j..]| - 1] != Slash by {
        if |s| > 0 && s[0] != Slash && s[|s| - 1] != Slash {
          assert s[j..][0] == s[j];
          assert s[j..][|s[j..]| - 1] == s[|s| - 1];
        }
      }
      [s[..i]] + rest
  }

  /** `_parse_args_pattern`. */
  function ParsePattern(a: PatArg): (r: Result<seq<string>>)
    ensures a.PatStr? ==> (r.Ok? <==> |a.s| > 0)
    ensures a.PatStr? && r.Ok? ==> forall i :: 0 <= i < |r.value| ==> NoChar(r.value[i], Slash)
    ensures a.PatSeq? ==> (r.Ok? <==> forall i :: 0 <= i < |a.items| ==> a.items[i].PIStr?)
    ensures a.PatSeq? && r.Ok? ==> |r.value| == |a.items| && forall i :: 0 <= i < |a.items| ==> r.value[i] == a.items[i].s
    ensures a.PatStr? && |a.s| == 0 ==> r == Err(ValueError)
    ensures !a.PatStr? && r.Err? ==> r.error == TypeError
  {
    match a
    case PatStr(s) =>
      if |s| == 0 then Err(ValueError) else Ok(SplitRuns(StripSlashes(s)))
    case PatSeq(items) =>
      if forall i :: 0 <= i < |items| ==> items[i].PIStr? then
        Ok(seq(|items|, i requires 0 <= i < |items| => items[i].s))
      else Err(TypeError)
    case PatOther => Err(TypeError)
  }

  lemma {:induction false} JoinFirst(ps: seq<string>)
    requires |ps| >= 1 && |ps[0]| > 0
    ensures |Join(ps, "/")| > 0 && Join(ps, "/")[0] == ps[0][0]
  {
  }

  lemma {:induction false} JoinLast(ps: seq<string>)
    requires |ps| >= 1 && |ps[|ps| - 1]| > 0
    ensures |Join(ps, "/")| > 0 && Join(ps, "/")[|Join(ps, "/")| - 1] == ps[|ps| - 1][|ps[|ps| - 1]| - 1]
    decreases |ps|
  {
    if |ps| > 1 {
      JoinLast(ps[1..]);
    }
  }

  /** Non-empty components without `/`, written with `/` between them, parse back to themselves. */
  lemma {:induction false} SplitOfJoin(ps: seq<string>)
    requires |ps| >= 1
    requires forall i :: 0 <= i < |ps| ==> |ps[i]| > 0 && NoChar(ps[i], Slash)
    ensures SplitRuns(Join(ps, "/")) == ps
    decreases |ps|
  {
    var s := Join(ps, "/");
    if |ps| == 1 {
      assert s == ps[0];
      assert FirstSlash(s) == |s|;
    } else {
      var rest := Join(ps[1..], "/");
      assert s == ps[0] + "/" + rest;
      JoinFirst(ps[1..]);
      var n := |ps[0]|;
      assert forall j :: 0 <= j < n ==> s[j] == ps[0][j];
      FirstSlashAfter(ps[0], rest);
      assert FirstSlash(s) == n;
      assert s[n + 1] == rest[0];
      assert SkipSlashes(s, n + 1) == n + 1;
      assert SkipSlashes(s, n) == n + 1;
      assert s[n + 1..] == rest;
      assert s[..n] == ps[0];
      SplitOfJoin(ps[1..]);
    }
  }

  lemma {:induction false} FirstSlashAfter(a: string, b: string)
    requires NoChar(a, Slash)
    ensures FirstSlash(a + "/" + b) == |a|
    decreases |a|
  {
    if |a| > 0 {
      assert (a + "/" + b)[1..] == a[1..] + "/" + b;
      FirstSlashAfter(a[1..], b);
    }
  }

  /** A `/`-separated pattern string parses to its components: the round trip of `_parse_args_pattern`. */
  lemma ParseOfJoin(ps: seq<string>)
    requires |ps| >= 1
    requires forall i :: 0 <= i < |ps| ==> |ps[i]| > 0 && NoChar(ps[i], Slash)
    ensures ParsePattern(PatStr(Join(ps, "/"))) == Ok(ps)
    ensures ParsePattern(PatStr(Join(ps, "/") + "/")) == Ok(ps)
  {
    var s := Join(ps, "/");
    JoinFirst(ps);
    JoinLast(ps);
    assert StripLeft(s) == s;
    assert StripRight(s) == s;
    var t := s + "/";
    assert t[|t| - 1] == Slash && t[..|t| - 1] == s;
    assert StripLeft(t) == t;
    assert StripRight(t) == StripRight(s);
    SplitOfJoin(ps);
  }

  /** A pattern made only of `/` parses to one empty component, which selection then refuses. */
  lemma OnlySlashes(n: nat)
    requires n > 0
    ensures ParsePattern(PatStr(seq(n, _ => Slash))) == Ok([""])
    ensures Compile([""]) == Err(AssertionError)
  {
    var s := seq(n, _ => Slash);
    StripLeftAllSlashes(s);
    assert StripSlashes(s) == "";
    assert FirstSlash("") == 0;
  }

  lemma {:induction false} StripLeftAllSlashes(s: string)
    requires forall i :: 0 <= i < |s| ==> s[i] == Slash
    ensures StripLeft(s) == ""
    decreases |s|
  {
    if |s| > 0 {
      StripLeftAllSlashes(s[1..]);
    }
  }

  // ---------------------------------------------------------------------------
  // Compiling components

  /** A compiled component: `**`, a lone `*`, or a literal with `*` wildcards. */
  datatype Comp = AnyDepth | OneName | Wild(p: string)

  predicate HasStarStar(p: string) {
    exists i :: 0 <= i < |p| - 1 && p[i] == '*' && p[i + 1] == '*'
  }

  /** One iteration of the loop of `_select`. */
  function CompileComp(p: string): (r: Result<Comp>)
    ensures r.Ok? <==> |p| > 0 && (p == "**" || !HasStarStar(p))
    ensures |p| == 0 ==> r == Err(AssertionError)
    ensures |p| > 0 && r.Err? ==> r.error == ValueError
    ensures r.Ok? && r.value.Wild? ==> r.value.p == p && p != "*" && !HasStarStar(p)
  {
    if |p| == 0 then Err(AssertionError)
    else if HasStarStar(p) && p != "**" then Err(ValueError)
    else if p == "**" then Ok(AnyDepth)
    else if p == "*" then Ok(OneName)
    else Ok(Wild(p))
  }

  /** The whole pattern; the first bad component decides the error. */
  function Compile(ps: seq<string>): (r: Result<seq<Comp>>)
    ensures r.Ok? <==> forall i :: 0 <= i < |ps| ==> CompileComp(ps[i]).Ok?
    ensures r.Ok? ==> |r.value| == |ps| && forall i :: 0 <= i < |ps| ==> r.value[i] == CompileComp(ps[i]).value
    ensures r.Err? ==> exists i :: 0 <= i < |ps| && CompileComp(ps[i]) == Err(r.error)
  {
    if |ps| == 0 then Ok([])
    else
      var c :- CompileComp(ps[0]);
      var rest :- Compile(ps[1..]);
      assert forall i :: 1 <= i < |ps| ==> ps[i] == ps[1..][i - 1];
      Ok([c] + rest)
  }

  // ---------------------------------------------------------------------------
  // Matching

  /**
   * `t` matches the literal `p` in which `*` stands for any run of
   * characters; with `stop` that run may not contain `;` (the `[^;]*` of
   * the compiled expression).
   */
  predicate WildMatch(p: string, t: string, stop: bool)
    decreases |p| + |t|
  {
    if |p| == 0 then |t| == 0
    else if p[0] == '*' then
      WildMatch(p[1..], t, stop) || (|t| > 0 && !(stop && t[0] == Semi) && WildMatch(p, t[1..], stop))
    else |t| > 0 && t[0] == p[0] && WildMatch(p[1..], t[1..], stop)
  }

  /** The intended meaning: components matched one by one. */
  predicate GlobMatch(cs: seq<Comp>, names: seq<string>)
    decreases |cs| + |names|
  {
    if |cs| == 0 then |names| == 0
    else
      match cs[0]
      case AnyDepth =>
        GlobMatch(cs[1..], names) || (|names| > 0 && |names[0]| > 0 && GlobMatch(cs, names[1..]))
      case OneName => |names| > 0 && |names[0]| > 0 && GlobMatch(cs[1..], names[1..])
      case Wild(p) => |names| > 0 && WildMatch(p, names[0], false) && GlobMatch(cs[1..], names[1..])
  }

  /** `"".join(SEP + n for n in names)`. */
  function Joined(names: seq<string>): (s: string)
    ensures |names| == 0 <==> |s| == 0
    ensures |names| > 0 ==> s[0] == Semi
  {
    if |names| == 0 then "" else [Semi] + names[0] + Joined(names[1..])
  }

  /**
   * The compiled expression `^...$` matching the joined name, as the source
   * does it; the closing `$` accepts the end of the text or a final newline.
   */
  predicate RxMatch(cs: seq<Comp>, s: string)
    decreases |s|, |cs|
  {
    if |cs| == 0 then |s| == 0 || s == [Newline]
    else
      match cs[0]
      case AnyDepth =>
        RxMatch(cs[1..], s) ||
        (|s| > 0 && s[0] == Semi && exists k :: 1 < k <= |s| && NoChar(s[1..k], Semi) && RxMatch(cs, s[k..]))
      case OneName =>
        |s| > 0 && s[0] == Semi && exists k :: 1 < k <= |s| && NoChar(s[1..k], Semi) && RxMatch(cs[1..], s[k..])
      case Wild(p) =>
        |s| > 0 && s[0] == Semi && exists k :: 1 <= k <= |s| && WildMatch(p, s[1..k], true) && RxMatch(cs[1..], s[k..])
  }

  predicate NoSemiNames(names: seq<string>) {
    forall i :: 0 <= i < |names| ==> NoChar(names[i], Semi)
  }

  predicate NoNewlineNames(names: seq<string>) {
    forall i :: 0 <= i < |names| ==> NoChar(names[i], Newline)
  }

  predicate NoSemiComps(cs: seq<Comp>) {
    forall i :: 0 <= i < |cs| ==> cs[i].Wild? ==> NoChar(cs[i].p, Semi)
  }

  /** Whatever the expression matches is empty, a lone final newline, or starts at a separator. */
  lemma {:induction false} RxStartsAtSemi(cs: seq<Comp>, s: string)
    requires RxMatch(cs, s)
    ensures |s| == 0 || s[0] == Semi || s == [Newline]
    decreases |s|, |cs|
  {
    if |cs| > 0 && cs[0].AnyDepth? && RxMatch(cs[1..], s) {
      RxStartsAtSemi(cs[1..], s);
    }
  }

  /** A wildcard without `;` matches only text without `;`. */
  lemma {:induction false} WildStopNoSemi(p: string, t: string)
    requires NoChar(p, Semi) && WildMatch(p, t, true)
    ensures NoChar(t, Semi)
    decreases |p| + |t|
  {
    if |p| > 0 {
      if p[0] == '*' {
        if WildMatch(p[1..], t, true) {
          WildStopNoSemi(p[1..], t);
        } else {
          WildStopNoSemi(p, t[1..]);
        }
      } else {
        WildStopNoSemi(p[1..], t[1..]);
      }
    }
  }

  /** On text without `;` the `[^;]*` restriction makes no difference. */
  lemma {:induction false} WildStopIrrelevant(p: string, t: string)
    requires NoChar(t, Semi)
    ensures WildMatch(p, t, true) == WildMatch(p, t, false)
    decreases |p| + |t|
  {
    if |p| > 0 {
      if p[0] == '*' {
        WildStopIrrelevant(p[1..], t);
        if |t| > 0 {
          WildStopIrrelevant(p, t[1..]);
        }
      } else if |t| > 0 {
        WildStopIrrelevant(p[1..], t[1..]);
      }
    }
  }

  /** The joined name splits after its first component and nowhere else. */
  lemma JoinedSplit(names: seq<string>)
    requires |names| > 0
    ensures var s := Joined(names); var k := 1 + |names[0]|;
      k <= |s| && s[1..k] == names[0] && s[k..] == Joined(names[1..])
  {
    var s := Joined(names);
    assert s == [Semi] + names[0] + Joined(names[1..]);
  }

  /** Names without newlines join into a text without newlines. */
  lemma {:induction false} JoinedNoNewline(names: seq<string>)
    requires NoNewlineNames(names)
    ensures NoChar(Joined(names), Newline)
    decreases |names|
  {
    if |names| > 0 {
      assert NoNewlineNames(names[1..]) by {
        assert forall i :: 1 <= i < |names| ==> names[1..][i - 1] == names[i];
      }
      JoinedNoNewline(names[1..]);
      assert NoChar(names[0], Newline);
      assert Joined(names) == [Semi] + names[0] + Joined(names[1..]);
    }
  }

  /** A cut that leaves a separator-free first piece and a matchable rest is the component boundary. */
  lemma CutIsBoundary(names: seq<string>, k: nat, rest: seq<Comp>)
    requires |names| > 0 && NoSemiNames(names) && NoNewlineNames(names)
    requires 1 <= k <= |Joined(names)|
    requires NoChar(Joined(names)[1..k], Semi) && RxMatch(rest, Joined(names)[k..])
    ensures k == 1 + |names[0]|
  {
    var s := Joined(names);
    var n := |names[0]|;
    JoinedSplit(names);
    RxStartsAtSemi(rest, s[k..]);
    JoinedNoNewline(names);
    assert s[k..] != [Newline] by {
      if k < |s| {
        assert s[k..][0] == s[k];
      }
    }
    assert NoChar(names[0], Semi);
    assert forall m :: 1 <= m < 1 + n ==> s[m] == names[0][m - 1];
    CutNotEarly(s, n, k);
    assert |names| == 1 ==> Joined(names[1..]) == [];
    assert |names| > 1 ==> s[1 + n..][0] == Joined(names[1..])[0];
    CutNotLate(s, n, k);
  }

  /** A cut before position `1 + n` of a string whose first `n` characters after the start hold no `;` does not start at a `;`. */
  lemma CutNotEarly(s: string, n: nat, k: nat)
    requires 1 <= k <= |s| && 1 + n <= |s|
    requires forall m :: 1 <= m < 1 + n ==> s[m] != Semi
    requires |s[k..]| == 0 || s[k..][0] == Semi
    ensures 1 + n <= k
  {
  }

  /** A `;`-free piece `s[1..k]` cannot run past a `;` at position `1 + n`, nor past the end. */
  lemma CutNotLate(s: string, n: nat, k: nat)
    requires 1 <= k <= |s| && 1 + n <= |s|
    requires NoChar(s[1..k], Semi)
    requires 1 + n == |s| || s[1 + n..][0] == Semi
    ensures k <= 1 + n
  {
  }

  /**
   * Without `;` in names and pattern and without newlines in names, the
   * source's expression means exactly the component glob.
   */
  lemma {:induction false} RxAgreesWithGlob(cs: seq<Comp>, names: seq<string>)
    requires NoSemiNames(names) && NoNewlineNames(names) && NoSemiComps(cs)
    ensures RxMatch(cs, Joined(names)) == GlobMatch(cs, names)
    decreases |names|, |cs|
  {
    var s := Joined(names);
    if |cs| > 0 {
      assert NoSemiComps(cs[1..]) by {
        assert forall i :: 1 <= i < |cs| ==> cs[1..][i - 1] == cs[i];
      }
      if |names| > 0 {
        JoinedSplit(names);
        assert NoSemiNames(names[1..]) && NoNewlineNames(names[1..]) by {
          assert forall i :: 1 <= i < |names| ==> names[1..][i - 1] == names[i];
        }
        assert NoChar(names[0], Semi);
      }
      var k := 1 + if |names| > 0 then |names[0]| else 0;
      match cs[0]
      case AnyDepth =>
        RxAgreesWithGlob(cs[1..], names);
        if |names| > 0 {
          RxAgreesWithGlob(cs, names[1..]);
          if exists k' :: 1 < k' <= |s| && NoChar(s[1..k'], Semi) && RxMatch(cs, s[k'..]) {
            var k' :| 1 < k' <= |s| && NoChar(s[1..k'], Semi) && RxMatch(cs, s[k'..]);
            CutIsBoundary(names, k', cs);
          }
          if |names[0]| > 0 && GlobMatch(cs, names[1..]) {
            assert 1 < k <= |s| && NoChar(s[1..k], Semi) && RxMatch(cs, s[k..]);
          }
        }
      case OneName =>
        if |names| > 0 {
          RxAgreesWithGlob(cs[1..], names[1..]);
          if exists k' :: 1 < k' <= |s| && NoChar(s[1..k'], Semi) && RxMatch(cs[1..], s[k'..]) {
            var k' :| 1 < k' <= |s| && NoChar(s[1..k'], Semi) && RxMatch(cs[1..], s[k'..]);
            CutIsBoundary(names, k', cs[1..]);
          }
          if |names[0]| > 0 && GlobMatch(cs[1..], names[1..]) {
            assert 1 < k <= |s| && NoChar(s[1..k], Semi) && RxMatch(cs[1..], s[k..]);
          }
        }
      case Wild(p) =>
        assert NoChar(p, Semi) by {
          assert cs[0].Wild?;
        }
        if |names| > 0 {
          RxAgreesWithGlob(cs[1..], names[1..]);
          WildStopIrrelevant(p, names[0]);
          if exists k' :: 1 <= k' <= |s| && WildMatch(p, s[1..k'], true) && RxMatch(cs[1..], s[k'..]) {
            var k' :| 1 <= k' <= |s| && WildMatch(p, s[1..k'], true) && RxMatch(cs[1..], s[k'..]);
            WildStopNoSemi(p, s[1..k']);
            CutIsBoundary(names, k', cs[1..]);
          }
          if WildMatch(p, names[0], false) && GlobMatch(cs[1..], names[1..]) {
            assert 1 <= k <= |s| && WildMatch(p, s[1..k], true) && RxMatch(cs[1..], s[k..]);
          }
        }
    }
  }

  /** As written, the pattern component `a;b` selects the group `b` inside the group `a`. */
  lemma SemicolonPatternCrossesComponents()
    ensures RxMatch([Wild("a;b")], Joined(["a", "b"]))
    ensures !GlobMatch([Wild("a;b")], ["a", "b"])
  {
    var s := Joined(["a", "b"]);
    assert s == ";a;b";
    assert WildMatch("", "", true);
    assert WildMatch("b", "b", true);
    assert WildMatch(";b", ";b", true);
    assert s[1..4] == "a;b";
    assert WildMatch("a;b", "a;b", true);
    assert RxMatch([Wild("a;b")][1..], s[4..]);
  }

  /** As written, the pattern `a` selects the group named `a` followed by a newline. */
  lemma TrailingNewlineMatchesLiteral()
    ensures RxMatch([Wild("a")], Joined(["a\n"]))
    ensures !GlobMatch([Wild("a")], ["a\n"])
  {
    var s := Joined(["a\n"]);
    assert s == ";a\n";
    assert WildMatch("", "", true);
    assert s[1..2] == "a";
    assert WildMatch("a", "a", true);
    assert s[2..] == [Newline];
    assert RxMatch([Wild("a")][1..], s[2..]);
    assert !WildMatch("", "\n", false);
    assert !WildMatch("a", "a\n", false);
  }

  /** As written, a lone `*` misses the one-component name `a;b`. */
  lemma SemicolonNameEscapesStar()
    ensures GlobMatch([OneName], ["a;b"])
    ensures !RxMatch([OneName], Joined(["a;b"]))
  {
    var s := Joined(["a;b"]);
    assert s == ";a;b";
    assert GlobMatch([OneName][1..], ["a;b"][1..]);
    forall k | 1 < k <= |s| && NoChar(s[1..k], Semi)
      ensures !RxMatch([OneName][1..], s[k..])
    {
      assert s[2] == Semi;
      assert s[2] == Semi;
    }
  }

  /** `**` matches every name whose components are non-empty. */
  lemma {:induction false} AnyDepthMatchesAll(names: seq<string>)
    requires forall i :: 0 <= i < |names| ==> |names[i]| > 0
    ensures GlobMatch([AnyDepth], names)
    decreases |names|
  {
    if |names| > 0 {
      AnyDepthMatchesAll(names[1..]);
    }
  }

  // ---------------------------------------------------------------------------
  // The group tree and selection

  datatype RuleNode = RuleNode(name: string, keys: seq<string>)

  /** A group with its child groups and rules in insertion order. */
  datatype Grp = Grp(name: string, groups: seq<Grp>, rules: seq<RuleNode>)

  /** Every group below `g` has a non-empty name. */
  predicate WellNamed(g: Grp) {
    forall i :: 0 <= i < |g.groups| ==> |g.groups[i].name| > 0 && WellNamed(g.groups[i])
  }

  predicate NonEmptyComps(x: seq<string>) {
    forall i :: 0 <= i < |x| ==> |x[i]| > 0
  }

  /** `get_offspring_groups`: the names of the groups, pre-order, the root first. */
  function OffspringNames(g: Grp, path: seq<string>): (r: seq<seq<string>>)
    ensures |r| > 0 && r[0] == path
    ensures forall j :: 0 <= j < |r| ==> |path| <= |r[j]| && r[j][..|path|] == path
    ensures WellNamed(g) && NonEmptyComps(path) ==> forall j :: 0 <= j < |r| ==> NonEmptyComps(r[j])
    decreases g, 1
  {
    [path] + OffspringItems(g.groups, 0, path)
  }

  function OffspringItems(gs: seq<Grp>, i: nat, path: seq<string>): (r: seq<seq<string>>)
    ensures forall j :: 0 <= j < |r| ==> |path| < |r[j]| && r[j][..|path|] == path
    ensures (forall m :: i <= m < |gs| ==> |gs[m].name| > 0 && WellNamed(gs[m])) && NonEmptyComps(path) ==>
      forall j :: 0 <= j < |r| ==> NonEmptyComps(r[j])
    decreases gs, 0, |gs| - i
  {
    if i >= |gs| then []
    else
      var here := OffspringNames(gs[i], path + [gs[i].name]);
      var r := here + OffspringItems(gs, i + 1, path);
      assert forall j :: 0 <= j < |here| ==> here[j][..|path|] == (path + [gs[i].name])[..|path|] == path by {
        forall j | 0 <= j < |here| ensures here[j][..|path|] == path {
          assert here[j][..|path|] == here[j][..|path| + 1][..|path|];
        }
      }
      r
  }

  /** The rules of the groups in pre-order, each as `(group names..., rule name)`. */
  function RuleNames(g: Grp, path: seq<string>): (r: seq<seq<string>>)
    decreases g, 1
  {
    seq(|g.rules|, i requires 0 <= i < |g.rules| => path + [g.rules[i].name]) + RuleItems(g.groups, 0, path)
  }

  function RuleItems(gs: seq<Grp>, i: nat, path: seq<string>): seq<seq<string>>
    decreases gs, 0, |gs| - i
  {
    if i >= |gs| then [] else RuleNames(gs[i], path + [gs[i].name]) + RuleItems(gs, i + 1, path)
  }

  /** The files of those rules, each as `(rule names..., file key)`. */
  function FileNames(g: Grp, path: seq<string>): seq<seq<string>>
    decreases g, 1
  {
    FilesOf(g.rules, 0, path) + FileItems(g.groups, 0, path)
  }

  function FilesOf(rs: seq<RuleNode>, i: nat, path: seq<string>): seq<seq<string>>
    decreases |rs| - i
  {
    if i >= |rs| then []
    else
      seq(|rs[i].keys|, k requires 0 <= k < |rs[i].keys| => path + [rs[i].name, rs[i].keys[k]]) + FilesOf(rs, i + 1, path)
  }

  function FileItems(gs: seq<Grp>, i: nat, path: seq<string>): seq<seq<string>>
    decreases gs, 0, |gs| - i
  {
    if i >= |gs| then [] else FileNames(gs[i], path + [gs[i].name]) + FileItems(gs, i + 1, path)
  }

  /** `r` is `xs` with some elements dropped and the rest kept in order. */
  predicate Subsequence<T(==)>(r: seq<T>, xs: seq<T>)
    decreases |xs|
  {
    if |r| == 0 then true
    else if |xs| == 0 then false
    else (r[0] == xs[0] && Subsequence(r[1..], xs[1..])) || Subsequence(r, xs[1..])
  }

  /** `_search`: the candidates that match, in candidate order. */
  function Filter(cs: seq<Comp>, xs: seq<seq<string>>): (r: seq<seq<string>>)
    ensures forall x :: x in r <==> x in xs && GlobMatch(cs, x)
    ensures Subsequence(r, xs)
    ensures |r| <= |xs|
    ensures (forall j :: 0 <= j < |xs| ==> GlobMatch(cs, xs[j])) ==> r == xs
  {
    if |xs| == 0 then []
    else
      var rest := Filter(cs, xs[1..]);
      assert forall x :: x in xs <==> x == xs[0] || x in xs[1..];
      if GlobMatch(cs, xs[0]) then [xs[0]] + rest else rest
  }

  /**
   * The filter is taken piece by piece: filtering a concatenation filters
   * each part, so every match keeps its place relative to the others.
   */
  lemma {:induction false} FilterAppend(cs: seq<Comp>, a: seq<seq<string>>, b: seq<seq<string>>)
    ensures Filter(cs, a + b) == Filter(cs, a) + Filter(cs, b)
    decreases |a|
  {
    if |a| > 0 {
      var h := if GlobMatch(cs, a[0]) then [a[0]] else [];
      assert (a + b)[0] == a[0];
      assert (a + b)[1..] == a[1..] + b;
      FilterCons(cs, a + b);
      FilterCons(cs, a);
      FilterAppend(cs, a[1..], b);
      assert h + (Filter(cs, a[1..]) + Filter(cs, b)) == (h + Filter(cs, a[1..])) + Filter(cs, b);
    } else {
      assert a + b == b;
    }
  }

  /** The filter keeps or drops the first candidate, then filters the rest. */
  lemma FilterCons(cs: seq<Comp>, xs: seq<seq<string>>)
    requires |xs| > 0
    ensures Filter(cs, xs) == (if GlobMatch(cs, xs[0]) then [xs[0]] else []) + Filter(cs, xs[1..])
  {
    if !GlobMatch(cs, xs[0]) {
      assert [] + Filter(cs, xs[1..]) == Filter(cs, xs[1..]);
    }
  }

  datatype Kind = KGroup | KRule | KFile

  function Candidates(kind: Kind, g: Grp): seq<seq<string>> {
    match kind
    case KGroup => OffspringNames(g, [])
    case KRule => RuleNames(g, [])
    case KFile => FileNames(g, [])
  }

  /** `select_groups` / `select_rules` / `select_files`, with the component-wise meaning of the pattern. */
  function Select(pattern: PatArg, kind: Kind, g: Grp): (r: Result<seq<seq<string>>>)
    ensures r.Ok? <==> ParsePattern(pattern).Ok? && Compile(ParsePattern(pattern).value).Ok?
    ensures r.Ok? ==> forall x :: x in r.value <==>
      x in Candidates(kind, g) && GlobMatch(Compile(ParsePattern(pattern).value).value, x)
  {
    var ps :- ParsePattern(pattern);
    var cs :- Compile(ps);
    Ok(Filter(cs, Candidates(kind, g)))
  }

  /** Selected groups come in pre-order, the root first when it matches. */
  lemma SelectGroupsInPreorder(pattern: PatArg, g: Grp)
    requires Select(pattern, KGroup, g).Ok?
    ensures Subsequence(Select(pattern, KGroup, g).value, OffspringNames(g, []))
    ensures var cs := Compile(ParsePattern(pattern).value).value;
      Select(pattern, KGroup, g).value ==
        Filter(cs, [[]]) + Filter(cs, OffspringItems(g.groups, 0, []))
  {
    var cs := Compile(ParsePattern(pattern).value).value;
    FilterAppend(cs, [[]], OffspringItems(g.groups, 0, []));
  }

  /** The selection as written: candidates whose `;`-joined name the compiled expression matches. */
  function SelectAsWritten(pattern: PatArg, kind: Kind, g: Grp): (r: Result<seq<seq<string>>>)
    ensures r.Ok? <==> Select(pattern, kind, g).Ok?
    ensures r.Ok? ==> Subsequence(r.value, Candidates(kind, g))
    ensures r.Ok? ==> forall x :: x in r.value <==>
      x in Candidates(kind, g) && RxMatch(Compile(ParsePattern(pattern).value).value, Joined(x))
  {
    var ps :- ParsePattern(pattern);
    var cs :- Compile(ps);
    Ok(RxFilter(cs, Candidates(kind, g)))
  }

  /** The candidates whose joined name the compiled expression matches, in candidate order. */
  function RxFilter(cs: seq<Comp>, xs: seq<seq<string>>): (r: seq<seq<string>>)
    ensures forall x :: x in r <==> x in xs && RxMatch(cs, Joined(x))
    ensures Subsequence(r, xs)
  {
    if |xs| == 0 then []
    else
      var rest := RxFilter(cs, xs[1..]);
      assert forall x :: x in xs <==> x == xs[0] || x in xs[1..];
      if RxMatch(cs, Joined(xs[0])) then [xs[0]] + rest else rest
  }

  /** Both filters keep the same candidates when names and pattern hold no `;` and names no newline. */
  lemma {:induction false} RxFilterIsFilter(cs: seq<Comp>, xs: seq<seq<string>>)
    requires NoSemiComps(cs)
    requires forall j :: 0 <= j < |xs| ==> NoSemiNames(xs[j]) && NoNewlineNames(xs[j])
    ensures RxFilter(cs, xs) == Filter(cs, xs)
    decreases |xs|
  {
    if |xs| > 0 {
      RxAgreesWithGlob(cs, xs[0]);
      RxFilterIsFilter(cs, xs[1..]);
    }
  }

  /**
   * The selection as written is the component-wise selection whenever no
   * candidate name contains `;` or a newline and no pattern component `;`.
   */
  lemma SelectAsWrittenIsSelect(pattern: PatArg, kind: Kind, g: Grp)
    requires Select(pattern, kind, g).Ok? ==> NoSemiComps(Compile(ParsePattern(pattern).value).value)
    requires forall j :: 0 <= j < |Candidates(kind, g)| ==>
      NoSemiNames(Candidates(kind, g)[j]) && NoNewlineNames(Candidates(kind, g)[j])
    ensures SelectAsWritten(pattern, kind, g) == Select(pattern, kind, g)
  {
    if Select(pattern, kind, g).Ok? {
      RxFilterIsFilter(Compile(ParsePattern(pattern).value).value, Candidates(kind, g));
    }
  }

  lemma ParseStarStar()
    ensures ParsePattern(PatStr("**")) == Ok(["**"])
    ensures Compile(["**"]) == Ok([AnyDepth])
  {
    SplitOfJoin(["**"]);
    assert StripSlashes("**") == "**";
    assert HasStarStar("**") by {
      assert "**"[0] == '*' && "**"[1] == '*';
    }
    assert CompileComp("**") == Ok(AnyDepth);
    assert ["**"][1..] == [];
    assert Compile([]) == Ok([]);
    assert [AnyDepth] + [] == [AnyDepth];
  }

  /** `select_groups("**")` lists every group, the selecting one first, in pre-order. */
  lemma StarStarSelectsAllGroups(g: Grp)
    requires WellNamed(g)
    ensures Select(PatStr("**"), KGroup, g) == Ok(OffspringNames(g, []))
  {
    ParseStarStar();
    var xs := OffspringNames(g, []);
    forall j | 0 <= j < |xs| ensures GlobMatch([AnyDepth], xs[j]) {
      AnyDepthMatchesAll(xs[j]);
    }
  }
}
