/**
 * The group-level helpers of `group_tree/group_mixins/basic.py`: where the
 * memo of a rule is stored, how the log-writer arguments are validated and
 * turned into writers, and the single timestamp `touch` hands to every rule.
 */
module GroupBasic {
  import opened Wrappers
  import opened Paths
  import Selector

  // ---------------------------------------------------------------------------
  // Memo files

  const MemoExt: string := ".json"

  /** `_get_default_memo_file(output0)`: `output0.parent / ".jtcmake" / (output0.name + ".json")`. */
  function DefaultMemoFile(output0: Path): (r: Path)
    ensures Name(r) == Name(output0) + MemoExt
    ensures DirPart(r) == DirPart(output0) + MetaDir + [Sep]
  {
    var r := MetadataPath(output0) + MemoExt;
    DirNameSplit(output0);
    assert NoSep(Name(output0) + MemoExt);
    assert r == (DirPart(output0) + MetaDir + [Sep]) + (Name(output0) + MemoExt);
    LastSepOfJoin(DirPart(output0) + MetaDir + [Sep], Name(output0) + MemoExt);
    r
  }

  /** Two outputs never share a default memo file. */
  lemma DefaultMemoFileInjective(p: Path, q: Path)
    requires DefaultMemoFile(p) == DefaultMemoFile(q)
    ensures p == q
  {
    var a := MetadataPath(p);
    var b := MetadataPath(q);
    assert a + MemoExt == b + MemoExt;
    assert a == (a + MemoExt)[..|a|];
    assert |a| == |b|;
    assert a == b;
    MetadataPathInjective(p, q);
  }

  /** `CustomDirMemoFactory`: `memodir / (hex digest of abspath(output0) + ".json")`. */
  function CustomMemoFile(memodir: Path, output0: Path, abs: Path -> Path, digestHex: string -> string): (r: Path)
    ensures NoSep(digestHex(abs(output0))) ==> Name(r) == digestHex(abs(output0)) + MemoExt
    ensures NoSep(digestHex(abs(output0))) ==> DirPart(r) == memodir + [Sep]
  {
    var base := digestHex(abs(output0)) + MemoExt;
    var r := memodir + [Sep] + base;
    if NoSep(digestHex(abs(output0))) then
      assert NoSep(base);
      LastSepOfJoin(memodir + [Sep], base);
      r
    else r
  }

  /** Two outputs share a custom memo file exactly when their digests agree. */
  lemma CustomMemoFileShared(memodir: Path, p: Path, q: Path, abs: Path -> Path, digestHex: string -> string)
    requires NoSep(digestHex(abs(p))) && NoSep(digestHex(abs(q)))
    ensures CustomMemoFile(memodir, p, abs, digestHex) == CustomMemoFile(memodir, q, abs, digestHex)
      <==> digestHex(abs(p)) == digestHex(abs(q))
  {
    var a := digestHex(abs(p)) + MemoExt;
    var b := digestHex(abs(q)) + MemoExt;
    if CustomMemoFile(memodir, p, abs, digestHex) == CustomMemoFile(memodir, q, abs, digestHex) {
      assert a[..|a| - |MemoExt|] == digestHex(abs(p));
      assert b[..|b| - |MemoExt|] == digestHex(abs(q));
    }
  }

  // ---------------------------------------------------------------------------
  // Log writers

  datatype Loglevel = Debug | Info | Warning | Error

  /** The `loglevel` argument: a str, a falsy value other than a str, or a truthy non-str. */
  datatype LevelArg = LvStr(s: string) | LvFalsy | LvOther

  /** `use_default_logger`: a bool, `None`, or anything else. */
  datatype FlagArg = FTrue | FFalse | FNone | FOther

  /** A logging destination. */
  datatype Target = TPath(p: Path) | TLogger | TWritable(isatty: bool) | TOther

  /** The `logfile` argument: `None`, a list or tuple of destinations, or one destination. */
  datatype LogfileArg = LfNone | LfMany(ts: seq<Target>) | LfOne(t: Target)

  datatype Writer =
    | HtmlFileWriter(level: Loglevel, p: Path)
    | TextFileWriter(level: Loglevel, p: Path)
    | LoggerWriter
    | ColorTextWriter(level: Loglevel)
    | TextWriter(level: Loglevel)
    | DefaultWriter(level: Loglevel)

  /** `loglevel or "info"` followed by `typeguard_loglevel`. */
  function ParseLoglevel(a: LevelArg): (r: Result<Loglevel>)
    ensures r.Ok? <==> a.LvFalsy? || (a.LvStr? && a.s in {"", "debug", "info", "warning", "error"})
    ensures r.Err? ==> r.error == TypeError
    ensures a.LvFalsy? || a == LvStr("") ==> r == Ok(Info)
  {
    match a
    case LvFalsy => Ok(Info)
    case LvOther => Err(TypeError)
    case LvStr(s) =>
      if s == "" || s == "info" then Ok(Info)
      else if s == "debug" then Ok(Debug)
      else if s == "warning" then Ok(Warning)
      else if s == "error" then Ok(Error)
      else Err(TypeError)
  }

  function LevelName(l: Loglevel): string {
    match l
    case Debug => "debug"
    case Info => "info"
    case Warning => "warning"
    case Error => "error"
  }

  /** Every level is accepted under its own name. */
  lemma LoglevelRoundTrip(l: Loglevel)
    ensures ParseLoglevel(LvStr(LevelName(l))) == Ok(l)
  {
  }

  /** `Path(f).suffix`: from the last `.` of the name, unless it is the first or the last character. */
  function Suffix(p: Path): (r: string)
    ensures r == "" || (|r| >= 2 && r[0] == '.')
  {
    var n := Name(p);
    var i := LastDot(n);
    if 0 < i < |n| - 1 then n[i..] else ""
  }

  function LastDot(s: string): (r: int)
    ensures -1 <= r < |s|
    ensures r >= 0 ==> s[r] == '.'
    ensures forall j :: r < j < |s| ==> s[j] != '.'
  {
    if |s| == 0 then -1
    else if s[|s| - 1] == '.' then |s| - 1
    else LastDot(s[..|s| - 1])
  }

  /** `create_logwriter(f, loglevel)`. */
  function CreateLogwriter(t: Target, level: Loglevel): (r: Result<Writer>)
    ensures r.Err? <==> t.TOther?
    ensures r.Err? ==> r.error == TypeError
    ensures t.TPath? ==> r == Ok(if Suffix(t.p) == ".html" then HtmlFileWriter(level, t.p) else TextFileWriter(level, t.p))
    ensures t.TWritable? ==> r == Ok(if t.isatty then ColorTextWriter(level) else TextWriter(level))
  {
    match t
    case TPath(p) => Ok(if Suffix(p) == ".html" then HtmlFileWriter(level, p) else TextFileWriter(level, p))
    case TLogger => Ok(LoggerWriter)
    case TWritable(tty) => Ok(if tty then ColorTextWriter(level) else TextWriter(level))
    case TOther => Err(TypeError)
  }

  /** A path whose name ends in `.html` gets an HTML log. */
  lemma HtmlSuffixGivesHtml(level: Loglevel)
    ensures CreateLogwriter(TPath("log/a.html"), level) == Ok(HtmlFileWriter(level, "log/a.html"))
  {
    LastSepAt("log/a.html", 3);
    assert Name("log/a.html") == "a.html";
    LastDotAt("a.html", 1);
    assert "a.html"[1..] == ".html";
  }

  /** A dot-file named `.html` has no suffix, so it gets a text log. */
  lemma HiddenHtmlGivesText(level: Loglevel)
    ensures CreateLogwriter(TPath("log/.html"), level) == Ok(TextFileWriter(level, "log/.html"))
  {
    LastSepAt("log/.html", 3);
    assert Name("log/.html") == ".html";
    LastDotAt(".html", 0);
  }

  /** Any other suffix gets a text log. */
  lemma OtherSuffixGivesText(level: Loglevel)
    ensures CreateLogwriter(TPath("a.txt"), level) == Ok(TextFileWriter(level, "a.txt"))
  {
    assert "a.txt"[1] == '.';
    assert LastSep("a.txt") == -1;
    assert Name("a.txt") == "a.txt";
    LastDotAt("a.txt", 1);
    assert "a.txt"[1..] == ".txt";
  }

  lemma LastSepAt(p: Path, k: int)
    requires 0 <= k < |p| && p[k] == Sep
    requires forall j :: k < j < |p| ==> p[j] != Sep
    ensures LastSep(p) == k
  {
  }

  lemma LastDotAt(s: string, k: int)
    requires 0 <= k < |s| && s[k] == '.'
    requires forall j :: k < j < |s| ==> s[j] != '.'
    ensures LastDot(s) == k
  {
  }

  /** `create_logwriter_list`: `None` gives no writer, a list one per item, anything else one. */
  function CreateLogwriterList(f: LogfileArg, level: Loglevel): (r: Result<seq<Writer>>)
    ensures f.LfNone? ==> r == Ok([])
    ensures f.LfOne? ==> (r.Ok? <==> !f.t.TOther?) && (r.Ok? ==> r.value == [CreateLogwriter(f.t, level).value])
    ensures f.LfMany? ==> (r.Ok? <==> forall i :: 0 <= i < |f.ts| ==> !f.ts[i].TOther?)
    ensures f.LfMany? && r.Ok? ==> (|r.value| == |f.ts| &&
      forall i :: 0 <= i < |f.ts| ==> r.value[i] == CreateLogwriter(f.ts[i], level).value)
    ensures r.Err? ==> r.error == TypeError
  {
    match f
    case LfNone => Ok([])
    case LfOne(t) =>
      var w :- CreateLogwriter(t, level);
      Ok([w])
    case LfMany(ts) => CreateEach(ts, level)
  }

  function CreateEach(ts: seq<Target>, level: Loglevel): (r: Result<seq<Writer>>)
    ensures r.Ok? <==> forall i :: 0 <= i < |ts| ==> !ts[i].TOther?
    ensures r.Ok? ==> |r.value| == |ts| && forall i :: 0 <= i < |ts| ==> r.value[i] == CreateLogwriter(ts[i], level).value
    ensures r.Err? ==> r.error == TypeError
  {
    if |ts| == 0 then Ok([])
    else
      var w :- CreateLogwriter(ts[0], level);
      var rest :- CreateEach(ts[1..], level);
      assert forall i :: 1 <= i < |ts| ==> ts[i] == ts[1..][i - 1];
      Ok([w] + rest)
  }

  /** `basic_init_create_logwriter`: the level first, then the flag, then the destinations; the default writer last. */
  function InitLogwriter(level: LevelArg, useDefault: FlagArg, logfile: LogfileArg): (r: Result<seq<Writer>>)
    ensures ParseLoglevel(level).Err? ==> r == Err(TypeError)
    ensures ParseLoglevel(level).Ok? && useDefault.FOther? ==> r == Err(TypeError)
    ensures r.Ok? ==> var lv := ParseLoglevel(level).value;
      var ws := CreateLogwriterList(logfile, lv);
      ws.Ok? && r.value == ws.value + (if useDefault.FTrue? then [DefaultWriter(lv)] else [])
  {
    var lv :- ParseLoglevel(level);
    if useDefault.FOther? then Err(TypeError)
    else
      var ws :- CreateLogwriterList(logfile, lv);
      Ok(if useDefault.FTrue? then ws + [DefaultWriter(lv)] else ws)
  }

  // ---------------------------------------------------------------------------
  // touch

  /** `touch(t=...)`: every rule of the subtree, in pre-order, with the same timestamp; `now` when `t` is omitted. */
  function Touch(g: Selector.Grp, t: Option<int>, now: int): (r: seq<(seq<string>, int)>)
    ensures |r| == |Selector.RuleNames(g, [])|
    ensures forall i :: 0 <= i < |r| ==> r[i].0 == Selector.RuleNames(g, [])[i]
    ensures forall i, j :: 0 <= i < |r| && 0 <= j < |r| ==> r[i].1 == r[j].1
    ensures |r| > 0 ==> r[0].1 == t.GetOr(now)
  {
    var ts := t.GetOr(now);
    var rs := Selector.RuleNames(g, []);
    seq(|rs|, i requires 0 <= i < |rs| => (rs[i], ts))
  }
}
