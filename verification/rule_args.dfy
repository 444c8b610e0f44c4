/**
 * Output-file arguments of a group-tree rule (`group_tree/rule.py`):
 * `<R>`/`<F>` substitution in output paths, `parse_args_output_files`,
 * and the file-key check against the keys a typed group declares.
 */
module RuleArgs {
  import opened Wrappers
  import opened Files
  import opened Dicts

  const RuleRef: string := "<R>"
  const FileRef: string := "<F>"

  /** `m` occurs somewhere in `s`. */
  predicate Occurs(s: string, m: string)
    decreases |s|
  {
    |s| >= |m| && (s[..|m|] == m || Occurs(s[1..], m))
  }

  // ---------------------------------------------------------------------------
  // _repl_name_ref

  /**
   * `_repl_name_ref(src, rule_name, file_key)`: a left-to-right scan that
   * replaces `<R>` by the rule name and `<F>` by the file key; `<F>`
   * without a key raises `ValueError`.
   */
  function ReplNameRef(src: string, rule: string, key: Option<string>): (r: Result<string>)
    ensures r.Err? ==> r.error == ValueError
    decreases |src|
  {
    if |src| >= 3 && src[..3] == RuleRef then
      var rest :- ReplNameRef(src[3..], rule, key);
      Ok(rule + rest)
    else if |src| >= 3 && src[..3] == FileRef then
      if key.None? then Err(ValueError)
      else
        var rest :- ReplNameRef(src[3..], rule, key);
        Ok(key.value + rest)
    else if |src| == 0 then Ok("")
    else
      var rest :- ReplNameRef(src[1..], rule, key);
      Ok([src[0]] + rest)
  }

  /** After `<R>`, no `<F>` can start inside the marker. */
  lemma OccursPastRuleRef(src: string)
    requires |src| >= 3 && src[..3] == RuleRef
    ensures Occurs(src, FileRef) <==> Occurs(src[3..], FileRef)
  {
    assert src[..3] != FileRef;
    assert src[1..][1..] == src[2..] && src[2..][1..] == src[3..];
    assert Occurs(src, FileRef) <==> Occurs(src[1..], FileRef);
    assert src[1] == 'R';
    assert Occurs(src[1..], FileRef) <==> Occurs(src[2..], FileRef);
    assert src[2] == '>';
    assert Occurs(src[2..], FileRef) <==> Occurs(src[3..], FileRef);
  }

  /** Substitution fails exactly when `<F>` appears and no key is given. */
  lemma {:induction false} ReplFailsIff(src: string, rule: string, key: Option<string>)
    ensures ReplNameRef(src, rule, key).Err? <==> key.None? && Occurs(src, FileRef)
    decreases |src|
  {
    if |src| >= 3 && src[..3] == RuleRef {
      ReplFailsIff(src[3..], rule, key);
      OccursPastRuleRef(src);
    } else if |src| >= 3 && src[..3] == FileRef {
      if key.Some? {
        ReplFailsIff(src[3..], rule, key);
        assert src[1..][1..] == src[2..] && src[2..][1..] == src[3..];
        assert src[1] == 'F' && src[2] == '>';
        assert Occurs(src[1..], FileRef) <==> Occurs(src[2..], FileRef);
        assert Occurs(src[2..], FileRef) <==> Occurs(src[3..], FileRef);
        assert Occurs(src, FileRef);
      }
    } else if |src| > 0 {
      ReplFailsIff(src[1..], rule, key);
    }
  }

  /** A path without markers is left as it is. */
  lemma {:induction false} ReplIdentity(src: string, rule: string, key: Option<string>)
    requires !Occurs(src, RuleRef) && !Occurs(src, FileRef)
    ensures ReplNameRef(src, rule, key) == Ok(src)
    decreases |src|
  {
    if |src| > 0 {
      ReplIdentity(src[1..], rule, key);
      assert [src[0]] + src[1..] == src;
    }
  }

  /** Substitution distributes over a leading marker or character. */
  lemma ReplHead(head: string, rest: string, rule: string, key: string)
    requires head == RuleRef || head == FileRef || (|head| == 1 && head[0] != '<')
    ensures ReplNameRef(head + rest, rule, Some(key)).Ok? == ReplNameRef(rest, rule, Some(key)).Ok?
    ensures ReplNameRef(rest, rule, Some(key)).Ok? ==>
      ReplNameRef(head + rest, rule, Some(key)).value ==
        (if head == RuleRef then rule else if head == FileRef then key else head) + ReplNameRef(rest, rule, Some(key)).value
  {
    var s := head + rest;
    if head == RuleRef || head == FileRef {
      assert s[..3] == head && s[3..] == rest;
    } else {
      assert s[0] == head[0] && s[1..] == rest;
      assert |s| >= 3 ==> s[..3][0] != RuleRef[0] && s[..3][0] != FileRef[0];
      assert [s[0]] == head;
    }
  }

  /** `"<R>.<F>"` with rule `"a"` and key `"b"` gives `"a.b"`. */
  lemma ReplExample()
    ensures ReplNameRef("<R>.<F>", "a", Some("b")) == Ok("a.b")
  {
    assert ReplNameRef("", "a", Some("b")) == Ok("");
    ReplHead(FileRef, "", "a", "b");
    assert FileRef + "" == "<F>" && "b" + "" == "b";
    assert ReplNameRef("<F>", "a", Some("b")) == Ok("b");
    ReplHead(".", "<F>", "a", "b");
    assert "." + "<F>" == ".<F>" && "." + "b" == ".b";
    assert ReplNameRef(".<F>", "a", Some("b")) == Ok(".b");
    ReplHead(RuleRef, ".<F>", "a", "b");
    assert RuleRef + ".<F>" == "<R>.<F>" && "a" + ".b" == "a.b";
  }

  // ---------------------------------------------------------------------------
  // parse_args_output_files

  /** An output-file argument: str, a PathLike, a file object, or something else. */
  datatype PathItem = IStr(s: string) | ILike(p: string) | IFileObj(f: File) | IBad

  /** A key of a Mapping argument. */
  datatype KeyItem = KeyStr(s: string) | KeyOther

  /** The `output_files` argument: a list/tuple, a single path, a Mapping, or something else. */
  datatype OutSpec = OSeq(items: seq<PathItem>) | OOne(item: PathItem) | OMap(entries: seq<(KeyItem, PathItem)>) | OOther

  /** `_pathlike_to_str`. */
  function ItemStr(item: PathItem): (r: Result<string>)
    ensures r.Err? <==> item == IBad
    ensures r.Err? ==> r.error == TypeError
  {
    match item
    case IStr(s) => Ok(s)
    case ILike(p) => Ok(p)
    case IFileObj(f) => Ok(f.path)
    case IBad => Err(TypeError)
  }

  /** `type(_to_IFile(f, IFile_factory))`: a file object keeps its class, a path gets the factory's. */
  function ItemKind(item: PathItem, factory: FileKind): FileKind {
    if item.IFileObj? then item.f.kind else factory
  }

  /** `_check_file_keys(files, ref)`. */
  function CheckFileKeys(keys: seq<string>, hints: Option<seq<string>>): (r: bool)
    ensures r <==> hints.None? || keys == hints.value
  {
    match hints
    case None => true
    case Some(ref) => |keys| == |ref| && forall i :: 0 <= i < |keys| ==> keys[i] == ref[i]
  }

  /** The list comprehension: each path, substituted without a key, is both the key and the file's path. */
  function ParseSeq(rule: string, items: seq<PathItem>, factory: FileKind, d: Dict<File>): (r: Result<Dict<File>>)
    ensures r.Ok? && (forall i :: 0 <= i < |d| ==> d[i].1.path == d[i].0) ==>
      forall i :: 0 <= i < |r.value| ==> r.value[i].1.path == r.value[i].0
    ensures r.Ok? && Distinct(DKeys(d)) ==> Distinct(DKeys(r.value))
    ensures r.Err? ==> r.error == TypeError || r.error == ValueError
    decreases |items|
  {
    if |items| == 0 then Ok(d)
    else
      var s :- ItemStr(items[0]);
      var k :- ReplNameRef(s, rule, None);
      var d1 := Put(d, k, File(ItemKind(items[0], factory), k));
      PutKeepsPaths(d, k, File(ItemKind(items[0], factory), k));
      ParseSeq(rule, items[1..], factory, d1)
  }

  lemma PutKeepsPaths(d: Dict<File>, k: string, f: File)
    requires f.path == k
    ensures (forall i :: 0 <= i < |d| ==> d[i].1.path == d[i].0) ==>
      forall i :: 0 <= i < |Put(d, k, f)| ==> Put(d, k, f)[i].1.path == Put(d, k, f)[i].0
  {
  }

  /** The Mapping case after the key check: each value is substituted with its key. */
  function ParseMap(rule: string, keys: seq<string>, vals: seq<PathItem>, factory: FileKind, d: Dict<File>): (r: Result<Dict<File>>)
    requires |keys| == |vals|
    ensures r.Ok? && Distinct(DKeys(d)) ==> Distinct(DKeys(r.value))
    ensures r.Ok? ==> forall x :: x in DKeys(r.value) <==> x in DKeys(d) || x in keys
    ensures r.Err? ==> r.error == TypeError || r.error == ValueError
    decreases |keys|
  {
    if |keys| == 0 then Ok(d)
    else
      var s :- ItemStr(vals[0]);
      var sf :- ReplNameRef(s, rule, Some(keys[0]));
      var r := ParseMap(rule, keys[1..], vals[1..], factory, Put(d, keys[0], File(ItemKind(vals[0], factory), sf)));
      assert forall x :: x in keys <==> x == keys[0] || x in keys[1..] by {
        assert keys == [keys[0]] + keys[1..];
      }
      r
  }

  function StrKeys(entries: seq<(KeyItem, PathItem)>): (r: Result<seq<string>>)
    ensures r.Ok? <==> forall i :: 0 <= i < |entries| ==> entries[i].0.KeyStr?
    ensures r.Ok? ==> |r.value| == |entries| && forall i :: 0 <= i < |entries| ==> r.value[i] == entries[i].0.s
    ensures r.Err? ==> r.error == TypeError
  {
    if |entries| == 0 then Ok([])
    else if entries[0].0.KeyOther? then Err(TypeError)
    else
      var rest :- StrKeys(entries[1..]);
      Ok([entries[0].0.s] + rest)
  }

  function Values(entries: seq<(KeyItem, PathItem)>): (r: seq<PathItem>)
    ensures |r| == |entries| && forall i :: 0 <= i < |entries| ==> r[i] == entries[i].1
  {
    seq(|entries|, i requires 0 <= i < |entries| => entries[i].1)
  }

  /**
   * `parse_args_output_files(rule_name, key_hints, output_files, IFile_factory)`:
   * the output files of a rule, keyed as the user wrote them, checked
   * against the declared keys.
   */
  function ParseOutputFiles(rule: string, hints: Option<seq<string>>, spec: OutSpec, factory: FileKind): (r: Result<Dict<File>>)
    ensures r.Ok? ==> Distinct(DKeys(r.value))
    ensures r.Ok? && hints.Some? ==> DKeys(r.value) == hints.value
    ensures r.Ok? && !spec.OMap? ==> forall i :: 0 <= i < |r.value| ==> r.value[i].1.path == r.value[i].0
    ensures r.Ok? && spec.OMap? ==> forall x :: x in DKeys(r.value) <==> KeyStr(x) in DKeys0(spec.entries)
    ensures spec.OOther? ==> r == Err(TypeError)
    ensures spec.OMap? && (exists i :: 0 <= i < |spec.entries| && spec.entries[i].0.KeyOther?) ==> r == Err(TypeError)
    ensures r.Err? ==> r.error == TypeError || r.error == ValueError
  {
    var outs :-
      match spec
      case OSeq(items) => ParseSeq(rule, items, factory, [])
      case OOne(item) => ParseSeq(rule, [item], factory, [])
      case OMap(entries) =>
        (var keys :- StrKeys(entries);
         ParseMap(rule, keys, Values(entries), factory, []))
      case OOther => Err(TypeError);
    if !CheckFileKeys(DKeys(outs), hints) then Err(TypeError) else Ok(outs)
  }

  function DKeys0(entries: seq<(KeyItem, PathItem)>): (r: seq<KeyItem>)
    ensures |r| == |entries| && forall i :: 0 <= i < |entries| ==> r[i] == entries[i].0
  {
    seq(|entries|, i requires 0 <= i < |entries| => entries[i].0)
  }

  /** A list of paths in which one refers to `<F>` cannot be parsed: the keys are not given. */
  lemma {:induction false} FileRefNeedsKeys(rule: string, items: seq<PathItem>, factory: FileKind, d: Dict<File>, j: nat)
    requires j < |items| && items[j].IStr? && Occurs(items[j].s, FileRef)
    ensures ParseSeq(rule, items, factory, d).Err?
    decreases |items|
  {
    if ItemStr(items[0]).Ok? && ReplNameRef(ItemStr(items[0]).value, rule, None).Ok? {
      if j == 0 {
        ReplFailsIff(items[0].s, rule, None);
      } else {
        var s := ItemStr(items[0]).value;
        var k := ReplNameRef(s, rule, None).value;
        FileRefNeedsKeys(rule, items[1..], factory, Put(d, k, File(ItemKind(items[0], factory), k)), j - 1);
      }
    }
  }
}
