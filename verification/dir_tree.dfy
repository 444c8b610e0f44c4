/**
 * `DirTree` of `group_tree/core.py`: a trie of path components in which a
 * registered file is a `None` leaf and a directory is a sub-trie. It
 * refuses a file where a directory is registered and a path that runs
 * through a registered file.
 *
 * The source's leaf test is `len(parts) == 1`, so only one-component
 * paths are stored as files; deeper files become empty directories. The
 * `AsWritten` members model that code and are the ones the rule store
 * uses; the members without the suffix use the intended test
 * `len(parts) == depth + 1`, which the store's corrected variant uses.
 */
module DirTrees {
  import opened Wrappers

  datatype Entry = FileMark | Sub(t: DirTree)

  datatype DirTree = DirTree(trie: map<string, Entry>)

  const Empty := DirTree(map[])

  // ---------------------------------------------------------------------------
  // As written

  /** `assert_no_collision(parts, is_file, depth)` with the `len(parts) == 1` leaf test. */
  function CheckAsWritten(t: DirTree, parts: seq<string>, isFile: bool, depth: nat): Result<()>
    decreases |parts| - depth
  {
    if |parts| <= depth then Ok(())
    else
      var p0 := parts[depth];
      if |parts| == 1 && isFile then
        if p0 in t.trie && t.trie[p0].Sub? then Err(Failure) else Ok(())
      else if p0 in t.trie then
        match t.trie[p0]
        case FileMark => Err(Failure)
        case Sub(child) => CheckAsWritten(child, parts, isFile, depth + 1)
      else Ok(())
  }

  /** `add(parts, is_file, depth)` with the `len(parts) == 1` leaf test; the `assert child is not None` may fail. */
  function AddAsWritten(t: DirTree, parts: seq<string>, isFile: bool, depth: nat): Result<DirTree>
    decreases |parts| - depth
  {
    if |parts| <= depth then Ok(t)
    else
      var p0 := parts[depth];
      if |parts| == 1 && isFile then
        Ok(if p0 !in t.trie then DirTree(t.trie[p0 := FileMark]) else t)
      else
        var child :- if p0 in t.trie then (if t.trie[p0].Sub? then Ok(t.trie[p0].t) else Err(AssertionError)) else Ok(Empty);
        var child' :- AddAsWritten(child, parts, isFile, depth + 1);
        Ok(DirTree(t.trie[p0 := Sub(child')]))
  }

  /** The one-component collisions the source does catch: a file over a directory and a path through a file. */
  lemma AsWrittenCatchesTopLevel(a: string, b: string)
    ensures AddAsWritten(Empty, [a], true, 0) == Ok(DirTree(map[a := FileMark]))
    ensures CheckAsWritten(DirTree(map[a := FileMark]), [a, b], true, 0) == Err(Failure)
    ensures AddAsWritten(Empty, [a, b], true, 0) == Ok(DirTree(map[a := Sub(DirTree(map[b := Sub(Empty)]))]))
    ensures CheckAsWritten(DirTree(map[a := Sub(DirTree(map[b := Sub(Empty)]))]), [a], true, 0) == Err(Failure)
  {
    assert AddAsWritten(Empty, [a, b], true, 2) == Ok(Empty);
    assert AddAsWritten(Empty, [a, b], true, 1) == Ok(DirTree(map[b := Sub(Empty)]));
  }

  /**
   * Below the first component the source misses both collisions: after the
   * file `a/b` is registered, `a/b/c` passes the check, and after `a/b/c`
   * the file `a/b` does.
   */
  lemma AsWrittenMissesDeeper(a: string, b: string, c: string)
    ensures AddAsWritten(Empty, [a, b], true, 0) == Ok(DirTree(map[a := Sub(DirTree(map[b := Sub(Empty)]))]))
    ensures CheckAsWritten(DirTree(map[a := Sub(DirTree(map[b := Sub(Empty)]))]), [a, b, c], true, 0) == Ok(())
    ensures AddAsWritten(Empty, [a, b, c], true, 0) ==
      Ok(DirTree(map[a := Sub(DirTree(map[b := Sub(DirTree(map[c := Sub(Empty)]))]))]))
    ensures CheckAsWritten(DirTree(map[a := Sub(DirTree(map[b := Sub(DirTree(map[c := Sub(Empty)]))]))]), [a, b], true, 0) == Ok(())
  {
    assert AddAsWritten(Empty, [a, b], true, 2) == Ok(Empty);
    assert AddAsWritten(Empty, [a, b], true, 1) == Ok(DirTree(map[b := Sub(Empty)]));
    assert CheckAsWritten(Empty, [a, b, c], true, 2) == Ok(());
    assert CheckAsWritten(DirTree(map[b := Sub(Empty)]), [a, b, c], true, 1) == Ok(());
    assert AddAsWritten(Empty, [a, b, c], true, 3) == Ok(Empty);
    assert AddAsWritten(Empty, [a, b, c], true, 2) == Ok(DirTree(map[c := Sub(Empty)]));
    assert AddAsWritten(Empty, [a, b, c], true, 1) == Ok(DirTree(map[b := Sub(DirTree(map[c := Sub(Empty)]))]));
    assert CheckAsWritten(DirTree(map[c := Sub(Empty)]), [a, b], true, 2) == Ok(());
    assert CheckAsWritten(DirTree(map[b := Sub(DirTree(map[c := Sub(Empty)]))]), [a, b], true, 1) == Ok(());
  }

  /** As written too, a path that passed the check can be added: the `assert` in `add` never fires. */
  lemma {:induction false} CheckedAddsAsWritten(t: DirTree, parts: seq<string>, depth: nat)
    requires CheckAsWritten(t, parts, true, depth).Ok?
    ensures AddAsWritten(t, parts, true, depth).Ok?
    decreases |parts| - depth
  {
    if depth < |parts| && !(|parts| == 1) {
      var p0 := parts[depth];
      if p0 in t.trie {
        CheckedAddsAsWritten(t.trie[p0].t, parts, depth + 1);
      } else {
        CheckedAddsAsWritten(Empty, parts, depth + 1);
      }
    }
  }

  // ---------------------------------------------------------------------------
  // Intended

  /** `assert_no_collision` with the leaf test `len(parts) == depth + 1`. */
  function Check(t: DirTree, parts: seq<string>, isFile: bool, depth: nat): Result<()>
    decreases |parts| - depth
  {
    if |parts| <= depth then Ok(())
    else
      var p0 := parts[depth];
      if |parts| == depth + 1 && isFile then
        if p0 in t.trie && t.trie[p0].Sub? then Err(Failure) else Ok(())
      else if p0 in t.trie then
        match t.trie[p0]
        case FileMark => Err(Failure)
        case Sub(child) => Check(child, parts, isFile, depth + 1)
      else Ok(())
  }

  /** `add` with the leaf test `len(parts) == depth + 1`. */
  function Add(t: DirTree, parts: seq<string>, isFile: bool, depth: nat): Result<DirTree>
    decreases |parts| - depth
  {
    if |parts| <= depth then Ok(t)
    else
      var p0 := parts[depth];
      if |parts| == depth + 1 && isFile then
        Ok(if p0 !in t.trie then DirTree(t.trie[p0 := FileMark]) else t)
      else
        var child :- if p0 in t.trie then (if t.trie[p0].Sub? then Ok(t.trie[p0].t) else Err(AssertionError)) else Ok(Empty);
        var child' :- Add(child, parts, isFile, depth + 1);
        Ok(DirTree(t.trie[p0 := Sub(child')]))
  }

  /** A path that passed the check can be added: the `assert` in `add` never fires. */
  lemma {:induction false} CheckedAdds(t: DirTree, parts: seq<string>, depth: nat)
    requires Check(t, parts, true, depth).Ok?
    ensures Add(t, parts, true, depth).Ok?
    decreases |parts| - depth
  {
    if depth < |parts| && |parts| != depth + 1 {
      var p0 := parts[depth];
      if p0 in t.trie {
        CheckedAdds(t.trie[p0].t, parts, depth + 1);
      } else {
        CheckedAdds(Empty, parts, depth + 1);
      }
    }
  }

  /** After a checked file is added, a path running through it is refused. */
  lemma {:induction false} FileBlocksBelow(t: DirTree, parts: seq<string>, longer: seq<string>, depth: nat)
    requires depth < |parts| < |longer| && longer[..|parts|] == parts
    requires Check(t, parts, true, depth).Ok?
    ensures Add(t, parts, true, depth).Ok?
    ensures Check(Add(t, parts, true, depth).value, longer, true, depth).Err?
    decreases |parts| - depth
  {
    CheckedAdds(t, parts, depth);
    var p0 := parts[depth];
    assert longer[depth] == p0;
    if |parts| != depth + 1 {
      var child := if p0 in t.trie then t.trie[p0].t else Empty;
      FileBlocksBelow(child, parts, longer, depth + 1);
    }
  }

  /** After a checked file is added, registering one of its directories as a file is refused. */
  lemma {:induction false} FileBlocksAbove(t: DirTree, parts: seq<string>, shorter: seq<string>, depth: nat)
    requires depth < |shorter| < |parts| && parts[..|shorter|] == shorter
    requires Check(t, parts, true, depth).Ok?
    ensures Add(t, parts, true, depth).Ok?
    ensures Check(Add(t, parts, true, depth).value, shorter, true, depth).Err?
    decreases |parts| - depth
  {
    CheckedAdds(t, parts, depth);
    var p0 := parts[depth];
    assert shorter[depth] == p0;
    if |shorter| != depth + 1 {
      var child := if p0 in t.trie then t.trie[p0].t else Empty;
      FileBlocksAbove(child, parts, shorter, depth + 1);
    }
  }

  /** Adding a file again, or checking it again, changes nothing. */
  lemma {:induction false} ReAddSame(t: DirTree, parts: seq<string>, depth: nat)
    requires Check(t, parts, true, depth).Ok?
    ensures Add(t, parts, true, depth).Ok?
    ensures Check(Add(t, parts, true, depth).value, parts, true, depth).Ok?
    decreases |parts| - depth
  {
    CheckedAdds(t, parts, depth);
    if depth < |parts| && |parts| != depth + 1 {
      var p0 := parts[depth];
      var child := if p0 in t.trie then t.trie[p0].t else Empty;
      ReAddSame(child, parts, depth + 1);
    }
  }

  // ---------------------------------------------------------------------------
  // The store's choice of leaf test

  /** The check of one output file from the root: as written, or with the intended leaf test. */
  function CheckFile(t: DirTree, parts: seq<string>, intended: bool): Result<()> {
    if intended then Check(t, parts, true, 0) else CheckAsWritten(t, parts, true, 0)
  }

  /** Registering one output file from the root: as written, or with the intended leaf test. */
  function AddFile(t: DirTree, parts: seq<string>, intended: bool): Result<DirTree> {
    if intended then Add(t, parts, true, 0) else AddAsWritten(t, parts, true, 0)
  }

  /** Under either leaf test a checked file can be registered. */
  lemma CheckedFileAdds(t: DirTree, parts: seq<string>, intended: bool)
    requires CheckFile(t, parts, intended).Ok?
    ensures AddFile(t, parts, intended).Ok?
  {
    if intended {
      CheckedAdds(t, parts, 0);
    } else {
      CheckedAddsAsWritten(t, parts, 0);
    }
  }
}
