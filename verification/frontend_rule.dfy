/**
 * The rule of the older `frontend/` layer (`frontend/rule.py`): a boolean
 * `should_update` with a forced-update flag, and value files (`IVFile`)
 * re-checked by content through a JSON file of `(key, hash, mtime)` entries
 * saved after every successful run.
 *
 * The process-wide digest cache of `frontend/file.py` is threaded through
 * as explicit state; the JSON codec is foreign (`parse`, `serialize`).
 */
module FrontendRule {
  import opened Wrappers
  import opened Paths
  import opened Fs
  import opened Files

  /** The structure key an input was given under (`StructKey`, a list after the JSON round trip). */
  type Key = seq<string>

  datatype Input = Input(key: Key, f: File)

  datatype Rule = Rule(ys: seq<File>, xs: seq<Input>, deps: seq<nat>, forceUpdate: bool)

  /** One saved value-file entry: key, content digest, mtime. */
  datatype HashEntry = HashEntry(key: Key, hash: string, mtime: int)

  datatype Io = Io(md5: Bytes -> string, parse: Bytes -> Result<seq<HashEntry>>, serialize: seq<HashEntry> -> Bytes)

  function PathsOf(fs: seq<File>): (ps: seq<Path>)
    ensures |ps| == |fs|
    ensures forall i :: 0 <= i < |fs| ==> ps[i] == fs[i].path
  {
    if |fs| == 0 then [] else [fs[0].path] + PathsOf(fs[1..])
  }

  /** `metadata_fname`: beside the first output; no outputs raises `IndexError`. */
  function MetadataFname(r: Rule): (m: Result<Path>)
    ensures m.Err? <==> |r.ys| == 0
    ensures m.Err? ==> m.error == IndexError
    ensures m.Ok? ==> m.value == MetadataPath(r.ys[0].path)
  {
    if |r.ys| == 0 then Err(IndexError) else Ok(MetadataPath(r.ys[0].path))
  }

  predicate Invalid(d: Disk, p: Path) {
    !Exists(d, p) || d.files[p].mtime == 0
  }

  predicate BadInputs(d: Disk, r: Rule) {
    exists j :: 0 <= j < |r.xs| && Invalid(d, r.xs[j].f.path)
  }

  predicate DepUpdated(r: Rule, updated: set<nat>) {
    exists i :: 0 <= i < |r.deps| && r.deps[i] in updated
  }

  predicate NewerPlain(d: Disk, r: Rule, oldest: int, j: int) {
    0 <= j < |r.xs| && r.xs[j].f.kind == KFile && Exists(d, r.xs[j].f.path) && d.files[r.xs[j].f.path].mtime > oldest
  }

  predicate AnyNewerPlain(d: Disk, r: Rule, oldest: int) {
    exists j :: 0 <= j < |r.xs| && NewerPlain(d, r, oldest, j)
  }

  /** The value-file inputs newer than `oldest`, in input order (`xvfiles`). */
  function NewerVFiles(d: Disk, xs: seq<Input>, oldest: int): (r: seq<Input>)
    requires forall j :: 0 <= j < |xs| ==> Exists(d, xs[j].f.path)
    ensures forall x :: x in r <==> x in xs && x.f.kind == KVFile && Exists(d, x.f.path) && d.files[x.f.path].mtime > oldest
    ensures forall j :: 0 <= j < |r| ==> Exists(d, r[j].f.path)
  {
    if |xs| == 0 then []
    else
      var rest := NewerVFiles(d, xs[1..], oldest);
      assert forall x :: x in xs[1..] ==> x in xs;
      assert forall x :: x in xs ==> x == xs[0] || x in xs[1..];
      assert Exists(d, xs[0].f.path);
      assert xs[0].f.path in d.files;
      if xs[0].f.kind == KVFile && d.files[xs[0].f.path].mtime > oldest then [xs[0]] + rest else rest
  }

  /** The position of the last entry with key `k`, or -1. */
  function LastIndex(entries: seq<HashEntry>, k: Key): (r: int)
    ensures -1 <= r < |entries|
    ensures r >= 0 ==> entries[r].key == k
    ensures forall j :: r < j < |entries| ==> entries[j].key != k
    decreases |entries|
  {
    if |entries| == 0 then -1
    else if entries[|entries| - 1].key == k then |entries| - 1
    else LastIndex(entries[..|entries| - 1], k)
  }

  /** `{tuple(k): (h, t) for k, h, t in entries}[k]`: the last entry with key `k` wins. */
  function Lookup(entries: seq<HashEntry>, k: Key): (r: Option<HashEntry>)
    ensures r.None? <==> forall i :: 0 <= i < |entries| ==> entries[i].key != k
    ensures r.Some? ==> r.value == entries[LastIndex(entries, k)]
  {
    var i := LastIndex(entries, k);
    if i < 0 then None else Some(entries[i])
  }

  /** `load_vfile_hashes`: no file means no entries. */
  function LoadHashes(io: Io, d: Disk, meta: Path): (r: Result<seq<HashEntry>>)
    ensures !Exists(d, meta) ==> r == Ok([])
    ensures Exists(d, meta) ==> r == io.parse(d.files[meta].data)
  {
    if !Exists(d, meta) then Ok([]) else io.parse(d.files[meta].data)
  }

  /** Value-file input `x` needs no update: its entry has the current mtime, or the current digest. */
  predicate Unchanged(md5: Bytes -> string, d: Disk, entries: seq<HashEntry>, x: Input) {
    && Exists(d, x.f.path)
    && Lookup(entries, x.key).Some?
    && (Lookup(entries, x.key).value.mtime == d.files[x.f.path].mtime
        || Lookup(entries, x.key).value.hash == md5(d.files[x.f.path].data))
  }

  /** `Unchanged` as the process sees it: the digest is the one the cache answers. */
  predicate UnchangedIn(md5: Bytes -> string, d: Disk, cache: HashCache, entries: seq<HashEntry>, x: Input) {
    && Exists(d, x.f.path)
    && Lookup(entries, x.key).Some?
    && (Lookup(entries, x.key).value.mtime == d.files[x.f.path].mtime
        || Lookup(entries, x.key).value.hash == CachedDigest(md5, d, cache, x.f.path))
  }

  /** On a coherent cache the two views of an unchanged value file agree. */
  lemma CoherentUnchanged(md5: Bytes -> string, d: Disk, cache: HashCache, entries: seq<HashEntry>, xv: seq<Input>)
    requires Coherent(md5, d, cache)
    ensures forall j :: 0 <= j < |xv| ==>
      (UnchangedIn(md5, d, cache, entries, xv[j]) <==> Unchanged(md5, d, entries, xv[j]))
  {
    CoherentIffFaithful(md5, d, cache);
  }

  /**
   * The loop over `xvfiles` from `i` on: no entry means update; a changed
   * mtime makes it compute the digest, a changed digest means update. The
   * cache never changes an answer it gives, and stays coherent if it was.
   */
  function CheckVFiles(md5: Bytes -> string, d: Disk, cache: HashCache, entries: seq<HashEntry>, xv: seq<Input>, i: nat): (r: Result<(bool, HashCache)>)
    requires forall j :: 0 <= j < |xv| ==> Exists(d, xv[j].f.path)
    ensures r.Ok?
    ensures Coherent(md5, d, cache) ==> Coherent(md5, d, r.value.1)
    ensures forall q :: Exists(d, q) ==> CachedDigest(md5, d, r.value.1, q) == CachedDigest(md5, d, cache, q)
    ensures !r.value.0 <==> forall j :: i <= j < |xv| ==> UnchangedIn(md5, d, cache, entries, xv[j])
    decreases |xv| - i
  {
    if i >= |xv| then Ok((false, cache))
    else
      var p := xv[i].f.path;
      match Lookup(entries, xv[i].key)
      case None => Ok((true, cache))
      case Some(e) =>
        assert Exists(d, p);
        if d.files[p].mtime != e.mtime then
          var (h, c') := GetHash(md5, d, cache, p).value;
          if h != e.hash then Ok((true, c')) else CheckVFiles(md5, d, c', entries, xv, i + 1)
        else CheckVFiles(md5, d, cache, entries, xv, i + 1)
  }

  /** The value-file stage answers `False`: no newer value file, or each has a saved entry it matches. */
  predicate VFilesUnchanged(io: Io, d: Disk, meta: Path, xv: seq<Input>) {
    |xv| > 0 ==>
      && LoadHashes(io, d, meta).Ok?
      && forall j :: 0 <= j < |xv| ==> Unchanged(io.md5, d, LoadHashes(io, d, meta).value, xv[j])
  }

  /** `VFilesUnchanged` with the digests the cache answers. */
  predicate VFilesUnchangedIn(io: Io, d: Disk, cache: HashCache, meta: Path, xv: seq<Input>) {
    |xv| > 0 ==>
      && LoadHashes(io, d, meta).Ok?
      && forall j :: 0 <= j < |xv| ==> UnchangedIn(io.md5, d, cache, LoadHashes(io, d, meta).value, xv[j])
  }

  /** The conditions of `should_update` before the value-file stage, all in favour of `False`. */
  predicate OutputsFresh(d: Disk, r: Rule, updated: set<nat>, dry: bool) {
    && !BadInputs(d, r) && !r.forceUpdate && !(dry && DepUpdated(r, updated))
    && |r.ys| > 0 && AllExist(d, PathsOf(r.ys))
    && OldestMtime(d, PathsOf(r.ys)) > 0
    && !AnyNewerPlain(d, r, OldestMtime(d, PathsOf(r.ys)))
  }

  /** Every condition under which `should_update` answers `False`, judged on the files' contents. */
  predicate UpToDate(io: Io, d: Disk, r: Rule, updated: set<nat>, dry: bool) {
    && OutputsFresh(d, r, updated, dry)
    && VFilesUnchanged(io, d, MetadataPath(r.ys[0].path), NewerVFiles(d, r.xs, OldestMtime(d, PathsOf(r.ys))))
  }

  /** Every condition under which `should_update` answers `False`, judged by what the cache answers. */
  predicate UpToDateIn(io: Io, d: Disk, cache: HashCache, r: Rule, updated: set<nat>, dry: bool) {
    && OutputsFresh(d, r, updated, dry)
    && VFilesUnchangedIn(io, d, cache, MetadataPath(r.ys[0].path), NewerVFiles(d, r.xs, OldestMtime(d, PathsOf(r.ys))))
  }

  /** The value-file stage of `should_update`: the newer value files checked against the saved entries. */
  function VFileStage(io: Io, d: Disk, cache: HashCache, meta: Path, xv: seq<Input>): (res: Result<(bool, HashCache)>)
    requires forall j :: 0 <= j < |xv| ==> Exists(d, xv[j].f.path)
    ensures res.Ok? && Coherent(io.md5, d, cache) ==> Coherent(io.md5, d, res.value.1)
    ensures (res.Ok? && !res.value.0) <==> VFilesUnchangedIn(io, d, cache, meta, xv)
  {
    if |xv| == 0 then Ok((false, cache))
    else
      var entries :- LoadHashes(io, d, meta);
      CheckVFiles(io.md5, d, cache, entries, xv, 0)
  }

  /** `should_update(updated_rules, dry_run)`, with the digest cache before and after. */
  function ShouldUpdate(io: Io, d: Disk, cache: HashCache, r: Rule, updated: set<nat>, dry: bool): (res: Result<(bool, HashCache)>)
    ensures BadInputs(d, r) ==> res == (if dry then Ok((true, cache)) else Err(Failure))
    ensures res.Ok? && Coherent(io.md5, d, cache) ==> Coherent(io.md5, d, res.value.1)
    ensures (res.Ok? && !res.value.0) <==> UpToDateIn(io, d, cache, r, updated, dry)
  {
    if BadInputs(d, r) then (if dry then Ok((true, cache)) else Err(Failure))
    else if r.forceUpdate then Ok((true, cache))
    else if dry && DepUpdated(r, updated) then Ok((true, cache))
    else if !AllExist(d, PathsOf(r.ys)) then Ok((true, cache))
    else if |r.ys| == 0 then Err(ValueError)
    else
      var oldest := OldestMtime(d, PathsOf(r.ys));
      if oldest <= 0 then Ok((true, cache))
      else if AnyNewerPlain(d, r, oldest) then Ok((true, cache))
      else
        InputsExist(d, r);
        VFileStage(io, d, cache, MetadataPath(r.ys[0].path), NewerVFiles(d, r.xs, oldest))
  }

  /** Valid inputs exist. */
  lemma InputsExist(d: Disk, r: Rule)
    requires !BadInputs(d, r)
    ensures forall j :: 0 <= j < |r.xs| ==> Exists(d, r.xs[j].f.path)
  {
    forall j | 0 <= j < |r.xs| ensures Exists(d, r.xs[j].f.path) {
      assert !Invalid(d, r.xs[j].f.path);
    }
  }

  // ---------------------------------------------------------------------------
  // postprocess

  /** `postprocess(False)`: outputs' mtimes set to 0 and the memo file removed, failures ignored. */
  function PostprocessFail(d: Disk, r: Rule): (d': Disk)
    ensures forall i :: 0 <= i < |r.ys| ==> Invalid(d', r.ys[i].path)
    ensures |r.ys| > 0 ==> !Exists(d', MetadataPath(r.ys[0].path))
  {
    var d1 := UtimeAll(d, PathsOf(r.ys), 0);
    match MetadataFname(r)
    case Err(_) => d1
    case Ok(meta) => Disk(d1.files - {meta})
  }

  /** The value-file inputs, in order. */
  function VFileInputs(xs: seq<Input>): (r: seq<Input>)
    ensures forall x :: x in r <==> x in xs && x.f.kind == KVFile
  {
    if |xs| == 0 then []
    else
      assert forall x :: x in xs ==> x == xs[0] || x in xs[1..];
      (if xs[0].f.kind == KVFile then [xs[0]] else []) + VFileInputs(xs[1..])
  }

  /** `create_vfile_hashes`, from `i` on: `(key, get_hash, getmtime)` per value file. */
  function CreateEntries(md5: Bytes -> string, d: Disk, cache: HashCache, vfs: seq<Input>, i: nat): (r: Result<(seq<HashEntry>, HashCache)>)
    requires i <= |vfs|
    ensures r.Ok? <==> forall j :: i <= j < |vfs| ==> Exists(d, vfs[j].f.path)
    ensures r.Err? ==> r.error == FileNotFound
    ensures r.Ok? ==> |r.value.0| == |vfs| - i
    ensures r.Ok? && Coherent(md5, d, cache) ==> Coherent(md5, d, r.value.1)
    ensures r.Ok? ==> forall q :: Exists(d, q) ==> CachedDigest(md5, d, r.value.1, q) == CachedDigest(md5, d, cache, q)
    ensures r.Ok? ==> forall j :: i <= j < |vfs| ==>
      r.value.0[j - i] == HashEntry(vfs[j].key, CachedDigest(md5, d, cache, vfs[j].f.path), d.files[vfs[j].f.path].mtime)
    decreases |vfs| - i
  {
    if i == |vfs| then Ok(([], cache))
    else
      var p := vfs[i].f.path;
      var (h, c') :- GetHash(md5, d, cache, p);
      var (rest, c'') :- CreateEntries(md5, d, c', vfs, i + 1);
      Ok(([HashEntry(vfs[i].key, h, d.files[p].mtime)] + rest, c''))
  }

  /**
   * `postprocess(True)`, i.e. `update_xvfile_hashes()`: with value-file
   * inputs, their entries are computed and written to the memo file with
   * mtime `now`; without any, nothing is written.
   */
  function PostprocessOk(io: Io, d: Disk, cache: HashCache, r: Rule, now: int): (res: Result<(Disk, HashCache)>)
    ensures |VFileInputs(r.xs)| == 0 ==> res == Ok((d, cache))
    ensures |VFileInputs(r.xs)| > 0 && |r.ys| == 0 ==> res == Err(IndexError)
    ensures res.Ok? && Coherent(io.md5, d, cache) ==> Coherent(io.md5, d, res.value.1)
    ensures res.Ok? && |VFileInputs(r.xs)| > 0 ==>
      && |r.ys| > 0
      && CreateEntries(io.md5, d, cache, VFileInputs(r.xs), 0).Ok?
      && res.value.0 == Disk(d.files[MetadataPath(r.ys[0].path) :=
           Stat(now, io.serialize(CreateEntries(io.md5, d, cache, VFileInputs(r.xs), 0).value.0))])
  {
    var vfs := VFileInputs(r.xs);
    if |vfs| == 0 then Ok((d, cache))
    else
      var meta :- MetadataFname(r);
      var (entries, c') :- CreateEntries(io.md5, d, cache, vfs, 0);
      Ok((Disk(d.files[meta := Stat(now, io.serialize(entries))]), c'))
  }

  // ---------------------------------------------------------------------------
  // Properties

  /**
   * On a coherent cache `should_update` says `False` exactly under
   * `UpToDate`: the answer depends on the files' contents alone.
   */
  lemma ShouldUpdateFalseIff(io: Io, d: Disk, cache: HashCache, r: Rule, updated: set<nat>, dry: bool)
    requires Coherent(io.md5, d, cache)
    ensures (ShouldUpdate(io, d, cache, r, updated, dry).Ok? && !ShouldUpdate(io, d, cache, r, updated, dry).value.0)
      <==> UpToDate(io, d, r, updated, dry)
  {
    if OutputsFresh(d, r, updated, dry) {
      var xv := NewerVFiles(d, r.xs, OldestMtime(d, PathsOf(r.ys)));
      var meta := MetadataPath(r.ys[0].path);
      if |xv| > 0 && LoadHashes(io, d, meta).Ok? {
        CoherentUnchanged(io.md5, d, cache, LoadHashes(io, d, meta).value, xv);
      }
    }
  }

  /** A forced rule with usable inputs is always updated. */
  lemma ForcedIsUpdated(io: Io, d: Disk, cache: HashCache, r: Rule, updated: set<nat>, dry: bool)
    requires r.forceUpdate && !BadInputs(d, r)
    ensures ShouldUpdate(io, d, cache, r, updated, dry) == Ok((true, cache))
  {
  }

  /** A value-file input whose bytes are unchanged never causes an update, however new its mtime. */
  lemma SameDigestIsUnchanged(md5: Bytes -> string, d: Disk, entries: seq<HashEntry>, x: Input)
    requires Exists(d, x.f.path) && Lookup(entries, x.key).Some?
    requires Lookup(entries, x.key).value.hash == md5(d.files[x.f.path].data)
    ensures Unchanged(md5, d, entries, x)
  {
  }

  /** After a failed run the rule is never reported up to date. */
  lemma FailedRunIsRedone(io: Io, d: Disk, r: Rule, updated: set<nat>, dry: bool)
    requires |r.ys| > 0
    ensures !UpToDate(io, PostprocessFail(d, r), r, updated, dry)
  {
    var d' := PostprocessFail(d, r);
    var ps := PathsOf(r.ys);
    if AllExist(d', ps) {
      assert Invalid(d', ps[0]);
      assert OldestMtime(d', ps) <= d'.files[ps[0]].mtime == 0;
    }
  }

  /** With distinct keys, the lookup of a saved value file's key finds its own entry. */
  lemma {:induction false} LookupOwnEntry(entries: seq<HashEntry>, k: nat)
    requires k < |entries|
    requires forall i, j :: 0 <= i < j < |entries| ==> entries[i].key != entries[j].key
    ensures Lookup(entries, entries[k].key) == Some(entries[k])
  {
    var i := LastIndex(entries, entries[k].key);
    assert !(i < k);
    assert !(i > k);
  }

  /**
   * The saved entries are read back: right after a successful run, with a
   * codec that round-trips and distinct keys, every value-file input that
   * still has the mtime it was saved with is `Unchanged`.
   */
  lemma SavedHashesSkipRecheck(io: Io, d: Disk, cache: HashCache, r: Rule, now: int, later: Disk)
    requires |VFileInputs(r.xs)| > 0 && PostprocessOk(io, d, cache, r, now).Ok?
    requires forall e :: io.parse(io.serialize(e)) == Ok(e)
    requires var vfs := VFileInputs(r.xs); forall i, j :: 0 <= i < j < |vfs| ==> vfs[i].key != vfs[j].key
    requires Exists(later, MetadataPath(r.ys[0].path))
    requires later.files[MetadataPath(r.ys[0].path)] == PostprocessOk(io, d, cache, r, now).value.0.files[MetadataPath(r.ys[0].path)]
    ensures forall x :: x in VFileInputs(r.xs) && Exists(later, x.f.path) && later.files[x.f.path].mtime == d.files[x.f.path].mtime ==>
      Unchanged(io.md5, later, LoadHashes(io, later, MetadataPath(r.ys[0].path)).value, x)
  {
    var vfs := VFileInputs(r.xs);
    var entries := CreateEntries(io.md5, d, cache, vfs, 0).value.0;
    var meta := MetadataPath(r.ys[0].path);
    assert later.files[meta].data == io.serialize(entries);
    assert LoadHashes(io, later, meta) == Ok(entries);
    assert forall i :: 0 <= i < |vfs| ==> entries[i].key == vfs[i].key;
    forall x | x in vfs && Exists(later, x.f.path) && later.files[x.f.path].mtime == d.files[x.f.path].mtime
      ensures Unchanged(io.md5, later, entries, x)
    {
      var k :| 0 <= k < |vfs| && vfs[k] == x;
      assert entries[k].key == x.key;
      LookupOwnEntry(entries, k);
    }
  }
}
