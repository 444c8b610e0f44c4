/**
 * File kinds shared by the three jtcmake layers (`group_tree/file.py`,
 * `rule/file.py`, `frontend/file.py`): a `File` is compared by mtime only, a
 * value file `VFile` is also memoised by the digest of its contents; and the
 * process-wide digest cache keyed by path and validated by mtime.
 */
module Files {
  import opened Wrappers
  import opened Paths
  import opened Fs

  datatype FileKind = KFile | KVFile

  /** A file object: its class and its path. */
  datatype File = File(kind: FileKind, path: Path)

  /** `is_value_file()`. */
  predicate IsValueFile(f: File) {
    f.kind == KVFile
  }

  /** An `ILazyMemoValue`: the only one in the sources is `_ContentHash(path)`. */
  datatype LazySource = ContentHash(path: Path)

  /** What `memo_value` yields: a value to memoise now, or one to evaluate later. */
  datatype MemoValue<V> = Eager(v: V) | LazyValue(src: LazySource)

  /**
   * `memo_value` of a file: `None` for a plain file, a lazy content hash of
   * its own path for a value file. `none` is the model's `None`.
   */
  function FileMemoValue<V>(f: File, none: V): (r: MemoValue<V>)
    ensures r.LazyValue? <==> IsValueFile(f)
    ensures r.LazyValue? ==> r.src.path == f.path
    ensures r.Eager? ==> r.v == none
  {
    if f.kind == KVFile then LazyValue(ContentHash(f.path)) else Eager(none)
  }

  /** `replace(path)`: the same class at another path (`rule/file.py`). */
  function Replace(f: File, p: Path): (r: File)
    ensures r.kind == f.kind && r.path == p
    ensures IsValueFile(r) <==> IsValueFile(f)
  {
    File(f.kind, p)
  }

  lemma ReplaceKeepsMemoKind<V>(f: File, p: Path, none: V)
    ensures FileMemoValue(Replace(f, p), none).LazyValue? == FileMemoValue(f, none).LazyValue?
    ensures Replace(Replace(f, p), f.path) == f
  {
  }

  // ---------------------------------------------------------------------------
  // `frontend/file.py`: construction, equality and hashing

  /** The argument of `File(path)`: a str, a PathLike, or something else. */
  datatype PathArg = PStr(s: string) | PLike(p: string) | PBad

  /** `File.__init__`: asserts the argument is a str or PathLike. */
  function NewFile(kind: FileKind, arg: PathArg): (r: Result<File>)
    ensures r.Err? <==> arg.PBad?
    ensures r.Err? ==> r.error == AssertionError
    ensures r.Ok? ==> r.value.kind == kind
    ensures r.Ok? && arg.PStr? ==> r.value.path == arg.s
    ensures r.Ok? && arg.PLike? ==> r.value.path == arg.p
  {
    match arg
    case PStr(s) => Ok(File(kind, s))
    case PLike(p) => Ok(File(kind, p))
    case PBad => Err(AssertionError)
  }

  /** `__eq__`: same class and same path. */
  predicate FileEq(a: File, b: File) {
    a.kind == b.kind && a.path == b.path
  }

  /** `__hash__`: the hash of the path alone. */
  function FileHash(hash: Path -> int, f: File): int {
    hash(f.path)
  }

  /**
   * Equality is datatype equality, equal files hash equally, and a file and a
   * value file at the same path are different objects with the same hash.
   */
  lemma FileEqHash(hash: Path -> int, a: File, b: File)
    ensures FileEq(a, b) <==> a == b
    ensures FileEq(a, b) ==> FileHash(hash, a) == FileHash(hash, b)
    ensures a.path == b.path && a.kind != b.kind ==> !FileEq(a, b) && FileHash(hash, a) == FileHash(hash, b)
  {
  }

  // ---------------------------------------------------------------------------
  // `get_hash`: the digest cache

  /** `base64(md5(bytes))` is a parameter: `md5` below. */
  datatype CacheEntry = CacheEntry(mtime: int, digest: string)

  type HashCache = map<Path, CacheEntry>

  /** The digest of the file's current bytes, or the error reading it raises. */
  function ContentDigest(md5: Bytes -> string, d: Disk, p: Path): (r: Result<string>)
    ensures r.Ok? <==> Exists(d, p)
    ensures r.Ok? ==> r.value == md5(d.files[p].data)
    ensures r.Err? ==> r.error == FileNotFound
  {
    if p in d.files then Ok(md5(d.files[p].data)) else Err(FileNotFound)
  }

  /**
   * `get_hash(p)` with the cache as explicit state (`realpath` is the identity
   * on the model's normalised paths). A cached entry whose mtime equals the
   * file's current mtime is returned without reading the file; otherwise the
   * file is read and its `(mtime, digest)` stored.
   */
  function GetHash(md5: Bytes -> string, d: Disk, cache: HashCache, p: Path): (r: Result<(string, HashCache)>)
    ensures r.Err? <==> !Exists(d, p)
    ensures r.Err? ==> r.error == FileNotFound
    ensures r.Ok? ==> p in r.value.1 && r.value.1[p].mtime == d.files[p].mtime
    ensures r.Ok? ==> r.value.0 == r.value.1[p].digest
    ensures r.Ok? ==> forall q :: q != p ==> (q in r.value.1 <==> q in cache)
    ensures r.Ok? ==> forall q :: q != p && q in cache ==> r.value.1[q] == cache[q]
    ensures r.Ok? ==> r.value.0 == CachedDigest(md5, d, cache, p)
    ensures r.Ok? ==> forall q :: Exists(d, q) ==> CachedDigest(md5, d, r.value.1, q) == CachedDigest(md5, d, cache, q)
  {
    var mtime :- GetMtime(d, p);
    if p in cache && cache[p].mtime == mtime then Ok((cache[p].digest, cache))
    else
      var res := md5(d.files[p].data);
      Ok((res, cache[p := CacheEntry(mtime, res)]))
  }

  /**
   * What the cache answers for an existing file: the stored digest while
   * the stored mtime equals the file's, otherwise the digest of its bytes.
   */
  function CachedDigest(md5: Bytes -> string, d: Disk, cache: HashCache, p: Path): string
    requires Exists(d, p)
  {
    if p in cache && cache[p].mtime == d.files[p].mtime then cache[p].digest else md5(d.files[p].data)
  }

  /**
   * The cache is faithful: every entry whose mtime still matches the file
   * holds the digest of the file's current bytes.
   */
  ghost predicate Coherent(md5: Bytes -> string, d: Disk, cache: HashCache) {
    forall q :: q in cache && q in d.files && cache[q].mtime == d.files[q].mtime ==>
      cache[q].digest == md5(d.files[q].data)
  }

  /** On a coherent cache `get_hash` is the digest of the current bytes, and the cache stays coherent. */
  lemma GetHashCorrect(md5: Bytes -> string, d: Disk, cache: HashCache, p: Path)
    requires Coherent(md5, d, cache)
    ensures GetHash(md5, d, cache, p).Ok? ==>
      && Ok(GetHash(md5, d, cache, p).value.0) == ContentDigest(md5, d, p)
      && Coherent(md5, d, GetHash(md5, d, cache, p).value.1)
  {
  }

  /** A coherent cache is one whose every answer is the digest of the current bytes. */
  lemma CoherentIffFaithful(md5: Bytes -> string, d: Disk, cache: HashCache)
    ensures Coherent(md5, d, cache) <==>
      forall q :: Exists(d, q) ==> CachedDigest(md5, d, cache, q) == md5(d.files[q].data)
  {
    if forall q :: Exists(d, q) ==> CachedDigest(md5, d, cache, q) == md5(d.files[q].data) {
      forall q | q in cache && q in d.files && cache[q].mtime == d.files[q].mtime
        ensures cache[q].digest == md5(d.files[q].data)
      {
        assert CachedDigest(md5, d, cache, q) == md5(d.files[q].data);
      }
    }
  }

  /** A second lookup of an unchanged file is a cache hit: same digest, cache untouched. */
  lemma GetHashTwice(md5: Bytes -> string, d: Disk, cache: HashCache, p: Path)
    requires GetHash(md5, d, cache, p).Ok?
    ensures var (h, c) := GetHash(md5, d, cache, p).value; GetHash(md5, d, c, p) == Ok((h, c))
  {
  }

  /** Writing a file with a new mtime keeps the cache coherent. */
  lemma WriteKeepsCoherent(md5: Bytes -> string, d: Disk, cache: HashCache, p: Path, s: Stat)
    requires Coherent(md5, d, cache)
    requires p in cache ==> cache[p].mtime != s.mtime
    ensures Coherent(md5, Disk(d.files[p := s]), cache)
  {
  }

  /**
   * The cache trusts the mtime: contents rewritten under an unchanged mtime
   * are reported with the old digest.
   */
  lemma SameMtimeRewriteIsStale()
    ensures var p: Path := "a";
      var md5 := (b: Bytes) => if |b| == 0 then "empty" else "full";
      var d0 := Disk(map[p := Stat(5, [])]);
      var d1 := Disk(map[p := Stat(5, [1 as bv8])]);
      var c := GetHash(md5, d0, map[], p).value.1;
      GetHash(md5, d1, c, p).value.0 == "empty" && ContentDigest(md5, d1, p) == Ok("full")
  {
  }
}
