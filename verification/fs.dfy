/**
 * The file system as the build engines see it: which paths exist, their
 * modification times and their bytes. Every `os.path.getmtime`,
 * `os.path.exists`, `os.utime` and `open(...).read()` of the engines is
 * a function of this state.
 */
module Fs {
  import opened Wrappers
  import opened Paths

  type Bytes = seq<bv8>

  datatype Stat = Stat(mtime: int, data: Bytes)

  datatype Disk = Disk(files: map<Path, Stat>)

  predicate Exists(d: Disk, p: Path) {
    p in d.files
  }

  /** `os.path.getmtime`: raises on a missing file. */
  function GetMtime(d: Disk, p: Path): (r: Result<int>)
    ensures r.Ok? <==> Exists(d, p)
    ensures r.Ok? ==> r.value == d.files[p].mtime
    ensures r.Err? ==> r.error == FileNotFound
  {
    if p in d.files then Ok(d.files[p].mtime) else Err(FileNotFound)
  }

  /** `os.utime(p, (t, t))`; on a missing file the call raises and nothing changes. */
  function Utime(d: Disk, p: Path, t: int): (r: Disk)
    ensures Exists(d, p) ==> r.files == d.files[p := Stat(t, d.files[p].data)]
    ensures !Exists(d, p) ==> r == d
  {
    if p in d.files then Disk(d.files[p := Stat(t, d.files[p].data)]) else d
  }

  /** `utime` applied to each path in turn, ignoring failures. */
  function UtimeAll(d: Disk, ps: seq<Path>, t: int): (r: Disk)
    ensures r.files.Keys == d.files.Keys
    ensures forall p :: p in ps && p in d.files ==> r.files[p] == Stat(t, d.files[p].data)
    ensures forall p :: p !in ps && p in d.files ==> r.files[p] == d.files[p]
    decreases |ps|
  {
    if |ps| == 0 then d else UtimeAll(Utime(d, ps[0], t), ps[1..], t)
  }

  predicate AllExist(d: Disk, ps: seq<Path>) {
    forall i :: 0 <= i < |ps| ==> Exists(d, ps[i])
  }

  /** `min(getmtime(p) for p in ps)` over existing paths. */
  function OldestMtime(d: Disk, ps: seq<Path>): (r: int)
    requires |ps| > 0 && AllExist(d, ps)
    ensures forall i :: 0 <= i < |ps| ==> r <= d.files[ps[i]].mtime
    ensures exists i :: 0 <= i < |ps| && d.files[ps[i]].mtime == r
  {
    if |ps| == 1 then d.files[ps[0]].mtime
    else
      var rest := OldestMtime(d, ps[1..]);
      assert forall i :: 1 <= i < |ps| ==> ps[i] == ps[1..][i - 1];
      var m := d.files[ps[0]].mtime;
      if m <= rest then m else rest
  }
}
