/**
 * Paths as `/`-separated strings, assumed already normalised (no trailing
 * separator, no empty or `.` components), plus the metadata-file naming the
 * rule classes share: `p.parent / ".jtcmake" / p.name`.
 */
module Paths {
  type Path = string

  const Sep: char := '/'

  /** `os.path.isabs` on POSIX. */
  predicate IsAbs(p: Path) {
    |p| > 0 && p[0] == Sep
  }

  predicate NoSep(s: string) {
    forall i :: 0 <= i < |s| ==> s[i] != Sep
  }

  /** Index of the last separator, or -1 when there is none. */
  function LastSep(p: Path): (r: int)
    ensures -1 <= r < |p|
    ensures r >= 0 ==> p[r] == Sep
    ensures forall j :: r < j < |p| ==> p[j] != Sep
    ensures NoSep(p[r + 1..])
  {
    if |p| == 0 then -1
    else if p[|p| - 1] == Sep then |p| - 1
    else
      var q := p[..|p| - 1];
      var r := LastSep(q);
      assert forall j :: r < j < |q| ==> p[j] == q[j];
      r
  }

  /** The directory part, separator included (`""` for a bare name). */
  function DirPart(p: Path): string {
    p[..LastSep(p) + 1]
  }

  /** `Path(p).name`. */
  function Name(p: Path): string {
    p[LastSep(p) + 1..]
  }

  lemma DirNameSplit(p: Path)
    ensures p == DirPart(p) + Name(p)
    ensures NoSep(Name(p))
    ensures DirPart(p) == "" || DirPart(p)[|DirPart(p)| - 1] == Sep
  {
  }

  /** The split point of `d + n` is the end of `d` when `d` ends in a separator and `n` has none. */
  lemma {:induction false} LastSepOfJoin(d: string, n: string)
    requires d == "" || d[|d| - 1] == Sep
    requires NoSep(n)
    ensures LastSep(d + n) == |d| - 1
    decreases |n|
  {
    if |n| == 0 {
      assert d + n == d;
      if |d| > 0 {
        assert (d + n)[|d + n| - 1] == Sep;
      }
    } else {
      var s := d + n;
      assert s[|s| - 1] == n[|n| - 1];
      assert s[..|s| - 1] == d + n[..|n| - 1];
      LastSepOfJoin(d, n[..|n| - 1]);
    }
  }

  const MetaDir: string := ".jtcmake"

  /** `metadata_fname`: `p.parent / ".jtcmake" / p.name`. */
  function MetadataPath(p: Path): (r: Path)
    ensures r == DirPart(p) + MetaDir + [Sep] + Name(p)
  {
    DirPart(p) + MetaDir + [Sep] + Name(p)
  }

  /**
   * The metadata file sits in the `.jtcmake` directory next to its output and
   * keeps the output's file name.
   */
  lemma MetadataPathParts(p: Path)
    ensures Name(MetadataPath(p)) == Name(p)
    ensures DirPart(MetadataPath(p)) == DirPart(p) + MetaDir + [Sep]
    ensures MetadataPath(p) != p
  {
    DirNameSplit(p);
    var d := DirPart(p) + MetaDir + [Sep];
    LastSepOfJoin(d, Name(p));
    assert MetadataPath(p) == d + Name(p);
    assert |MetadataPath(p)| == |p| + |MetaDir| + 1;
  }

  /** Different outputs have different metadata files. */
  lemma MetadataPathInjective(p: Path, q: Path)
    requires MetadataPath(p) == MetadataPath(q)
    ensures p == q
  {
    MetadataPathParts(p);
    MetadataPathParts(q);
    DirNameSplit(p);
    DirNameSplit(q);
    assert DirPart(p) + MetaDir + [Sep] == DirPart(q) + MetaDir + [Sep];
    SuffixCancel(DirPart(p), DirPart(q), MetaDir + [Sep]);
  }

  lemma SuffixCancel(a: string, b: string, d: string)
    requires |d| > 0
    requires a + d[..|d| - 1] + [d[|d| - 1]] == b + d[..|d| - 1] + [d[|d| - 1]]
    ensures a == b
  {
    assert a + d == a + d[..|d| - 1] + [d[|d| - 1]];
    assert b + d == b + d[..|d| - 1] + [d[|d| - 1]];
    assert |a| == |b|;
    assert a == (a + d)[..|a|];
    assert b == (b + d)[..|b|];
  }
}
