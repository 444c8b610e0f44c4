/**
 * Python dicts with str keys as association lists in insertion order:
 * assigning to a present key replaces its value in place, a new key goes
 * to the end.
 */
module Dicts {
  import opened Wrappers

  type Dict<V> = seq<(string, V)>

  function DKeys<V>(d: Dict<V>): (r: seq<string>)
    ensures |r| == |d| && forall i :: 0 <= i < |d| ==> r[i] == d[i].0
  {
    seq(|d|, i requires 0 <= i < |d| => d[i].0)
  }

  predicate Distinct(ks: seq<string>) {
    forall i, j :: 0 <= i < j < |ks| ==> ks[i] != ks[j]
  }

  /** The position of `k`, or `|d|`. */
  function Find<V>(d: Dict<V>, k: string): (i: nat)
    ensures i <= |d|
    ensures i < |d| ==> d[i].0 == k
    ensures forall j :: 0 <= j < i ==> d[j].0 != k
  {
    if |d| == 0 then 0
    else if d[0].0 == k then 0
    else 1 + Find(d[1..], k)
  }

  /** `d[k] = v`. */
  function Put<V>(d: Dict<V>, k: string, v: V): (r: Dict<V>)
    ensures Distinct(DKeys(d)) ==> Distinct(DKeys(r))
    ensures forall x :: x in DKeys(r) <==> x in DKeys(d) || x == k
    ensures Get(r, k) == Some(v)
    ensures forall x :: x != k ==> Get(r, x) == Get(d, x)
    ensures k in DKeys(d) ==> DKeys(r) == DKeys(d)
    ensures k !in DKeys(d) ==> DKeys(r) == DKeys(d) + [k]
    ensures forall i :: 0 <= i < |r| ==> r[i] == (k, v) || (i < |d| && r[i] == d[i])
  {
    var i := Find(d, k);
    if i < |d| then
      var r := d[i := (k, v)];
      assert DKeys(r) == DKeys(d);
      GetFirst(r, k, i);
      forall x | x != k
        ensures Get(r, x) == Get(d, x)
      {
        GetSkip(d, r, x, i);
      }
      r
    else
      var r := d + [(k, v)];
      assert DKeys(r) == DKeys(d) + [k];
      GetAppend(d, k, v);
      r
  }

  /** `d.get(k)`. */
  function Get<V>(d: Dict<V>, k: string): (r: Option<V>)
    ensures r.Some? <==> k in DKeys(d)
  {
    var i := Find(d, k);
    if i < |d| then Some(d[i].1) else None
  }

  lemma GetFirst<V>(d: Dict<V>, k: string, i: nat)
    requires i < |d| && d[i].0 == k && forall j :: 0 <= j < i ==> d[j].0 != k
    ensures Get(d, k) == Some(d[i].1)
  {
    var f := Find(d, k);
    assert f == i;
  }

  lemma GetSkip<V>(d: Dict<V>, r: Dict<V>, x: string, i: nat)
    requires i < |d| && |r| == |d| && d[i].0 != x && r[i].0 == d[i].0
    requires forall j :: 0 <= j < |d| && j != i ==> r[j] == d[j]
    ensures Get(r, x) == Get(d, x)
  {
  }

  lemma GetAppend<V>(d: Dict<V>, k: string, v: V)
    requires k !in DKeys(d)
    ensures Get(d + [(k, v)], k) == Some(v)
    ensures forall x :: x != k ==> Get(d + [(k, v)], x) == Get(d, x)
  {
    var r := d + [(k, v)];
    assert forall j :: 0 <= j < |d| ==> d[j].0 == DKeys(d)[j];
    GetFirst(r, k, |d|);
    forall x | x != k
      ensures Get(r, x) == Get(d, x)
    {
      var fd := Find(d, x);
      var fr := Find(r, x);
      if fd < |d| {
        assert r[fd] == d[fd];
        assert fr == fd;
      } else {
        assert fr >= |d|;
      }
    }
  }
}
