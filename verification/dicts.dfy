/** Python dictionaries with string keys, kept as association lists in
    insertion order. A lookup sees the last binding of a key (which is what
    `json.loads` keeps when an object repeats a key), and `d[k] = v`
    overwrites the binding in place or appends a new one at the end. */
module Dicts {
  import opened Wrappers

  /** The keys in insertion order. */
  function Keys<V>(d: seq<(string, V)>): (ks: seq<string>)
    ensures |ks| == |d|
    ensures forall i :: 0 <= i < |d| ==> ks[i] == d[i].0
  {
    if |d| == 0 then [] else Keys(d[..|d| - 1]) + [d[|d| - 1].0]
  }

  /** No key is bound twice: what every Python `dict` satisfies. */
  predicate UniqueKeys<V>(d: seq<(string, V)>) {
    forall i, j :: 0 <= i < j < |d| ==> d[i].0 != d[j].0
  }

  /** `d.get(k)`: the value of the last binding of `k`. */
  function Lookup<V>(d: seq<(string, V)>, k: string): (r: Option<V>)
    ensures r.None? <==> k !in Keys(d)
  {
    if |d| == 0 then None
    else if d[|d| - 1].0 == k then Some(d[|d| - 1].1)
    else
      var p := d[..|d| - 1];
      assert Keys(d) == Keys(p) + [d[|d| - 1].0];
      Lookup(p, k)
  }

  /** Every binding of `k` rebound to `v`, positions unchanged. */
  function Overwrite<V>(d: seq<(string, V)>, k: string, v: V): (r: seq<(string, V)>)
    ensures |r| == |d| && Keys(r) == Keys(d)
    ensures k in Keys(d) ==> Lookup(r, k) == Some(v)
    ensures forall j :: j != k ==> Lookup(r, j) == Lookup(d, j)
  {
    if |d| == 0 then []
    else
      var p := d[..|d| - 1];
      var last := d[|d| - 1];
      var q := Overwrite(p, k, v);
      var r := q + [if last.0 == k then (k, v) else last];
      assert r[..|q|] == q;
      assert Keys(d) == Keys(p) + [last.0];
      r
  }

  /** `d[k] = v`. */
  function Assign<V>(d: seq<(string, V)>, k: string, v: V): (r: seq<(string, V)>)
    ensures Lookup(r, k) == Some(v)
    ensures forall j :: j != k ==> Lookup(r, j) == Lookup(d, j)
    ensures forall j :: j in Keys(r) <==> j in Keys(d) || j == k
    ensures k in Keys(d) ==> Keys(r) == Keys(d)
    ensures k !in Keys(d) ==> r == d + [(k, v)]
    ensures UniqueKeys(d) ==> UniqueKeys(r)
  {
    if k in Keys(d) then Overwrite(d, k, v)
    else
      var r := d + [(k, v)];
      assert r[..|d|] == d;
      assert Keys(r) == Keys(d) + [k];
      r
  }
}
