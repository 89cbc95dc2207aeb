/**
 * A Python `dict` keyed by strings, as the registries use it: a sequence of
 * (key, value) pairs in insertion order with distinct keys. Assigning to a key
 * that is present keeps its position; a new key goes at the end.
 */
module Dicts {
  import opened Wrappers

  type Dict<V> = seq<(string, V)>

  predicate DistinctKeys<V>(d: Dict<V>) {
    forall i, j :: 0 <= i < j < |d| ==> d[i].0 != d[j].0
  }

  /** `list(d.keys())`. */
  function Keys<V>(d: Dict<V>): (ks: seq<string>)
    ensures |ks| == |d|
    ensures forall i :: 0 <= i < |d| ==> ks[i] == d[i].0
  {
    seq(|d|, i requires 0 <= i < |d| => d[i].0)
  }

  /** `d[k]`, or None where Python raises `KeyError`. */
  function Get<V>(d: Dict<V>, k: string): (r: Option<V>)
    ensures r.None? <==> k !in Keys(d)
    ensures r.Some? ==> exists i :: 0 <= i < |d| && d[i] == (k, r.value)
  {
    if d == [] then None
    else if d[0].0 == k then Some(d[0].1)
    else Get(d[1..], k)
  }

  /** `d[k] = v`: the binding of `k` is replaced in place, or appended when `k` is new. */
  function Put<V>(d: Dict<V>, k: string, v: V): (r: Dict<V>)
    ensures |r| == if k in Keys(d) then |d| else |d| + 1
  {
    if k in Keys(d) then seq(|d|, i requires 0 <= i < |d| => if d[i].0 == k then (k, v) else d[i])
    else d + [(k, v)]
  }

  /** The entry at each position of a dictionary with distinct keys is what `Get` finds for its key. */
  lemma {:induction false} GetAt<V>(d: Dict<V>, i: int)
    requires DistinctKeys(d) && 0 <= i < |d|
    ensures Get(d, d[i].0) == Some(d[i].1)
  {
    if i > 0 {
      assert d[0].0 != d[i].0;
      assert d[1..][i - 1] == d[i];
      GetAt(d[1..], i - 1);
    }
  }

  /** Assignment keeps the keys distinct and their order, adding `k` at the end when it is new. */
  lemma PutKeys<V>(d: Dict<V>, k: string, v: V)
    requires DistinctKeys(d)
    ensures DistinctKeys(Put(d, k, v))
    ensures Keys(Put(d, k, v)) == if k in Keys(d) then Keys(d) else Keys(d) + [k]
  {
  }

  /** Assignment binds `k` to `v` and changes no other binding. */
  lemma PutGet<V>(d: Dict<V>, k: string, v: V, k': string)
    requires DistinctKeys(d)
    ensures Get(Put(d, k, v), k') == if k' == k then Some(v) else Get(d, k')
  {
    var r := Put(d, k, v);
    PutKeys(d, k, v);
    if k' in Keys(r) {
      var i :| 0 <= i < |r| && r[i].0 == k';
      GetAt(r, i);
      if k' != k {
        assert d[i] == r[i];
        GetAt(d, i);
      }
    }
  }
}
