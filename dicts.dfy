/**
 * Python dictionaries whose iteration order matters (they iterate in insertion order),
 * modelled as association lists with distinct keys.
 */
module Dicts {
  import opened Wrappers

  type Dict<K(==,!new), V> = seq<(K, V)>

  /** The keys in iteration order. */
  function Keys<K(==,!new), V>(d: Dict<K, V>): (ks: seq<K>)
    ensures |ks| == |d|
  {
    if d == [] then [] else [d[0].0] + Keys(d[1..])
  }

  /** No key occurs twice, as in every Python dict. */
  predicate Distinct<K(==,!new), V>(d: Dict<K, V>) {
    d == [] || (d[0].0 !in Keys(d[1..]) && Distinct(d[1..]))
  }

  /** Pair `i` is the first whose key is `k`. */
  predicate FirstKeyAt<K(==,!new), V>(d: Dict<K, V>, k: K, i: int) {
    0 <= i < |d| && d[i].0 == k && forall j :: 0 <= j < i ==> d[j].0 != k
  }

  /** `d.get(k)`: the value of the first pair with key `k`, if any. */
  function Get<K(==,!new), V>(d: Dict<K, V>, k: K): (r: Option<V>)
    ensures r.Some? <==> k in Keys(d)
    ensures r.Some? ==> exists i :: FirstKeyAt(d, k, i) && d[i].1 == r.value
  {
    if d == [] then None
    else if d[0].0 == k then
      assert FirstKeyAt(d, k, 0);
      Some(d[0].1)
    else
      var r := Get(d[1..], k);
      assert r.Some? ==> exists i :: FirstKeyAt(d, k, i) && d[i].1 == r.value by {
        if r.Some? {
          var i :| FirstKeyAt(d[1..], k, i) && d[1..][i].1 == r.value;
          assert FirstKeyAt(d, k, i + 1);
        }
      }
      r
  }

  /** `d.get(k, default)`. */
  function GetOr<K(==,!new), V>(d: Dict<K, V>, k: K, default: V): V {
    Get(d, k).GetOr(default)
  }

  /**
   * `d[k] = v`: an existing key keeps its position and takes the new value,
   * a new key goes at the end.
   */
  function Put<K(==,!new), V>(d: Dict<K, V>, k: K, v: V): (r: Dict<K, V>)
    ensures Get(r, k) == Some(v)
    ensures forall k' :: k' != k ==> Get(r, k') == Get(d, k')
    ensures k in Keys(d) ==> Keys(r) == Keys(d)
    ensures k !in Keys(d) ==> Keys(r) == Keys(d) + [k]
    ensures Distinct(d) ==> Distinct(r)
  {
    if d == [] then [(k, v)]
    else if d[0].0 == k then [(k, v)] + d[1..]
    else
      var rest := Put(d[1..], k, v);
      assert Keys([d[0]] + rest) == [d[0].0] + Keys(rest) by {
        assert ([d[0]] + rest)[1..] == rest;
      }
      assert ([d[0]] + rest)[1..] == rest;
      [d[0]] + rest
  }
}
