/**
 * Python's insertion-ordered `dict`, as a sequence of key/value pairs.
 *
 * Assigning to a present key replaces its value in place; assigning to a new
 * key appends the pair, so iteration order is the order of first insertion.
 */
module Dict {
  import opened Wrappers

  type Dict<K, V> = seq<(K, V)>

  function Keys<K, V>(d: Dict<K, V>): set<K>
  {
    set i | 0 <= i < |d| :: d[i].0
  }

  /** Every key is stored once, as Python guarantees for a dict. */
  predicate UniqueKeys<K(==), V>(d: Dict<K, V>)
  {
    forall i, j :: 0 <= i < j < |d| ==> d[i].0 != d[j].0
  }

  lemma KeysCons<K, V>(d: Dict<K, V>)
    requires |d| > 0
    ensures Keys(d) == {d[0].0} + Keys(d[1..])
  {
    forall k | k in Keys(d) ensures k in {d[0].0} + Keys(d[1..]) {
      var i :| 0 <= i < |d| && d[i].0 == k;
      if i > 0 { assert d[1..][i - 1] == d[i]; }
    }
    forall k | k in Keys(d[1..]) ensures k in Keys(d) {
      var i :| 0 <= i < |d[1..]| && d[1..][i].0 == k;
      assert d[i + 1].0 == k;
    }
  }

  /** `d[k]` when `k in d`, and `None` otherwise (Python's `d.get(k)`). */
  function Get<K(==), V>(d: Dict<K, V>, k: K): (r: Option<V>)
    ensures r.Some? <==> k in Keys(d)
    ensures r.Some? ==> exists i :: 0 <= i < |d| && d[i] == (k, r.value)
  {
    if |d| == 0 then None
    else
      KeysCons(d);
      if d[0].0 == k then Some(d[0].1)
      else
        var r := Get(d[1..], k);
        assert r.Some? ==> exists i :: 0 <= i < |d[1..]| && d[1..][i] == (k, r.value);
        r
  }

  /** In a dict with unique keys, the pair stored at index `i` is what `Get` finds. */
  lemma GetAt<K, V>(d: Dict<K, V>, i: nat)
    requires UniqueKeys(d) && i < |d|
    ensures Get(d, d[i].0) == Some(d[i].1)
  {
    if i > 0 && d[0].0 != d[i].0 {
      GetAt(d[1..], i - 1);
    }
  }

  /** Python's `d[k] = v`: the value of a present key is replaced where it stands, a new key goes last. */
  function Put<K(==), V>(d: Dict<K, V>, k: K, v: V): (r: Dict<K, V>)
    ensures k !in Keys(d) ==> r == d + [(k, v)]
    ensures k in Keys(d) ==> |r| == |d| && forall i :: 0 <= i < |d| ==> r[i].0 == d[i].0
  {
    if |d| == 0 then [(k, v)]
    else if d[0].0 == k then [(k, v)] + d[1..]
    else
      KeysCons(d);
      [d[0]] + Put(d[1..], k, v)
  }

  /** After `d[k] = v`, `k` holds `v` and every other key holds what it held before. */
  lemma {:induction false} GetPut<K, V>(d: Dict<K, V>, k: K, v: V, k': K)
    ensures Get(Put(d, k, v), k') == if k' == k then Some(v) else Get(d, k')
  {
    if |d| > 0 && d[0].0 != k {
      GetPut(d[1..], k, v, k');
      assert ([d[0]] + Put(d[1..], k, v))[1..] == Put(d[1..], k, v);
    } else if |d| > 0 {
      assert ([(k, v)] + d[1..])[1..] == d[1..];
    }
  }

  lemma GetPutEverywhere<K, V>(d: Dict<K, V>, k: K, v: V)
    ensures forall k' :: Get(Put(d, k, v), k') == if k' == k then Some(v) else Get(d, k')
  {
    forall k' ensures Get(Put(d, k, v), k') == if k' == k then Some(v) else Get(d, k') {
      GetPut(d, k, v, k');
    }
  }

  lemma KeysPut<K, V>(d: Dict<K, V>, k: K, v: V)
    ensures Keys(Put(d, k, v)) == Keys(d) + {k}
  {
    forall k' ensures k' in Keys(Put(d, k, v)) <==> k' in Keys(d) + {k} {
      GetPut(d, k, v, k');
    }
  }

  lemma PutUnique<K, V>(d: Dict<K, V>, k: K, v: V)
    requires UniqueKeys(d)
    ensures UniqueKeys(Put(d, k, v))
  {
    var r := Put(d, k, v);
    if k !in Keys(d) {
      forall i, j | 0 <= i < j < |r| ensures r[i].0 != r[j].0 {
        if j == |d| { assert r[i].0 in Keys(d); }
      }
    }
  }
}
