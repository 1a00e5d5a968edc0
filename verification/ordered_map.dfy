/** Python's insertion-ordered `dict`, as a sequence of key/value pairs.
    Assigning to a present key replaces its value in place; assigning to a
    new key appends it. The system relies on this order in several places:
    job files are parsed in the order they were collected, and the repos of
    an installation are listed in map order. */
module OrderedMap {
  import opened Wrappers

  type Dict<K, V> = seq<(K, V)>

  /** `dict.get(k)`: the value stored under `k`, if any. */
  function Get<K(==,!new), V>(m: Dict<K, V>, k: K): (r: Option<V>)
    ensures r.Some? <==> k in KeySet(m)
    decreases |m|
  {
    if |m| == 0 then None
    else if m[0].0 == k then Some(m[0].1)
    else Get(m[1..], k)
  }

  /** `list(d.keys())`. */
  function Keys<K(==,!new), V>(m: Dict<K, V>): (r: seq<K>)
    ensures |r| == |m|
    ensures forall i :: 0 <= i < |m| ==> r[i] == m[i].0
    decreases |m|
  {
    if |m| == 0 then [] else [m[0].0] + Keys(m[1..])
  }

  /** The keys as a set (`k in d`). */
  function KeySet<K(==,!new), V>(m: Dict<K, V>): (r: set<K>)
    ensures forall k :: k in r <==> exists i :: 0 <= i < |m| && m[i].0 == k
    decreases |m|
  {
    if |m| == 0 then {}
    else
      var rest := KeySet(m[1..]);
      assert forall k :: (exists i :: 1 <= i < |m| && m[i].0 == k) <==> k in rest by {
        forall k ensures (exists i :: 1 <= i < |m| && m[i].0 == k) <==> k in rest {
          if k in rest {
            var i :| 0 <= i < |m[1..]| && m[1..][i].0 == k;
            assert m[i + 1].0 == k;
          }
        }
      }
      {m[0].0} + rest
  }

  /** No key is stored twice. Every dictionary built by `Put` has this shape. */
  predicate DistinctKeys<K(==,!new), V>(m: Dict<K, V>) {
    forall i, j :: 0 <= i < j < |m| ==> m[i].0 != m[j].0
  }

  /** `d[k] = v`. */
  function Put<K(==,!new), V>(m: Dict<K, V>, k: K, v: V): (r: Dict<K, V>)
    ensures Get(r, k) == Some(v)
    ensures forall k' :: k' != k ==> Get(r, k') == Get(m, k')
    ensures KeySet(r) == KeySet(m) + {k}
    ensures |r| == if k in KeySet(m) then |m| else |m| + 1
    decreases |m|
  {
    if |m| == 0 then [(k, v)]
    else if m[0].0 == k then [(k, v)] + m[1..]
    else
      var rest := Put(m[1..], k, v);
      assert ([m[0]] + rest)[1..] == rest;
      [m[0]] + rest
  }

  /** Assigning to a present key keeps the key order; a new key goes last. */
  lemma {:induction false} PutKeyOrder<K(!new), V>(m: Dict<K, V>, k: K, v: V)
    ensures Keys(Put(m, k, v)) == if k in KeySet(m) then Keys(m) else Keys(m) + [k]
    decreases |m|
  {
    if |m| > 0 && m[0].0 != k {
      PutKeyOrder(m[1..], k, v);
      assert Put(m, k, v)[1..] == Put(m[1..], k, v);
    }
  }

  /** A pair in front of a dictionary without its key keeps keys distinct. */
  lemma ConsDistinct<K(!new), V>(x: (K, V), m: Dict<K, V>)
    requires DistinctKeys(m) && x.0 !in KeySet(m)
    ensures DistinctKeys([x] + m)
  {
    var r := [x] + m;
    forall i, j | 0 <= i < j < |r| ensures r[i].0 != r[j].0 {
      assert r[j] == m[j - 1];
      if i > 0 { assert r[i] == m[i - 1]; }
    }
  }

  /** `Put` never stores a key twice. */
  lemma {:induction false} PutKeepsDistinct<K(!new), V>(m: Dict<K, V>, k: K, v: V)
    requires DistinctKeys(m)
    ensures DistinctKeys(Put(m, k, v))
    decreases |m|
  {
    if |m| > 0 {
      var tail := m[1..];
      assert DistinctKeys(tail) by {
        forall i, j | 0 <= i < j < |tail| ensures tail[i].0 != tail[j].0 {
          assert tail[i] == m[i + 1] && tail[j] == m[j + 1];
        }
      }
      assert m[0].0 !in KeySet(tail) by {
        forall i | 0 <= i < |tail| ensures tail[i].0 != m[0].0 {
          assert tail[i] == m[i + 1];
        }
      }
      if m[0].0 != k {
        PutKeepsDistinct(tail, k, v);
        ConsDistinct(m[0], Put(tail, k, v));
      } else {
        ConsDistinct((k, v), tail);
      }
    }
  }

  /** `d.pop(k, None)`: `k` is gone, everything else stays in place. */
  function Remove<K(==,!new), V>(m: Dict<K, V>, k: K): (r: Dict<K, V>)
    ensures Get(r, k) == None
    ensures forall k' :: k' != k ==> Get(r, k') == Get(m, k')
    ensures KeySet(r) == KeySet(m) - {k}
    decreases |m|
  {
    if |m| == 0 then []
    else if m[0].0 == k then Remove(m[1..], k)
    else [m[0]] + Remove(m[1..], k)
  }

  /** A list of keys removed one after the other (`for k in ks: d.pop(k, None)`). */
  function RemoveAll<K(==,!new), V>(m: Dict<K, V>, ks: seq<K>): (r: Dict<K, V>)
    ensures KeySet(r) == KeySet(m) - set k | k in ks
    ensures forall k' :: k' !in ks ==> Get(r, k') == Get(m, k')
    decreases |ks|
  {
    if |ks| == 0 then m else RemoveAll(Remove(m, ks[0]), ks[1..])
  }
}
