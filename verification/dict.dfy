/**
 * Python dictionaries whose iteration order matters: an association list with
 * distinct keys, kept in first-insertion order. Assigning to a key that is
 * already present replaces its value where it stands; a new key goes last.
 */
module Dict {
  import opened Wrappers

  type Dict<K, V> = seq<(K, V)>

  predicate DistinctKeys<K(==), V>(d: Dict<K, V>) {
    forall i, j :: 0 <= i < j < |d| ==> d[i].0 != d[j].0
  }

  /** `k in d`. */
  predicate HasKey<K(==), V>(d: Dict<K, V>, k: K) {
    exists i :: 0 <= i < |d| && d[i].0 == k
  }

  /** `d.get(k)`. */
  function Get<K(==), V>(d: Dict<K, V>, k: K): Option<V> {
    if d == [] then None
    else if d[0].0 == k then Some(d[0].1)
    else Get(d[1..], k)
  }

  /** `d[k] = v`. */
  function Put<K(==), V>(d: Dict<K, V>, k: K, v: V): (r: Dict<K, V>)
    ensures |r| == |d| || |r| == |d| + 1
  {
    if d == [] then [(k, v)]
    else if d[0].0 == k then [(k, v)] + d[1..]
    else [d[0]] + Put(d[1..], k, v)
  }

  /** `d.get(k)` is None exactly when `k` is not a key. */
  lemma {:induction false} GetNone<K, V>(d: Dict<K, V>, k: K)
    ensures Get(d, k).None? <==> !HasKey(d, k)
  {
    if d != [] && d[0].0 != k {
      GetNone(d[1..], k);
      if HasKey(d, k) {
        var i :| 0 <= i < |d| && d[i].0 == k;
        assert d[1..][i - 1].0 == k;
      }
      if HasKey(d[1..], k) {
        var i :| 0 <= i < |d[1..]| && d[1..][i].0 == k;
        assert d[i + 1].0 == k;
      }
    }
  }

  /** With distinct keys, the value stored at position `i` is what `Get` returns for its key. */
  lemma {:induction false} GetAt<K, V>(d: Dict<K, V>, i: nat)
    requires DistinctKeys(d) && i < |d|
    ensures Get(d, d[i].0) == Some(d[i].1)
  {
    if i > 0 {
      assert d[1..][i - 1] == d[i];
      GetAt(d[1..], i - 1);
    }
  }

  /** A key that `Get` finds sits, with that value, at some position. */
  lemma {:induction false} GetFound<K, V>(d: Dict<K, V>, k: K, v: V)
    requires Get(d, k) == Some(v)
    ensures exists i :: 0 <= i < |d| && d[i] == (k, v)
  {
    if d[0].0 != k {
      GetFound(d[1..], k, v);
      var i :| 0 <= i < |d[1..]| && d[1..][i] == (k, v);
      assert d[i + 1] == (k, v);
    }
  }

  /** After `d[k] = v`, key `k` maps to `v` and every other key keeps its value. */
  lemma {:induction false} GetPut<K, V>(d: Dict<K, V>, k: K, v: V, k': K)
    ensures Get(Put(d, k, v), k') == if k' == k then Some(v) else Get(d, k')
  {
    if d != [] && d[0].0 != k {
      GetPut(d[1..], k, v, k');
      assert ([d[0]] + Put(d[1..], k, v))[1..] == Put(d[1..], k, v);
    }
  }

  /** A key already present keeps its place (only its value changes); a new key is appended. */
  lemma {:induction false} PutShape<K, V>(d: Dict<K, V>, k: K, v: V)
    requires DistinctKeys(d)
    ensures HasKey(d, k) ==> |Put(d, k, v)| == |d|
    ensures HasKey(d, k) ==>
      forall i :: 0 <= i < |d| ==> Put(d, k, v)[i] == if d[i].0 == k then (k, v) else d[i]
    ensures !HasKey(d, k) ==> Put(d, k, v) == d + [(k, v)]
  {
    GetNone(d, k);
    if d != [] && d[0].0 != k {
      PutShape(d[1..], k, v);
      GetNone(d[1..], k);
      assert d == [d[0]] + d[1..];
    }
  }

  /** Assignment keeps the keys distinct. */
  lemma PutDistinct<K, V>(d: Dict<K, V>, k: K, v: V)
    requires DistinctKeys(d)
    ensures DistinctKeys(Put(d, k, v))
  {
    PutShape(d, k, v);
  }
  /** `for k, v in kvs: d[k] = v`. */
  function PutAll<K(==), V>(d: Dict<K, V>, kvs: seq<(K, V)>): Dict<K, V>
    decreases |kvs|
  {
    if kvs == [] then d else PutAll(Put(d, kvs[0].0, kvs[0].1), kvs[1..])
  }

  /** One more assignment at the end. */
  lemma {:induction false} PutAllSnoc<K, V>(d: Dict<K, V>, kvs: seq<(K, V)>, kv: (K, V))
    ensures PutAll(d, kvs + [kv]) == Put(PutAll(d, kvs), kv.0, kv.1)
    decreases |kvs|
  {
    if kvs == [] {
      assert kvs + [kv] == [kv];
    } else {
      assert (kvs + [kv])[1..] == kvs[1..] + [kv];
      PutAllSnoc(Put(d, kvs[0].0, kvs[0].1), kvs[1..], kv);
    }
  }

  /** A key no assignment names keeps the value it had. */
  lemma {:induction false} PutAllUntouched<K, V>(d: Dict<K, V>, kvs: seq<(K, V)>, k: K)
    requires forall i :: 0 <= i < |kvs| ==> kvs[i].0 != k
    ensures Get(PutAll(d, kvs), k) == Get(d, k)
    decreases |kvs|
  {
    if kvs != [] {
      GetPut(d, kvs[0].0, kvs[0].1, k);
      assert forall i :: 0 <= i < |kvs[1..]| ==> kvs[1..][i] == kvs[i + 1];
      PutAllUntouched(Put(d, kvs[0].0, kvs[0].1), kvs[1..], k);
    }
  }

  /** The last assignment to a key decides its value. */
  lemma {:induction false} PutAllLast<K, V>(d: Dict<K, V>, kvs: seq<(K, V)>, i: nat)
    requires i < |kvs|
    requires forall j :: i < j < |kvs| ==> kvs[j].0 != kvs[i].0
    ensures Get(PutAll(d, kvs), kvs[i].0) == Some(kvs[i].1)
    decreases i
  {
    var d1 := Put(d, kvs[0].0, kvs[0].1);
    assert forall j :: 0 <= j < |kvs[1..]| ==> kvs[1..][j] == kvs[j + 1];
    if i == 0 {
      GetPut(d, kvs[0].0, kvs[0].1, kvs[0].0);
      PutAllUntouched(d1, kvs[1..], kvs[0].0);
    } else {
      PutAllLast(d1, kvs[1..], i - 1);
    }
  }

  /** Assignments keep the keys distinct. */
  lemma {:induction false} PutAllDistinct<K, V>(d: Dict<K, V>, kvs: seq<(K, V)>)
    requires DistinctKeys(d)
    ensures DistinctKeys(PutAll(d, kvs))
    decreases |kvs|
  {
    if kvs != [] {
      PutDistinct(d, kvs[0].0, kvs[0].1);
      PutAllDistinct(Put(d, kvs[0].0, kvs[0].1), kvs[1..]);
    }
  }

  /** Assigning keys the dict does not hold yet, each once, appends them in order. */
  lemma {:induction false} PutAllFresh<K, V>(d: Dict<K, V>, kvs: seq<(K, V)>)
    requires DistinctKeys(d + kvs)
    ensures PutAll(d, kvs) == d + kvs
    decreases |kvs|
  {
    if kvs != [] {
      var d1 := d + [kvs[0]];
      assert DistinctKeys(d) by {
        assert forall i :: 0 <= i < |d| ==> (d + kvs)[i] == d[i];
      }
      assert !HasKey(d, kvs[0].0) by {
        assert (d + kvs)[|d|] == kvs[0];
        assert forall i :: 0 <= i < |d| ==> (d + kvs)[i] == d[i];
      }
      PutShape(d, kvs[0].0, kvs[0].1);
      assert d1 + kvs[1..] == d + kvs;
      PutAllFresh(d1, kvs[1..]);
    }
  }

  /** Assigning distinct keys to an empty dict gives them in order. */
  lemma PutAllFromEmpty<K, V>(kvs: seq<(K, V)>)
    requires DistinctKeys(kvs)
    ensures PutAll([], kvs) == kvs
  {
    var empty: Dict<K, V> := [];
    assert empty + kvs == kvs;
    PutAllFresh(empty, kvs);
  }
}
