/**
 * Python dictionaries keep their keys in insertion order: assigning to an
 * existing key keeps its position, a new key goes to the end, and `del`
 * removes the key.  Such a dictionary is a list of key/value pairs; the
 * operations read and replace the first pair with a given key, so on a list
 * with distinct keys they are the dictionary operations.
 */
module OrderedMap {
  import opened Wrappers

  datatype Entry<K, V> = Entry(key: K, value: V)

  function Keys<K, V>(m: seq<Entry<K, V>>): (r: seq<K>)
    ensures |r| == |m|
    ensures forall i :: 0 <= i < |m| ==> r[i] == m[i].key
  {
    if m == [] then [] else [m[0].key] + Keys(m[1..])
  }

  function Values<K, V>(m: seq<Entry<K, V>>): (r: seq<V>)
    ensures |r| == |m|
    ensures forall i :: 0 <= i < |m| ==> r[i] == m[i].value
  {
    if m == [] then [] else [m[0].value] + Values(m[1..])
  }

  predicate DistinctKeys<K(==), V>(m: seq<Entry<K, V>>) {
    forall i, j :: 0 <= i < j < |m| ==> m[i].key != m[j].key
  }

  predicate HasKey<K(==), V>(m: seq<Entry<K, V>>, k: K) {
    exists i :: 0 <= i < |m| && m[i].key == k
  }

  /** `m.get(k)`: the value stored under the key, if any. */
  function Get<K(==), V>(m: seq<Entry<K, V>>, k: K): Option<V> {
    if m == [] then None
    else if m[0].key == k then Some(m[0].value)
    else Get(m[1..], k)
  }

  /** `m[k] = v`: an existing key keeps its position and takes the new value; a new key is appended. */
  function Put<K(==), V>(m: seq<Entry<K, V>>, k: K, v: V): seq<Entry<K, V>> {
    if m == [] then [Entry(k, v)]
    else if m[0].key == k then [Entry(k, v)] + m[1..]
    else [m[0]] + Put(m[1..], k, v)
  }

  /** `del m[k]`: every pair with the key is removed. */
  function Remove<K(==), V>(m: seq<Entry<K, V>>, k: K): seq<Entry<K, V>> {
    if m == [] then []
    else if m[0].key == k then Remove(m[1..], k)
    else [m[0]] + Remove(m[1..], k)
  }

  lemma HasKeyTail<K, V>(m: seq<Entry<K, V>>, k: K)
    requires m != [] && m[0].key != k
    ensures HasKey(m, k) <==> HasKey(m[1..], k)
  {
    if HasKey(m, k) {
      var i :| 0 <= i < |m| && m[i].key == k;
      assert m[1..][i - 1].key == k;
    }
  }

  /** `m.get(k)` is `None` exactly when the key is absent. */
  lemma {:induction false} GetNone<K, V>(m: seq<Entry<K, V>>, k: K)
    ensures Get(m, k).None? <==> !HasKey(m, k)
  {
    if m != [] && m[0].key != k {
      HasKeyTail(m, k);
      GetNone(m[1..], k);
    }
  }

  /** With distinct keys, every stored pair is what `get` reads back. */
  lemma {:induction false} GetAt<K, V>(m: seq<Entry<K, V>>, i: nat)
    requires DistinctKeys(m) && i < |m|
    ensures Get(m, m[i].key) == Some(m[i].value)
  {
    if i > 0 {
      assert m[1..][i - 1] == m[i];
      GetAt(m[1..], i - 1);
    }
  }

  /** Reading back a key just stored gives the stored value; other keys are unaffected. */
  lemma {:induction false} GetPut<K, V>(m: seq<Entry<K, V>>, k: K, v: V, j: K)
    ensures j == k ==> Get(Put(m, k, v), j) == Some(v)
    ensures j != k ==> Get(Put(m, k, v), j) == Get(m, j)
  {
    if m != [] && m[0].key != k {
      assert Put(m, k, v)[1..] == Put(m[1..], k, v);
      GetPut(m[1..], k, v, j);
    }
  }

  /** Storing under an existing key keeps the key order; a new key goes last. */
  lemma {:induction false} KeysPut<K, V>(m: seq<Entry<K, V>>, k: K, v: V)
    ensures HasKey(m, k) ==> Keys(Put(m, k, v)) == Keys(m)
    ensures !HasKey(m, k) ==> Put(m, k, v) == m + [Entry(k, v)]
  {
    if m != [] && m[0].key != k {
      HasKeyTail(m, k);
      KeysPut(m[1..], k, v);
      assert Put(m, k, v) == [m[0]] + Put(m[1..], k, v);
      if HasKey(m, k) {
        assert Keys(Put(m, k, v)) == [m[0].key] + Keys(Put(m[1..], k, v));
      } else {
        assert [m[0]] + (m[1..] + [Entry(k, v)]) == m + [Entry(k, v)];
      }
    } else if m != [] {
      assert Keys(Put(m, k, v)) == [k] + Keys(m[1..]);
    }
  }

  /** A key is present after `Put` exactly when it was present before or is the stored key. */
  lemma HasKeyPut<K, V>(m: seq<Entry<K, V>>, k: K, v: V, j: K)
    ensures HasKey(Put(m, k, v), j) <==> j == k || HasKey(m, j)
  {
    GetPut(m, k, v, j);
    GetNone(Put(m, k, v), j);
    GetNone(m, j);
  }

  /** Storing keeps the keys distinct. */
  lemma {:induction false} PutDistinct<K, V>(m: seq<Entry<K, V>>, k: K, v: V)
    requires DistinctKeys(m)
    ensures DistinctKeys(Put(m, k, v))
  {
    if m != [] && m[0].key != k {
      var rest := Put(m[1..], k, v);
      PutDistinct(m[1..], k, v);
      forall t | 0 <= t < |rest| ensures rest[t].key != m[0].key {
        assert HasKey(rest, rest[t].key);
        HasKeyPut(m[1..], k, v, rest[t].key);
      }
      assert Put(m, k, v) == [m[0]] + rest;
    } else if m != [] {
      assert Put(m, k, v)[1..] == m[1..];
    }
  }

  /** After `del m[k]` the key is gone and every other key reads as before. */
  lemma {:induction false} GetRemove<K, V>(m: seq<Entry<K, V>>, k: K, j: K)
    ensures j == k ==> Get(Remove(m, k), j) == None
    ensures j != k ==> Get(Remove(m, k), j) == Get(m, j)
  {
    if m != [] {
      GetRemove(m[1..], k, j);
    }
  }

  lemma RemoveHasKey<K, V>(m: seq<Entry<K, V>>, k: K, j: K)
    ensures HasKey(Remove(m, k), j) <==> j != k && HasKey(m, j)
  {
    GetRemove(m, k, j);
    GetNone(Remove(m, k), j);
    GetNone(m, j);
  }

  /** Removing a key keeps the keys distinct. */
  lemma {:induction false} RemoveDistinct<K, V>(m: seq<Entry<K, V>>, k: K)
    requires DistinctKeys(m)
    ensures DistinctKeys(Remove(m, k))
  {
    if m != [] {
      RemoveDistinct(m[1..], k);
      if m[0].key != k {
        var rest := Remove(m[1..], k);
        forall t | 0 <= t < |rest| ensures rest[t].key != m[0].key {
          RemoveHasKey(m[1..], k, rest[t].key);
          assert HasKey(rest, rest[t].key);
        }
      }
    }
  }

  /** Storing under a key no pair has appends the pair. */
  lemma PutFresh<K, V>(m: seq<Entry<K, V>>, k: K, v: V)
    requires forall i :: 0 <= i < |m| ==> m[i].key != k
    ensures Put(m, k, v) == m + [Entry(k, v)]
  {
    KeysPut(m, k, v);
  }

  /** Every pair after `Put` is an old pair or the stored one. */
  lemma {:induction false} PutEntries<K, V>(m: seq<Entry<K, V>>, k: K, v: V)
    ensures forall e :: e in Put(m, k, v) ==> e in m || e == Entry(k, v)
  {
    if m != [] && m[0].key != k {
      PutEntries(m[1..], k, v);
      assert m == [m[0]] + m[1..];
    } else if m != [] {
      assert m == [m[0]] + m[1..];
    }
  }

  /** Every pair after `del` is an old pair. */
  lemma {:induction false} RemoveEntries<K, V>(m: seq<Entry<K, V>>, k: K)
    ensures forall e :: e in Remove(m, k) ==> e in m && e.key != k
  {
    if m != [] {
      RemoveEntries(m[1..], k);
      assert m == [m[0]] + m[1..];
    }
  }

  /** `del` of an absent key would change nothing. */
  lemma {:induction false} RemoveAbsent<K, V>(m: seq<Entry<K, V>>, k: K)
    requires !HasKey(m, k)
    ensures Remove(m, k) == m
  {
    if m != [] {
      HasKeyTail(m, k);
      RemoveAbsent(m[1..], k);
      assert m == [m[0]] + m[1..];
    }
  }
}
