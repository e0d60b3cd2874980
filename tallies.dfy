/**
 * Tallies: `counts[k] = counts.get(k, 0) + 1` for each key of a sequence,
 * into an insertion-ordered dictionary.
 */
module Tallies {
  import opened Wrappers
  import opened OrderedMap

  /** `counts.get(k, 0)` */
  function CountOf<K(==)>(m: seq<Entry<K, int>>, k: K): int {
    match Get(m, k)
    case None => 0
    case Some(n) => n
  }

  function Bump<K(==)>(m: seq<Entry<K, int>>, k: K): seq<Entry<K, int>> {
    Put(m, k, CountOf(m, k) + 1)
  }

  /** The counts of `ks`, keyed in order of first appearance. */
  function Tally<K(==)>(ks: seq<K>): seq<Entry<K, int>> {
    if ks == [] then [] else Bump(Tally(ks[..|ks| - 1]), ks[|ks| - 1])
  }

  lemma {:induction false} TallyDistinct<K>(ks: seq<K>)
    ensures DistinctKeys(Tally(ks))
  {
    if ks != [] {
      var init := ks[..|ks| - 1];
      TallyDistinct(init);
      PutDistinct(Tally(init), ks[|ks| - 1], CountOf(Tally(init), ks[|ks| - 1]) + 1);
    }
  }

  /** The number of occurrences of `k` in `ks`. */
  function Occurrences<K(==)>(ks: seq<K>, k: K): nat {
    if ks == [] then 0 else Occurrences(ks[..|ks| - 1], k) + (if ks[|ks| - 1] == k then 1 else 0)
  }

  /** A key is present exactly when it occurs, and holds the number of its occurrences. */
  lemma {:induction false} TallyExact<K>(ks: seq<K>, u: K)
    ensures Get(Tally(ks), u) == (if Occurrences(ks, u) == 0 then None else Some(Occurrences(ks, u) as int))
  {
    if ks != [] {
      var init := ks[..|ks| - 1];
      TallyExact(init, u);
      GetPut(Tally(init), ks[|ks| - 1], CountOf(Tally(init), ks[|ks| - 1]) + 1, u);
    }
  }

  /** The counts add up to the length of the sequence. */
  lemma {:induction false} TallySum<K>(ks: seq<K>)
    ensures SumValues(Tally(ks)) == |ks|
  {
    if ks != [] {
      var init := ks[..|ks| - 1];
      TallySum(init);
      SumPut(Tally(init), ks[|ks| - 1], CountOf(Tally(init), ks[|ks| - 1]) + 1);
    }
  }

  /** `sum(m.values())` for integer values. */
  function SumValues<K>(m: seq<Entry<K, int>>): int {
    if m == [] then 0 else m[0].value + SumValues(m[1..])
  }

  /** Storing `v` under `k` changes the sum of the values by `v` minus what `k` held before. */
  lemma {:induction false} SumPut<K>(m: seq<Entry<K, int>>, k: K, v: int)
    ensures SumValues(Put(m, k, v)) == SumValues(m) - CountOf(m, k) + v
  {
    if m != [] && m[0].key != k {
      SumPut(m[1..], k, v);
      assert Put(m, k, v)[1..] == Put(m[1..], k, v);
    } else if m != [] {
      assert Put(m, k, v)[1..] == m[1..];
    }
  }
}
