/**
 * The counts of the docket summary: entries per type in order of first
 * appearance, pending and resolved motions and emergency entries.
 */
module DocketSummary {
  import opened Wrappers
  import opened OrderedMap
  import opened Tallies
  import opened DocketTypes

  /** The entry types of the classified entries, in order. */
  function EntryTypes(es: seq<ClassifiedEntry>): (r: seq<EntryType>)
    ensures |r| == |es|
    ensures forall i :: 0 <= i < |es| ==> r[i] == es[i].entryType
  {
    if es == [] then [] else EntryTypes(es[..|es| - 1]) + [es[|es| - 1].entryType]
  }

  /** `type_counts`: counts keyed by entry type in the order types first appear. */
  function TypeCounts(es: seq<ClassifiedEntry>): seq<Entry<EntryType, int>> {
    Tally(EntryTypes(es))
  }

  /**
   * Each type that occurs is counted once, with the number of entries of that
   * type; a type that does not occur has no key; the counts sum to the number
   * of entries.
   */
  lemma TypeCountsExact(es: seq<ClassifiedEntry>, t: EntryType)
    ensures DistinctKeys(TypeCounts(es))
    ensures Get(TypeCounts(es), t)
      == (var n := Occurrences(EntryTypes(es), t); if n == 0 then None else Some(n as int))
    ensures SumValues(TypeCounts(es)) == |es|
  {
    TallyDistinct(EntryTypes(es));
    TallyExact(EntryTypes(es), t);
    TallySum(EntryTypes(es));
  }

  function CountEmergency(es: seq<ClassifiedEntry>): (r: nat)
    ensures r <= |es|
  {
    if es == [] then 0
    else CountEmergency(es[..|es| - 1]) + (if es[|es| - 1].isEmergency then 1 else 0)
  }

  function CountPending(m: seq<Entry<int, MotionChain>>): nat {
    if m == [] then 0 else (if m[0].value.status == Pending then 1 else 0) + CountPending(m[1..])
  }

  function CountResolved(m: seq<Entry<int, MotionChain>>): nat {
    if m == [] then 0 else (if m[0].value.status != Pending then 1 else 0) + CountResolved(m[1..])
  }

  /** Every motion is either pending or resolved. */
  lemma {:induction false} PendingPlusResolved(m: seq<Entry<int, MotionChain>>)
    ensures CountPending(m) + CountResolved(m) == |m|
  {
    if m != [] {
      PendingPlusResolved(m[1..]);
    }
  }

  /** `_generate_summary`'s result for classified entries and the motion chains. */
  function SummaryOf(es: seq<ClassifiedEntry>, m: seq<Entry<int, MotionChain>>): Summary {
    Summary(|es|, TypeCounts(es), |m|, CountPending(m), CountResolved(m), CountEmergency(es))
  }

  /** pending + resolved == total motions; the type counts sum to the number of entries. */
  lemma SummaryConsistent(es: seq<ClassifiedEntry>, m: seq<Entry<int, MotionChain>>)
    ensures SummaryOf(es, m).pendingMotions + SummaryOf(es, m).resolvedMotions == SummaryOf(es, m).totalMotions
    ensures SumValues(SummaryOf(es, m).entryTypes) == SummaryOf(es, m).totalEntries
    ensures SummaryOf(es, m).emergencyMotions <= SummaryOf(es, m).totalEntries
  {
    PendingPlusResolved(m);
    TallySum(EntryTypes(es));
  }
}
