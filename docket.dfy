/**
 * `DocketAnalyzer`: the object that holds the motion chains of the last
 * analysed docket.  `analyze_entries` resets and fills `motion_chains` in two
 * passes, then derives the alerts and the summary from them.
 *
 * The pattern tables are the `matches` and `capture` oracles the analyzer
 * is built with; the current time is the `now` parameter.
 */
module Docket {
  import opened Wrappers
  import opened OrderedMap
  import opened Tallies
  import opened DocketTypes
  import opened DocketClassify
  import opened DocketChains
  import opened DocketAlerts
  import opened DocketSummary

  class DocketAnalyzer {
    const isProSe: bool
    const matches: (Pattern, string) -> bool
    const capture: (ReferencePattern, string) -> Option<nat>
    /** `self.motion_chains`: chains keyed by the motion's docket number, in insertion order. */
    var motionChains: seq<Entry<int, MotionChain>>

    constructor(isProSe: bool, matches: (Pattern, string) -> bool, capture: (ReferencePattern, string) -> Option<nat>)
      ensures this.isProSe == isProSe && this.matches == matches && this.capture == capture
      ensures motionChains == []
    {
      this.isProSe := isProSe;
      this.matches := matches;
      this.capture := capture;
      motionChains := [];
    }

    /** The status loop of the linking pass: the first order pattern that matches sets the status. */
    method SearchOrderStatus(status: OrderStatus, text: string) returns (r: OrderStatus)
      ensures r == StatusAfterOrder(matches, status, text)
    {
      r := status;
      var i := 0;
      while i < |OrderPatternOrder|
        invariant 0 <= i <= |OrderPatternOrder|
        invariant forall j :: 0 <= j < i ==> !matches(OrderPattern(OrderPatternOrder[j]), text)
        invariant r == status
      {
        if matches(OrderPattern(OrderPatternOrder[i]), text) {
          r := OrderPatternOrder[i];
          return;
        }
        i := i + 1;
      }
    }

    /** The linking pass on one entry: the chain it names, if any, takes the entry. */
    method LinkOne(c: ClassifiedEntry)
      modifies this
      ensures motionChains == LinkEntry(isProSe, matches, old(motionChains), c)
    {
      if c.relatedTo.Some? && c.relatedTo.value != 0 && Get(motionChains, c.relatedTo.value).Some? {
        var k := c.relatedTo.value;
        var chain := Get(motionChains, k).value;
        ghost var linked := LinkedChain(isProSe, matches, chain, c);
        var dn := c.entry.docketNumber;
        if c.entryType == Response {
          chain := chain.(responses := chain.responses + [dn]);
          chain := chain.(replyDeadline := Some(Deadline(isProSe, c.entry.date, "motion_reply", MotionReplyRule)));
        } else if c.entryType == Reply {
          chain := chain.(replies := chain.replies + [dn]);
        } else if c.entryType == Order {
          chain := chain.(orders := chain.orders + [dn]);
          var status := SearchOrderStatus(chain.status, c.entry.text.GetOr(""));
          chain := chain.(status := status);
        }
        assert chain == linked;
        motionChains := Put(motionChains, k, chain);
      }
    }

    /**
     * `analyze_entries`: classify every entry, keeping one chain per MOTION
     * entry; then link the entries that name a chain; then compute the
     * alerts and the summary.
     */
    method AnalyzeEntries(entries: seq<DocketEntry>, now: Instant)
      returns (classified: seq<ClassifiedEntry>, alerts: seq<Alert>, summary: Summary)
      modifies this
      ensures |classified| == |entries|
      ensures forall i :: 0 <= i < |entries| ==> classified[i] == Classify(matches, capture, entries[i])
      ensures motionChains == LinkAll(isProSe, matches, BuildChains(isProSe, classified), classified)
      ensures alerts == SortAlerts(CollectAlerts(motionChains, now))
      ensures summary == SummaryOf(classified, motionChains)
    {
      classified := ClassifyPass(entries);
      ClassifyAllIndex(matches, capture, entries);
      LinkPass(classified);
      alerts := GenerateAlerts(now);
      summary := GenerateSummary(classified);
    }

    /** The first pass: the chains are reset, then every MOTION entry stores a fresh chain. */
    method ClassifyPass(entries: seq<DocketEntry>) returns (classified: seq<ClassifiedEntry>)
      modifies this
      ensures classified == ClassifyAll(matches, capture, entries)
      ensures motionChains == BuildChains(isProSe, classified)
    {
      motionChains := [];
      classified := [];
      var i := 0;
      while i < |entries|
        invariant 0 <= i <= |entries|
        invariant classified == ClassifyAll(matches, capture, entries[..i])
        invariant motionChains == BuildChains(isProSe, classified)
      {
        var c := Classify(matches, capture, entries[i]);
        assert entries[..i + 1][..i] == entries[..i];
        BuildChainsSnoc(isProSe, classified, c);
        classified := classified + [c];
        if c.entryType == Motion {
          motionChains := Put(motionChains, c.entry.docketNumber, NewChain(isProSe, c));
        }
        i := i + 1;
      }
      assert entries[..|entries|] == entries;
    }

    /** The second pass, entry by entry in docket order. */
    method LinkPass(classified: seq<ClassifiedEntry>)
      modifies this
      ensures motionChains == LinkAll(isProSe, matches, old(motionChains), classified)
    {
      var j := 0;
      while j < |classified|
        invariant 0 <= j <= |classified|
        invariant motionChains == LinkAll(isProSe, matches, old(motionChains), classified[..j])
      {
        assert classified[..j + 1][..j] == classified[..j];
        LinkOne(classified[j]);
        j := j + 1;
      }
      assert classified[..|classified|] == classified;
    }

    /** `_generate_alerts`: the alerts of the chains in dictionary order, sorted by priority, then days. */
    method GenerateAlerts(now: Instant) returns (alerts: seq<Alert>)
      ensures alerts == SortAlerts(CollectAlerts(motionChains, now))
    {
      alerts := [];
      var i := 0;
      while i < |motionChains|
        invariant 0 <= i <= |motionChains|
        invariant alerts == CollectAlerts(motionChains[..i], now)
      {
        assert motionChains[..i + 1][..i] == motionChains[..i];
        alerts := alerts + ChainAlerts(motionChains[i].key, motionChains[i].value, now);
        i := i + 1;
      }
      assert motionChains[..|motionChains|] == motionChains;
      alerts := SortAlerts(alerts);
    }

    /** `_generate_summary`: the type counts are tallied entry by entry. */
    method GenerateSummary(entries: seq<ClassifiedEntry>) returns (summary: Summary)
      ensures summary == SummaryOf(entries, motionChains)
    {
      var typeCounts: seq<Entry<EntryType, int>> := [];
      var i := 0;
      while i < |entries|
        invariant 0 <= i <= |entries|
        invariant typeCounts == Tally(EntryTypes(entries[..i]))
      {
        var t := entries[i].entryType;
        assert entries[..i + 1][..i] == entries[..i];
        assert EntryTypes(entries[..i + 1]) == EntryTypes(entries[..i]) + [t];
        assert (EntryTypes(entries[..i]) + [t])[..i] == EntryTypes(entries[..i]);
        typeCounts := Put(typeCounts, t, CountOf(typeCounts, t) + 1);
        i := i + 1;
      }
      assert entries[..|entries|] == entries;
      summary := Summary(|entries|, typeCounts, |motionChains|, CountPending(motionChains),
        CountResolved(motionChains), CountEmergency(entries));
    }
  }
}
