/**
 * The two passes of `analyze_entries`, as values: the first pass classifies
 * every entry and keeps one fresh chain per MOTION entry, keyed by docket
 * number; the second pass lets each RESPONSE, REPLY and ORDER entry that
 * names an existing chain update that chain.
 */
module DocketChains {
  import opened Wrappers
  import opened OrderedMap
  import opened DocketTypes
  import opened DocketClassify

  /** The first pass on one entry; an absent text reads as the empty string. */
  function Classify(matches: (Pattern, string) -> bool, capture: (ReferencePattern, string) -> Option<nat>,
                    e: DocketEntry): ClassifiedEntry
  {
    var text := e.text.GetOr("");
    var c := ClassifyEntry(matches, text);
    ClassifiedEntry(e, c.0, c.1, IsEmergency(text), ExtractRelatedDocketNum(capture, text))
  }

  /** Every field of a classified entry comes from the entry's text, a missing text read as empty. */
  lemma ClassifySpec(matches: (Pattern, string) -> bool, capture: (ReferencePattern, string) -> Option<nat>,
                     e: DocketEntry)
    ensures var r := Classify(matches, capture, e);
      && r.entry == e
      && (r.entryType, r.motionType) == ClassifyEntry(matches, e.text.GetOr(""))
      && r.motionType.Some? == (r.entryType == Motion)
      && r.isEmergency == IsEmergency(e.text.GetOr(""))
      && r.relatedTo == ExtractRelatedDocketNum(capture, e.text.GetOr(""))
  {
    ClassifyEntrySpec(matches, e.text.GetOr(""));
  }

  /** The classified entries of the first pass, in docket order. */
  function ClassifyAll(matches: (Pattern, string) -> bool, capture: (ReferencePattern, string) -> Option<nat>,
                       es: seq<DocketEntry>): seq<ClassifiedEntry>
  {
    MapSeq((e: DocketEntry) => Classify(matches, capture, e), es)
  }

  /** The first pass classifies every entry on its own. */
  lemma ClassifyAllIndex(matches: (Pattern, string) -> bool,
                         capture: (ReferencePattern, string) -> Option<nat>, es: seq<DocketEntry>)
    ensures |ClassifyAll(matches, capture, es)| == |es|
    ensures forall i :: 0 <= i < |es| ==> ClassifyAll(matches, capture, es)[i] == Classify(matches, capture, es[i])
  {
    MapSeqIndex((e: DocketEntry) => Classify(matches, capture, e), es);
  }

  /** A chain as the first pass creates it: pending, unanswered, response due from the motion date. */
  predicate IsFreshChain(isProSe: bool, k: int, ch: MotionChain) {
    ch.motionDocketNum == k && ch.status == Pending && ch.responses == [] && ch.replies == []
    && ch.orders == [] && ch.replyDeadline == None
    && ch.responseDeadline == Some(Deadline(isProSe, ch.motionDate, "motion_response", MotionResponseRule))
  }

  /** The chain for a motion entry; a missing `filed_by` reads as "Unknown". */
  function NewChain(isProSe: bool, c: ClassifiedEntry): (r: MotionChain)
    ensures IsFreshChain(isProSe, c.entry.docketNumber, r)
    ensures r.motionDate == c.entry.date && r.motionText == c.entry.text.GetOr("")
    ensures r.filedBy == c.entry.filedBy.GetOr("Unknown")
    ensures c.motionType.Some? ==> r.motionType == c.motionType.value
  {
    MotionChain(c.entry.docketNumber, c.motionType.GetOr(OtherMotion), c.entry.date, c.entry.text.GetOr(""),
      c.entry.filedBy.GetOr("Unknown"), [], [], [], Pending,
      Some(Deadline(isProSe, c.entry.date, "motion_response", MotionResponseRule)), None)
  }

  predicate IsMotionEntry(c: ClassifiedEntry, k: int) {
    c.entryType == Motion && c.entry.docketNumber == k
  }

  predicate IsMotionNumber(cs: seq<ClassifiedEntry>, k: int) {
    exists i :: 0 <= i < |cs| && IsMotionEntry(cs[i], k)
  }

  /** The chains after the first pass over `cs`. */
  function BuildChains(isProSe: bool, cs: seq<ClassifiedEntry>): seq<Entry<int, MotionChain>> {
    if cs == [] then []
    else
      var m := BuildChains(isProSe, cs[..|cs| - 1]);
      var c := cs[|cs| - 1];
      if c.entryType == Motion then Put(m, c.entry.docketNumber, NewChain(isProSe, c)) else m
  }

  /** One more entry in the first pass: a motion stores its fresh chain, anything else changes nothing. */
  lemma BuildChainsSnoc(isProSe: bool, cs: seq<ClassifiedEntry>, c: ClassifiedEntry)
    ensures BuildChains(isProSe, cs + [c]) ==
      if c.entryType == Motion then Put(BuildChains(isProSe, cs), c.entry.docketNumber, NewChain(isProSe, c))
      else BuildChains(isProSe, cs)
  {
    assert (cs + [c])[..|cs|] == cs;
  }

  /** The first pass gives every docket number at most one chain. */
  lemma {:induction false} BuildChainsDistinct(isProSe: bool, cs: seq<ClassifiedEntry>)
    ensures DistinctKeys(BuildChains(isProSe, cs))
  {
    if cs != [] {
      var c := cs[|cs| - 1];
      BuildChainsDistinct(isProSe, cs[..|cs| - 1]);
      if c.entryType == Motion {
        PutDistinct(BuildChains(isProSe, cs[..|cs| - 1]), c.entry.docketNumber, NewChain(isProSe, c));
      }
    }
  }

  /** The keys after the first pass are exactly the docket numbers of the MOTION entries. */
  lemma {:induction false} BuildChainsKeys(isProSe: bool, cs: seq<ClassifiedEntry>, k: int)
    ensures HasKey(BuildChains(isProSe, cs), k) <==> IsMotionNumber(cs, k)
  {
    if cs != [] {
      var init := cs[..|cs| - 1];
      var c := cs[|cs| - 1];
      BuildChainsKeys(isProSe, init, k);
      if c.entryType == Motion {
        HasKeyPut(BuildChains(isProSe, init), c.entry.docketNumber, NewChain(isProSe, c), k);
      }
      if IsMotionNumber(init, k) {
        var i :| 0 <= i < |init| && IsMotionEntry(init[i], k);
        assert cs[i] == init[i];
      }
      if IsMotionNumber(cs, k) && !IsMotionEntry(c, k) {
        var i :| 0 <= i < |cs| && IsMotionEntry(cs[i], k);
        assert i < |init| && init[i] == cs[i];
      }
    }
  }

  /**
   * The chain under `k` is the one built from the last MOTION entry numbered
   * `k`: a later motion with the same number replaces an earlier chain.
   */
  lemma {:induction false} BuildChainsLatest(isProSe: bool, cs: seq<ClassifiedEntry>, i: nat)
    requires i < |cs| && cs[i].entryType == Motion
    requires forall j :: i < j < |cs| ==> !IsMotionEntry(cs[j], cs[i].entry.docketNumber)
    ensures Get(BuildChains(isProSe, cs), cs[i].entry.docketNumber) == Some(NewChain(isProSe, cs[i]))
  {
    var init := cs[..|cs| - 1];
    var c := cs[|cs| - 1];
    var k := cs[i].entry.docketNumber;
    if i < |cs| - 1 {
      assert init[i] == cs[i];
      forall j | i < j < |init| ensures !IsMotionEntry(init[j], k) {
        assert init[j] == cs[j];
      }
      BuildChainsLatest(isProSe, init, i);
      if c.entryType == Motion {
        GetPut(BuildChains(isProSe, init), c.entry.docketNumber, NewChain(isProSe, c), k);
      }
    } else {
      GetPut(BuildChains(isProSe, init), k, NewChain(isProSe, c), k);
    }
  }

  /** Every chain of the first pass is fresh and filed under its own motion's number. */
  lemma {:induction false} BuildChainsFresh(isProSe: bool, cs: seq<ClassifiedEntry>, k: int)
    ensures Get(BuildChains(isProSe, cs), k).Some? ==> IsFreshChain(isProSe, k, Get(BuildChains(isProSe, cs), k).value)
  {
    if cs != [] {
      var init := cs[..|cs| - 1];
      var c := cs[|cs| - 1];
      BuildChainsFresh(isProSe, init, k);
      if c.entryType == Motion {
        GetPut(BuildChains(isProSe, init), c.entry.docketNumber, NewChain(isProSe, c), k);
      }
    }
  }

  /** The status an ORDER sets: that of the first order pattern that matches, else the old one. */
  function StatusAfterOrder(matches: (Pattern, string) -> bool, status: OrderStatus, text: string): (r: OrderStatus)
    ensures (forall i :: 0 <= i < |OrderPatternOrder| ==> !matches(OrderPattern(OrderPatternOrder[i]), text)) ==> r == status
    ensures forall i :: 0 <= i < |OrderPatternOrder| && matches(OrderPattern(OrderPatternOrder[i]), text) ==>
      (forall j :: 0 <= j < i ==> !matches(OrderPattern(OrderPatternOrder[j]), text)) ==>
      r == OrderPatternOrder[i]
  {
    var i := FirstIndex(OrderPatternOrder, (s: OrderStatus) => matches(OrderPattern(s), text));
    if i.Some? then OrderPatternOrder[i.value] else status
  }

  /** `related_to and related_to in self.motion_chains`: a non-zero number that names a chain. */
  predicate Links(m: seq<Entry<int, MotionChain>>, c: ClassifiedEntry) {
    c.relatedTo.Some? && c.relatedTo.value != 0 && Get(m, c.relatedTo.value).Some?
  }

  predicate LinksTo(m: seq<Entry<int, MotionChain>>, c: ClassifiedEntry, k: int) {
    Links(m, c) && c.relatedTo.value == k
  }

  /** The chain after one entry of the second pass names it. */
  function LinkedChain(isProSe: bool, matches: (Pattern, string) -> bool, ch: MotionChain, c: ClassifiedEntry): MotionChain {
    var t := c.entryType;
    var dn := c.entry.docketNumber;
    ch.(responses := ch.responses + (if t == Response then [dn] else []),
        replyDeadline := if t == Response then Some(Deadline(isProSe, c.entry.date, "motion_reply", MotionReplyRule))
                         else ch.replyDeadline,
        replies := ch.replies + (if t == Reply then [dn] else []),
        orders := ch.orders + (if t == Order then [dn] else []),
        status := if t == Order then StatusAfterOrder(matches, ch.status, c.entry.text.GetOr("")) else ch.status)
  }

  /** The second pass on one entry: only an entry that names an existing chain changes it. */
  function LinkEntry(isProSe: bool, matches: (Pattern, string) -> bool, m: seq<Entry<int, MotionChain>>,
                     c: ClassifiedEntry): seq<Entry<int, MotionChain>> {
    if Links(m, c) then
      var k := c.relatedTo.value;
      Put(m, k, LinkedChain(isProSe, matches, Get(m, k).value, c))
    else m
  }

  /** The second pass over `cs`. */
  function LinkAll(isProSe: bool, matches: (Pattern, string) -> bool, m: seq<Entry<int, MotionChain>>,
                   cs: seq<ClassifiedEntry>): seq<Entry<int, MotionChain>> {
    if cs == [] then m else LinkEntry(isProSe, matches, LinkAll(isProSe, matches, m, cs[..|cs| - 1]), cs[|cs| - 1])
  }

  /** The entries of `cs` that name chain `k`, in docket order. */
  function LinkingTo(m: seq<Entry<int, MotionChain>>, cs: seq<ClassifiedEntry>, k: int): seq<ClassifiedEntry> {
    if cs == [] then []
    else LinkingTo(m, cs[..|cs| - 1], k) + (if LinksTo(m, cs[|cs| - 1], k) then [cs[|cs| - 1]] else [])
  }

  /** One chain taking the entries that name it, one after another. */
  function ApplyAll(isProSe: bool, matches: (Pattern, string) -> bool, ch: MotionChain, es: seq<ClassifiedEntry>): MotionChain {
    if es == [] then ch else LinkedChain(isProSe, matches, ApplyAll(isProSe, matches, ch, es[..|es| - 1]), es[|es| - 1])
  }

  /** The one-entry step keeps the keys and changes at most the chain the entry names. */
  lemma LinkEntryStep(isProSe: bool, matches: (Pattern, string) -> bool, m: seq<Entry<int, MotionChain>>,
                      c: ClassifiedEntry, k: int)
    ensures Keys(LinkEntry(isProSe, matches, m, c)) == Keys(m)
    ensures DistinctKeys(m) ==> DistinctKeys(LinkEntry(isProSe, matches, m, c))
    ensures LinksTo(m, c, k) ==> Get(LinkEntry(isProSe, matches, m, c), k) == Some(LinkedChain(isProSe, matches, Get(m, k).value, c))
    ensures !LinksTo(m, c, k) ==> Get(LinkEntry(isProSe, matches, m, c), k) == Get(m, k)
  {
    if Links(m, c) {
      var j := c.relatedTo.value;
      var ch := Get(m, j).value;
      GetNone(m, j);
      KeysPut(m, j, LinkedChain(isProSe, matches, ch, c));
      GetPut(m, j, LinkedChain(isProSe, matches, ch, c), k);
      if DistinctKeys(m) {
        PutDistinct(m, j, LinkedChain(isProSe, matches, ch, c));
      }
    }
  }

  lemma SameKeysGet<K, V>(a: seq<Entry<K, V>>, b: seq<Entry<K, V>>, k: K)
    requires Keys(a) == Keys(b)
    ensures Get(a, k).Some? <==> Get(b, k).Some?
  {
    GetNone(a, k);
    GetNone(b, k);
    if HasKey(a, k) {
      var t :| 0 <= t < |a| && a[t].key == k;
      assert Keys(b)[t] == k;
    }
    if HasKey(b, k) {
      var t :| 0 <= t < |b| && b[t].key == k;
      assert Keys(a)[t] == k;
    }
  }

  /** The second pass keeps the keys, in order, and keeps them distinct. */
  lemma {:induction false} LinkAllKeys(isProSe: bool, matches: (Pattern, string) -> bool,
                                       m: seq<Entry<int, MotionChain>>, cs: seq<ClassifiedEntry>)
    requires DistinctKeys(m)
    ensures Keys(LinkAll(isProSe, matches, m, cs)) == Keys(m)
    ensures DistinctKeys(LinkAll(isProSe, matches, m, cs))
  {
    if cs != [] {
      LinkAllKeys(isProSe, matches, m, cs[..|cs| - 1]);
      LinkEntryStep(isProSe, matches, LinkAll(isProSe, matches, m, cs[..|cs| - 1]), cs[|cs| - 1], 0);
    }
  }

  /**
   * Per chain, the second pass is the chain taking, in docket order, exactly
   * the entries that name it; a number without a chain stays without one.
   */
  lemma {:induction false} LinkAllPerChain(isProSe: bool, matches: (Pattern, string) -> bool,
                                           m: seq<Entry<int, MotionChain>>, cs: seq<ClassifiedEntry>, k: int)
    requires DistinctKeys(m)
    ensures Get(m, k).Some? ==>
      Get(LinkAll(isProSe, matches, m, cs), k) == Some(ApplyAll(isProSe, matches, Get(m, k).value, LinkingTo(m, cs, k)))
    ensures Get(m, k).None? ==> Get(LinkAll(isProSe, matches, m, cs), k) == None
  {
    if cs != [] {
      var init := cs[..|cs| - 1];
      var c := cs[|cs| - 1];
      var p := LinkAll(isProSe, matches, m, init);
      LinkAllPerChain(isProSe, matches, m, init, k);
      LinkAllKeys(isProSe, matches, m, init);
      LinkEntryStep(isProSe, matches, p, c, k);
      if c.relatedTo.Some? {
        SameKeysGet(p, m, c.relatedTo.value);
      }
      assert LinksTo(p, c, k) == LinksTo(m, c, k);
      var l := LinkingTo(m, init, k);
      if LinksTo(m, c, k) {
        assert LinkingTo(m, cs, k) == l + [c];
        assert (l + [c])[..|l|] == l;
      } else {
        assert LinkingTo(m, cs, k) == l;
      }
    }
  }

  /** The numbers of the entries of type `t` in `es`, in order. */
  function NumbersOfType(es: seq<ClassifiedEntry>, t: EntryType): seq<int> {
    if es == [] then []
    else NumbersOfType(es[..|es| - 1], t) + (if es[|es| - 1].entryType == t then [es[|es| - 1].entry.docketNumber] else [])
  }

  predicate HasType(es: seq<ClassifiedEntry>, t: EntryType) {
    exists i :: 0 <= i < |es| && es[i].entryType == t
  }

  /**
   * A chain keeps its motion and its response deadline, and gains the
   * numbers of its RESPONSE, REPLY and ORDER entries, in order.
   */
  lemma {:induction false} ApplyAllLists(isProSe: bool, matches: (Pattern, string) -> bool, ch: MotionChain, es: seq<ClassifiedEntry>)
    ensures var r := ApplyAll(isProSe, matches, ch, es);
      r.motionDocketNum == ch.motionDocketNum && r.motionType == ch.motionType && r.motionDate == ch.motionDate
      && r.motionText == ch.motionText && r.filedBy == ch.filedBy && r.responseDeadline == ch.responseDeadline
      && r.responses == ch.responses + NumbersOfType(es, Response)
      && r.replies == ch.replies + NumbersOfType(es, Reply)
      && r.orders == ch.orders + NumbersOfType(es, Order)
  {
    if es != [] {
      ApplyAllLists(isProSe, matches, ch, es[..|es| - 1]);
    }
  }

  /** Only an ORDER changes the status; the last ORDER's status search decides it. */
  lemma {:induction false} ApplyAllStatus(isProSe: bool, matches: (Pattern, string) -> bool, ch: MotionChain, es: seq<ClassifiedEntry>)
    ensures !HasType(es, Order) ==> ApplyAll(isProSe, matches, ch, es).status == ch.status
    ensures es != [] && es[|es| - 1].entryType == Order ==>
      ApplyAll(isProSe, matches, ch, es).status == StatusAfterOrder(matches, ApplyAll(isProSe, matches, ch, es[..|es| - 1]).status, es[|es| - 1].entry.text.GetOr(""))
  {
    if es != [] {
      var init := es[..|es| - 1];
      ApplyAllStatus(isProSe, matches, ch, init);
      if HasType(init, Order) {
        var i :| 0 <= i < |init| && init[i].entryType == Order;
        assert es[i] == init[i];
      }
    }
  }

  /** The reply deadline is set from the date of the last RESPONSE, and only a RESPONSE sets it. */
  lemma {:induction false} ApplyAllReplyDeadline(isProSe: bool, matches: (Pattern, string) -> bool, ch: MotionChain,
                                                 es: seq<ClassifiedEntry>, i: nat)
    requires i < |es| && es[i].entryType == Response
    requires forall j :: i < j < |es| ==> es[j].entryType != Response
    ensures ApplyAll(isProSe, matches, ch, es).replyDeadline == Some(Deadline(isProSe, es[i].entry.date, "motion_reply", MotionReplyRule))
  {
    var init := es[..|es| - 1];
    if i < |es| - 1 {
      assert init[i] == es[i];
      forall j | i < j < |init| ensures init[j].entryType != Response {
        assert init[j] == es[j];
      }
      ApplyAllReplyDeadline(isProSe, matches, ch, init, i);
    }
  }

  /** Without a RESPONSE the reply deadline stays as it was. */
  lemma {:induction false} ApplyAllNoResponse(isProSe: bool, matches: (Pattern, string) -> bool, ch: MotionChain, es: seq<ClassifiedEntry>)
    requires !HasType(es, Response)
    ensures ApplyAll(isProSe, matches, ch, es).replyDeadline == ch.replyDeadline
  {
    if es != [] {
      var init := es[..|es| - 1];
      forall i | 0 <= i < |init| ensures init[i].entryType != Response {
        assert init[i] == es[i];
      }
      ApplyAllNoResponse(isProSe, matches, ch, init);
    }
  }
}
