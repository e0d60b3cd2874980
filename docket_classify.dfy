/**
 * Classification of docket entries by first-match precedence, emergency
 * detection and extraction of the docket number an entry refers to.
 *
 * The analyzer's regular expressions are not modelled: `matches(p, text)`
 * says whether named pattern `p` occurs in `text`, and `capture(p, text)`
 * is the number captured by reference pattern `p`, if it matches.  The
 * emergency indicators are literal enough to be modelled directly.
 */
module DocketClassify {
  import opened Wrappers
  import opened Text
  import opened DocketTypes

  // ---------------------------------------------------------------------------
  // Emergency indicators

  /** `EX`, whitespace from `i + 2` up to `j` (at least one character), then `PARTE`. */
  predicate ExParteAt(u: string, i: int, j: int) {
    0 <= i && i + 2 < j && j + 5 <= |u| && u[i..i + 2] == "EX" && u[j..j + 5] == "PARTE"
    && forall k :: i + 2 <= k < j ==> IsSpace(u[k])
  }

  predicate HasExParte(u: string) {
    exists i, j :: 0 <= i < j <= |u| && ExParteAt(u, i, j)
  }

  /** `is_emergency`: EMERGENCY, EX PARTE, URGENT, NECESSITOUS or IMMEDIATE occurs, ignoring case. */
  predicate IsEmergency(text: string) {
    var u := Upper(text);
    Contains(u, "EMERGENCY") || HasExParte(u) || Contains(u, "URGENT")
    || Contains(u, "NECESSITOUS") || Contains(u, "IMMEDIATE")
  }

  /** Emergency detection ignores letter case. */
  lemma EmergencyIgnoresCase(text: string)
    ensures IsEmergency(Lower(text)) == IsEmergency(text)
  {
    UpperLower(text);
  }

  // ---------------------------------------------------------------------------
  // Classification

  predicate AnyMotionPattern(matches: (Pattern, string) -> bool, text: string) {
    exists i :: 0 <= i < |MotionPatternOrder| && matches(MotionPattern(MotionPatternOrder[i]), text)
  }

  /** A text the analyzer classifies as a motion: a motion pattern or the word MOTION. */
  predicate IsMotionText(matches: (Pattern, string) -> bool, text: string) {
    AnyMotionPattern(matches, text) || Contains(Upper(text), "MOTION")
  }

  predicate AnyResponsePattern(matches: (Pattern, string) -> bool, text: string) {
    exists i :: 0 <= i < |ResponsePatternOrder| && matches(ResponsePattern(ResponsePatternOrder[i]), text)
  }

  predicate AnyOrderPattern(matches: (Pattern, string) -> bool, text: string) {
    exists i :: 0 <= i < |OrderPatternOrder| && matches(OrderPattern(OrderPatternOrder[i]), text)
  }

  predicate IsOrderText(matches: (Pattern, string) -> bool, text: string) {
    AnyOrderPattern(matches, text) || Contains(Upper(text), "ORDER")
  }

  /** The motion stage: the first motion pattern in dictionary order, else OTHER for the word MOTION. */
  function MotionClass(matches: (Pattern, string) -> bool, text: string): Option<MotionType>
  {
    var i := FirstIndex(MotionPatternOrder, (m: MotionType) => matches(MotionPattern(m), text));
    if i.Some? then Some(MotionPatternOrder[i.value])
    else if Contains(Upper(text), "MOTION") then Some(OtherMotion)
    else None
  }

  /** A motion exactly for motion text; the first motion pattern that matches decides the type. */
  lemma MotionClassSpec(matches: (Pattern, string) -> bool, text: string)
    ensures MotionClass(matches, text).Some? <==> IsMotionText(matches, text)
    ensures forall i :: 0 <= i < |MotionPatternOrder| && matches(MotionPattern(MotionPatternOrder[i]), text) ==>
      (forall j :: 0 <= j < i ==> !matches(MotionPattern(MotionPatternOrder[j]), text)) ==>
      MotionClass(matches, text) == Some(MotionPatternOrder[i])
    ensures !AnyMotionPattern(matches, text) && Contains(Upper(text), "MOTION") ==>
      MotionClass(matches, text) == Some(OtherMotion)
  {
    var p := (m: MotionType) => matches(MotionPattern(m), text);
    forall i | 0 <= i < |MotionPatternOrder| && matches(MotionPattern(MotionPatternOrder[i]), text)
      && (forall j :: 0 <= j < i ==> !matches(MotionPattern(MotionPatternOrder[j]), text))
      ensures MotionClass(matches, text) == Some(MotionPatternOrder[i])
    {
      FirstIndexAt(MotionPatternOrder, p, i);
    }
  }

  /** The response stage: REPLY when the first response pattern to match is the reply pattern. */
  function ResponseClass(matches: (Pattern, string) -> bool, text: string): Option<EntryType>
  {
    var i := FirstIndex(ResponsePatternOrder, (k: ResponseKind) => matches(ResponsePattern(k), text));
    if i.None? then None
    else if ResponsePatternOrder[i.value] == ReplySupport then Some(Reply)
    else Some(Response)
  }

  /** A response or reply exactly when a response pattern matches; a reply when the opposition pattern does not. */
  lemma ResponseClassSpec(matches: (Pattern, string) -> bool, text: string)
    ensures var r := ResponseClass(matches, text);
      && (r.Some? <==> AnyResponsePattern(matches, text))
      && (r.Some? ==> r.value == Response || r.value == Reply)
      && (r == Some(Reply) <==>
            !matches(ResponsePattern(ResponseOpposition), text) && matches(ResponsePattern(ReplySupport), text))
  {
  }

  /** The order stage: an order pattern, else the word ORDER. */
  function OrderClass(matches: (Pattern, string) -> bool, text: string): bool
  {
    FirstIndex(OrderPatternOrder, (s: OrderStatus) => matches(OrderPattern(s), text)).Some?
    || Contains(Upper(text), "ORDER")
  }

  /** An order exactly for order text. */
  lemma OrderClassSpec(matches: (Pattern, string) -> bool, text: string)
    ensures OrderClass(matches, text) <==> IsOrderText(matches, text)
  {
  }

  /** The last stage, on the upper-cased text: COMPLAINT, ANSWER, NOTICE, SUMMONS, else OTHER. */
  function WordClass(u: string): EntryType
  {
    if Contains(u, "COMPLAINT") || Contains(u, "AMENDED COMPLAINT") then Complaint
    else if Contains(u, "ANSWER") then Answer
    else if Contains(u, "NOTICE") then Notice
    else if Contains(u, "SUMMONS") then Summons
    else Other
  }

  /** The text's words decide, COMPLAINT first (an AMENDED COMPLAINT contains it). */
  lemma WordClassSpec(u: string)
    ensures WordClass(u) in {Complaint, Answer, Notice, Summons, Other}
    ensures WordClass(u) == Complaint <==> Contains(u, "COMPLAINT")
    ensures WordClass(u) == Answer <==> !Contains(u, "COMPLAINT") && Contains(u, "ANSWER")
    ensures WordClass(u) == Notice <==> !Contains(u, "COMPLAINT") && !Contains(u, "ANSWER") && Contains(u, "NOTICE")
    ensures WordClass(u) == Summons <==>
      !Contains(u, "COMPLAINT") && !Contains(u, "ANSWER") && !Contains(u, "NOTICE") && Contains(u, "SUMMONS")
  {
    if Contains(u, "AMENDED COMPLAINT") {
      assert "AMENDED COMPLAINT" == "AMENDED " + "COMPLAINT";
      ContainsTail(u, "AMENDED ", "COMPLAINT");
    }
  }

  /**
   * `classify_entry`: motion patterns, then the word MOTION, then response
   * patterns, then order patterns or the word ORDER, then the plain words.
   * A motion type is returned exactly for motions.
   */
  function ClassifyEntry(matches: (Pattern, string) -> bool, text: string): (EntryType, Option<MotionType>)
  {
    match MotionClass(matches, text)
    case Some(m) => (Motion, Some(m))
    case None =>
      match ResponseClass(matches, text)
      case Some(t) => (t, None)
      case None =>
        if OrderClass(matches, text) then (Order, None)
        else (WordClass(Upper(text)), None)
  }

  /**
   * The precedence of `classify_entry`: a motion type is returned exactly for
   * motions; the first motion pattern that matches decides the motion type;
   * each later stage applies only when every earlier one fails.
   */
  lemma ClassifyEntrySpec(matches: (Pattern, string) -> bool, text: string)
    ensures ClassifyEntry(matches, text).1.Some? <==> ClassifyEntry(matches, text).0 == Motion
    ensures ClassifyEntry(matches, text).0 == Motion <==> IsMotionText(matches, text)
    ensures forall i :: 0 <= i < |MotionPatternOrder| && matches(MotionPattern(MotionPatternOrder[i]), text) ==>
      (forall j :: 0 <= j < i ==> !matches(MotionPattern(MotionPatternOrder[j]), text)) ==>
      ClassifyEntry(matches, text) == (Motion, Some(MotionPatternOrder[i]))
    ensures !AnyMotionPattern(matches, text) && Contains(Upper(text), "MOTION") ==>
      ClassifyEntry(matches, text) == (Motion, Some(OtherMotion))
    ensures var t := ClassifyEntry(matches, text).0;
      && (t == Response || t == Reply <==> !IsMotionText(matches, text) && AnyResponsePattern(matches, text))
      && (t == Reply <==>
            !IsMotionText(matches, text) && !matches(ResponsePattern(ResponseOpposition), text)
            && matches(ResponsePattern(ReplySupport), text))
      && (t == Order <==>
            !IsMotionText(matches, text) && !AnyResponsePattern(matches, text) && IsOrderText(matches, text))
      && (t in {Complaint, Answer, Notice, Summons, Other} <==>
            !IsMotionText(matches, text) && !AnyResponsePattern(matches, text) && !IsOrderText(matches, text))
      && (t in {Complaint, Answer, Notice, Summons, Other} ==> t == WordClass(Upper(text)))
  {
    MotionClassSpec(matches, text);
    ResponseClassSpec(matches, text);
    OrderClassSpec(matches, text);
    WordClassSpec(Upper(text));
  }

  /** `extract_related_docket_num`: the number captured by the first reference pattern that matches. */
  function ExtractRelatedDocketNum(capture: (ReferencePattern, string) -> Option<nat>, text: string): Option<nat>
  {
    var i := FirstIndex(ReferencePatternOrder, (p: ReferencePattern) => capture(p, text).Some?);
    if i.Some? then capture(ReferencePatternOrder[i.value], text) else None
  }

  /** No number exactly when no pattern captures one; otherwise the first pattern that captures decides. */
  lemma ExtractRelatedDocketNumSpec(capture: (ReferencePattern, string) -> Option<nat>, text: string)
    ensures ExtractRelatedDocketNum(capture, text).None? <==>
      forall i :: 0 <= i < |ReferencePatternOrder| ==> capture(ReferencePatternOrder[i], text).None?
    ensures forall i :: 0 <= i < |ReferencePatternOrder| && capture(ReferencePatternOrder[i], text).Some? ==>
      (forall j :: 0 <= j < i ==> capture(ReferencePatternOrder[j], text).None?) ==>
      ExtractRelatedDocketNum(capture, text) == capture(ReferencePatternOrder[i], text)
  {
    var p := (p: ReferencePattern) => capture(p, text).Some?;
    forall i | 0 <= i < |ReferencePatternOrder| && capture(ReferencePatternOrder[i], text).Some?
      && (forall j :: 0 <= j < i ==> capture(ReferencePatternOrder[j], text).None?)
      ensures ExtractRelatedDocketNum(capture, text) == capture(ReferencePatternOrder[i], text)
    {
      FirstIndexAt(ReferencePatternOrder, p, i);
    }
  }
}
