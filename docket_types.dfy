/**
 * The records of the docket analyzer: entry and motion types, order
 * statuses, the named patterns it matches, its deadline rules, motion
 * chains, alerts and the summary.
 *
 * Dates are day numbers in the proleptic Gregorian calendar (day 1 is
 * Monday 1 January of year 1, as Python's `date.toordinal`).
 */
module DocketTypes {
  import opened Wrappers
  import opened Text
  import opened OrderedMap

  datatype EntryType = Motion | Response | Reply | Order | Complaint | Answer | Notice | Summons | Other

  datatype MotionType =
    | Dismiss | Tro | Injunction | Sanctions | Disqualify | Consolidate | Strike | Extension
    | Substitute | Amend | Reconsideration | SummaryJudgment | ProtectiveOrder | Compel | OtherMotion

  /** `MotionType.value` */
  function MotionTypeValue(m: MotionType): string {
    match m
    case Dismiss => "Motion to Dismiss"
    case Tro => "Motion for TRO"
    case Injunction => "Motion for Injunction"
    case Sanctions => "Motion for Sanctions"
    case Disqualify => "Motion to Disqualify Counsel"
    case Consolidate => "Motion to Consolidate"
    case Strike => "Motion to Strike"
    case Extension => "Motion for Extension of Time"
    case Substitute => "Motion to Substitute Party"
    case Amend => "Motion to Amend"
    case Reconsideration => "Motion to Reconsider"
    case SummaryJudgment => "Motion for Summary Judgment"
    case ProtectiveOrder => "Motion for Protective Order"
    case Compel => "Motion to Compel"
    case OtherMotion => "Other Motion"
  }

  datatype OrderStatus = Granted | Denied | Withdrawn | Stricken | Moot | Pending

  datatype ResponseKind = ResponseOpposition | ReplySupport | Joinder | Supplement

  /** The named patterns of the analyzer. */
  datatype Pattern = MotionPattern(motion: MotionType) | ResponsePattern(kind: ResponseKind) | OrderPattern(status: OrderStatus)

  /** The three reference patterns: `re N`, `to N MOTION` and `#N`. */
  datatype ReferencePattern = ReNumber | ToNumberMotion | HashNumber

  /** The keys of `MOTION_PATTERNS`, `RESPONSE_PATTERNS` and `ORDER_PATTERNS` in dictionary order. */
  const MotionPatternOrder: seq<MotionType> :=
    [Dismiss, Tro, Injunction, Sanctions, Disqualify, Consolidate, Strike, Extension,
     Substitute, Amend, Reconsideration, SummaryJudgment, ProtectiveOrder, Compel]
  const ResponsePatternOrder: seq<ResponseKind> := [ResponseOpposition, ReplySupport, Joinder, Supplement]
  const OrderPatternOrder: seq<OrderStatus> := [Granted, Denied, Withdrawn, Stricken, Moot]
  const ReferencePatternOrder: seq<ReferencePattern> := [ReNumber, ToNumberMotion, HashNumber]

  datatype DeadlineRule = DeadlineRule(base: nat, proSeAdj: nat, jurisdictional: bool)

  const MotionResponseRule := DeadlineRule(14, 3, false)
  const MotionReplyRule := DeadlineRule(7, 3, false)

  /** The names of `DEADLINE_RULES`. */
  const DeadlineTypes: set<string> := {
    "motion_response", "motion_reply", "appeal", "objection_magistrate", "rule_59_motion",
    "rule_60_motion", "discovery_response", "service_complaint", "answer"
  }

  /** `DEADLINE_RULES[name]`: base days, pro se allowance and whether the deadline is jurisdictional. */
  function RuleFor(name: string): (r: Option<DeadlineRule>)
    ensures r.Some? <==> name in DeadlineTypes
  {
    if name == "motion_response" then Some(MotionResponseRule)
    else if name == "motion_reply" then Some(MotionReplyRule)
    else if name == "appeal" then Some(DeadlineRule(30, 3, true))
    else if name == "objection_magistrate" then Some(DeadlineRule(14, 3, false))
    else if name == "rule_59_motion" then Some(DeadlineRule(28, 0, true))
    else if name == "rule_60_motion" then Some(DeadlineRule(365, 0, true))
    else if name == "discovery_response" then Some(DeadlineRule(30, 3, false))
    else if name == "service_complaint" then Some(DeadlineRule(90, 0, true))
    else if name == "answer" then Some(DeadlineRule(21, 3, false))
    else None
  }

  /** A computed deadline; its `description` is derived from `deadlineType` by `Description`. */
  datatype DeadlineInfo = DeadlineInfo(
    deadlineDate: int,
    baseDays: nat,
    proSeAdjustment: nat,
    totalDays: nat,
    deadlineType: string,
    isJurisdictional: bool,
    sourceEntry: Option<int>)

  /** `date.weekday()`: Monday is 0, Saturday 5, Sunday 6. */
  function Weekday(day: int): nat {
    (day + 6) % 7
  }

  predicate IsWeekend(day: int) { Weekday(day) >= 5 }

  /** A Saturday moves two days on, a Sunday one day; other days stay. */
  function RollOffWeekend(day: int): int {
    if Weekday(day) == 5 then day + 2
    else if Weekday(day) == 6 then day + 1
    else day
  }

  /**
   * The rolled day is the first day on or after `day` that is not a Saturday
   * or Sunday: at most two days later, and a weekday stays where it is.
   */
  lemma RollOffWeekendSpec(day: int)
    ensures day <= RollOffWeekend(day) <= day + 2
    ensures !IsWeekend(RollOffWeekend(day))
    ensures forall d :: day <= d < RollOffWeekend(day) ==> IsWeekend(d)
    ensures !IsWeekend(day) ==> RollOffWeekend(day) == day
  {
  }

  /** The deadline a rule gives from `fromDate`, for a pro se party or not. */
  function Deadline(isProSe: bool, fromDate: int, name: string, rule: DeadlineRule): DeadlineInfo {
    var adj := if isProSe then rule.proSeAdj else 0;
    var total := rule.base + adj;
    DeadlineInfo(RollOffWeekend(fromDate + total), rule.base, adj, total,
      name, rule.jurisdictional, None)
  }

  /**
   * The total is the base plus the pro se allowance (only for a pro se party);
   * the date is the first non-weekend day on or after `fromDate` plus the total.
   */
  lemma DeadlineSpec(isProSe: bool, fromDate: int, name: string, rule: DeadlineRule)
    ensures var r := Deadline(isProSe, fromDate, name, rule);
      && r.baseDays == rule.base
      && r.proSeAdjustment == (if isProSe then rule.proSeAdj else 0)
      && r.totalDays == r.baseDays + r.proSeAdjustment
      && fromDate + r.totalDays <= r.deadlineDate <= fromDate + r.totalDays + 2
      && !IsWeekend(r.deadlineDate)
      && (forall d :: fromDate + r.totalDays <= d < r.deadlineDate ==> IsWeekend(d))
      && r.deadlineType == name && r.isJurisdictional == rule.jurisdictional && r.sourceEntry == None
  {
    RollOffWeekendSpec(fromDate + rule.base + (if isProSe then rule.proSeAdj else 0));
  }

  /** `calculate_deadline`: an unknown deadline type raises `ValueError`. */
  function CalculateDeadline(isProSe: bool, fromDate: int, deadlineType: string): (r: Result<DeadlineInfo>)
    ensures r.Failure? <==> deadlineType !in DeadlineTypes
    ensures r.Failure? ==> r.error == "Unknown deadline type: " + deadlineType
    ensures r.Success? ==> RuleFor(deadlineType).Some? && r.value == Deadline(isProSe, fromDate, deadlineType, RuleFor(deadlineType).value)
  {
    match RuleFor(deadlineType)
    case None => Failure("Unknown deadline type: " + deadlineType)
    case Some(rule) => Success(Deadline(isProSe, fromDate, deadlineType, rule))
  }

  /** The chain deadlines are the table's `motion_response` and `motion_reply` deadlines. */
  lemma ChainDeadlinesFromTable(isProSe: bool, fromDate: int)
    ensures CalculateDeadline(isProSe, fromDate, "motion_response")
      == Success(Deadline(isProSe, fromDate, "motion_response", MotionResponseRule))
    ensures CalculateDeadline(isProSe, fromDate, "motion_reply")
      == Success(Deadline(isProSe, fromDate, "motion_reply", MotionReplyRule))
  {
    assert "motion_reply"[9] != "motion_response"[9];
  }

  /** `description`: the deadline type with underscores as spaces, title-cased. */
  function Description(d: DeadlineInfo): string {
    Title(ReplaceChar(d.deadlineType, '_', ' '))
  }

  /** `(deadline - now).days` for a deadline at midnight: a clock past midnight loses the current day. */
  datatype Instant = Instant(day: int, pastMidnight: bool)

  function DaysUntil(deadline: int, now: Instant): int {
    deadline - now.day - (if now.pastMidnight then 1 else 0)
  }

  /** A motion chain: the motion and the entries that answer it. */
  datatype MotionChain = MotionChain(
    motionDocketNum: int,
    motionType: MotionType,
    motionDate: int,
    motionText: string,
    filedBy: string,
    responses: seq<int>,
    replies: seq<int>,
    orders: seq<int>,
    status: OrderStatus,
    responseDeadline: Option<DeadlineInfo>,
    replyDeadline: Option<DeadlineInfo>)

  /** One input record; `text` and `filed_by` may be absent. */
  datatype DocketEntry = DocketEntry(docketNumber: int, date: int, text: Option<string>, filedBy: Option<string>)

  /** An input record with the fields the first pass adds to it. */
  datatype ClassifiedEntry = ClassifiedEntry(
    entry: DocketEntry,
    entryType: EntryType,
    motionType: Option<MotionType>,
    isEmergency: bool,
    relatedTo: Option<nat>)

  datatype AlertKind = Overdue | Upcoming
  datatype Priority = Critical | High | Medium
  datatype DeadlineKind = ResponseDue | ReplyDue

  /** An alert; `days` is `days_overdue` for an overdue alert and `days_remaining` otherwise. */
  datatype Alert = Alert(
    kind: AlertKind,
    priority: Priority,
    motionDocket: int,
    motionType: MotionType,
    deadlineKind: DeadlineKind,
    deadlineDate: int,
    days: int,
    message: string)

  datatype Summary = Summary(
    totalEntries: nat,
    entryTypes: seq<Entry<EntryType, int>>,
    totalMotions: nat,
    pendingMotions: nat,
    resolvedMotions: nat,
    emergencyMotions: nat)
}
