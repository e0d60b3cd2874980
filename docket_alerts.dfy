/**
 * Deadline alerts: which pending chains raise a response or reply alert,
 * the priority and day count of each, and the stable sort that orders them
 * by priority rank, then by days.
 */
module DocketAlerts {
  import opened Text
  import opened OrderedMap
  import opened DocketTypes

  /** The priority order of the sort: CRITICAL, HIGH, MEDIUM. */
  function Rank(p: Priority): nat {
    match p
    case Critical => 0
    case High => 1
    case Medium => 2
  }

  predicate KeyLe(a: Alert, b: Alert) {
    Rank(a.priority) < Rank(b.priority) || (Rank(a.priority) == Rank(b.priority) && a.days <= b.days)
  }

  /** Ordered by the sort key `(priority rank, days)`: each alert's key is at most the next one's. */
  predicate Sorted(s: seq<Alert>) {
    forall i :: 0 < i < |s| ==> KeyLe(s[i - 1], s[i])
  }

  /** The alert has sort key `(rank, days)`. */
  predicate HasSortKey(a: Alert, rank: int, days: int) {
    Rank(a.priority) == rank && a.days == days
  }

  /** The alerts with a given sort key, in order. */
  function WithKey(s: seq<Alert>, rank: int, days: int): seq<Alert> {
    if s == [] then []
    else (if HasSortKey(s[0], rank, days) then [s[0]] else []) + WithKey(s[1..], rank, days)
  }

  lemma {:induction false} WithKeyConcat(a: seq<Alert>, b: seq<Alert>, rank: int, days: int)
    ensures WithKey(a + b, rank, days) == WithKey(a, rank, days) + WithKey(b, rank, days)
  {
    if a == [] {
      assert a + b == b;
    } else {
      var h := if HasSortKey(a[0], rank, days) then [a[0]] else [];
      assert (a + b)[0] == a[0] && (a + b)[1..] == a[1..] + b;
      WithKeyConcat(a[1..], b, rank, days);
      assert WithKey(a + b, rank, days) == h + (WithKey(a[1..], rank, days) + WithKey(b, rank, days));
      assert WithKey(a, rank, days) == h + WithKey(a[1..], rank, days);
    }
  }

  /** Inserts `x` before the first alert whose key is not smaller. */
  function Insert(x: Alert, t: seq<Alert>): (r: seq<Alert>)
    ensures |r| == |t| + 1
  {
    if t == [] || KeyLe(x, t[0]) then [x] + t else [t[0]] + Insert(x, t[1..])
  }

  /** Inserting keeps a sorted list sorted and adds exactly `x`. */
  lemma {:induction false} InsertSorted(x: Alert, t: seq<Alert>)
    ensures Sorted(t) ==> Sorted(Insert(x, t))
    ensures multiset(Insert(x, t)) == multiset(t) + multiset{x}
    ensures Insert(x, t)[0] == x || (t != [] && Insert(x, t)[0] == t[0])
  {
    if t != [] && !KeyLe(x, t[0]) {
      var rest := Insert(x, t[1..]);
      InsertSorted(x, t[1..]);
      assert t == [t[0]] + t[1..];
      assert Insert(x, t) == [t[0]] + rest;
    }
  }

  /** `list.sort(key=...)`: a stable sort by `(priority rank, days)`. */
  function SortAlerts(s: seq<Alert>): (r: seq<Alert>)
    ensures |r| == |s|
  {
    if s == [] then [] else Insert(s[0], SortAlerts(s[1..]))
  }

  /** The sort orders by key and is a permutation of its input. */
  lemma {:induction false} SortAlertsSorted(s: seq<Alert>)
    ensures Sorted(SortAlerts(s))
    ensures multiset(SortAlerts(s)) == multiset(s)
  {
    if s != [] {
      SortAlertsSorted(s[1..]);
      InsertSorted(s[0], SortAlerts(s[1..]));
      assert s == [s[0]] + s[1..];
    }
  }

  /** Inserting never moves `x` past an alert with the same key. */
  lemma {:induction false} WithKeyInsert(x: Alert, t: seq<Alert>, rank: int, days: int)
    ensures WithKey(Insert(x, t), rank, days) == WithKey([x] + t, rank, days)
  {
    if t != [] && !KeyLe(x, t[0]) {
      var rest := Insert(x, t[1..]);
      var wx := WithKey([x], rank, days);
      var w0 := WithKey([t[0]], rank, days);
      WithKeyInsert(x, t[1..], rank, days);
      assert Insert(x, t) == [t[0]] + rest;
      WithKeyConcat([t[0]], rest, rank, days);
      WithKeyConcat([x], t[1..], rank, days);
      assert [x] + t == [x, t[0]] + t[1..];
      assert [x, t[0]] == [x] + [t[0]];
      WithKeyConcat([x, t[0]], t[1..], rank, days);
      WithKeyConcat([x], [t[0]], rank, days);
      assert wx == [] || w0 == [];
      assert WithKey([x, t[0]], rank, days) == w0 + wx;
    }
  }

  /** Stability: alerts with equal keys keep their relative order. */
  lemma {:induction false} SortAlertsStable(s: seq<Alert>, rank: int, days: int)
    ensures WithKey(SortAlerts(s), rank, days) == WithKey(s, rank, days)
  {
    if s != [] {
      var sorted := SortAlerts(s[1..]);
      SortAlertsStable(s[1..], rank, days);
      WithKeyInsert(s[0], sorted, rank, days);
      WithKeyConcat([s[0]], sorted, rank, days);
      WithKeyConcat([s[0]], s[1..], rank, days);
      calc {
        WithKey(SortAlerts(s), rank, days);
        WithKey(Insert(s[0], sorted), rank, days);
        WithKey([s[0]] + sorted, rank, days);
        WithKey([s[0]], rank, days) + WithKey(sorted, rank, days);
        WithKey([s[0]], rank, days) + WithKey(s[1..], rank, days);
        WithKey([s[0]] + s[1..], rank, days);
        { assert s == [s[0]] + s[1..]; }
        WithKey(s, rank, days);
      }
    }
  }

  /** What an alert row must look like, by deadline kind and timing. */
  predicate WellFormedAlert(a: Alert) {
    match (a.deadlineKind, a.kind)
    case (ResponseDue, Overdue) => a.priority == Critical && a.days > 0
    case (ResponseDue, Upcoming) => 0 <= a.days <= 7 && (a.priority == High <==> a.days <= 3) && a.priority != Critical
    case (ReplyDue, Overdue) => a.priority == High && a.days > 0
    case (ReplyDue, Upcoming) => a.priority == Medium && 0 <= a.days <= 5
  }

  predicate HasAlertOfKind(r: seq<Alert>, d: DeadlineKind) {
    exists i :: 0 <= i < |r| && r[i].deadlineKind == d
  }

  function ResponseAlert(k: int, c: MotionChain, deadline: int, days: int): (a: Alert)
    requires days <= 7
    ensures WellFormedAlert(a) && a.deadlineKind == ResponseDue && a.deadlineDate == deadline
    ensures a.kind == Overdue <==> days < 0
  {
    var mt := MotionTypeValue(c.motionType);
    if days < 0 then
      Alert(Overdue, Critical, k, c.motionType, ResponseDue, deadline, -days,
        "OVERDUE: Response to " + mt + " (#" + IntToString(k) + ") was due " + IntToString(-days) + " days ago!")
    else
      Alert(Upcoming, if days <= 3 then High else Medium, k, c.motionType, ResponseDue, deadline, days,
        "Response to " + mt + " (#" + IntToString(k) + ") due in " + IntToString(days) + " days")
  }

  function ReplyAlert(k: int, c: MotionChain, deadline: int, days: int): (a: Alert)
    requires days <= 5
    ensures WellFormedAlert(a) && a.deadlineKind == ReplyDue && a.deadlineDate == deadline
    ensures a.kind == Overdue <==> days < 0
  {
    var mt := MotionTypeValue(c.motionType);
    if days < 0 then
      Alert(Overdue, High, k, c.motionType, ReplyDue, deadline, -days,
        "OVERDUE: Reply for " + mt + " (#" + IntToString(k) + ") was due " + IntToString(-days) + " days ago")
    else
      Alert(Upcoming, Medium, k, c.motionType, ReplyDue, deadline, days,
        "Reply for " + mt + " (#" + IntToString(k) + ") due in " + IntToString(days) + " days")
  }

  predicate ResponseAlertDue(c: MotionChain, now: Instant) {
    c.status == Pending && c.responseDeadline.Some? && c.responses == []
    && DaysUntil(c.responseDeadline.value.deadlineDate, now) <= 7
  }

  predicate ReplyAlertDue(c: MotionChain, now: Instant) {
    c.status == Pending && c.replyDeadline.Some? && c.responses != [] && c.replies == []
    && DaysUntil(c.replyDeadline.value.deadlineDate, now) <= 5
  }

  /** The alerts of one chain: a response alert, then a reply alert, each only when due. */
  function ChainAlerts(k: int, c: MotionChain, now: Instant): (r: seq<Alert>)
    ensures forall i :: 0 <= i < |r| ==>
      WellFormedAlert(r[i]) && r[i].motionDocket == k && r[i].motionType == c.motionType && c.status == Pending
    ensures forall i :: 0 <= i < |r| && r[i].deadlineKind == ResponseDue ==>
      c.responses == [] && c.responseDeadline.Some? && r[i].deadlineDate == c.responseDeadline.value.deadlineDate
    ensures forall i :: 0 <= i < |r| && r[i].deadlineKind == ReplyDue ==>
      c.responses != [] && c.replies == [] && c.replyDeadline.Some? && r[i].deadlineDate == c.replyDeadline.value.deadlineDate
    ensures HasAlertOfKind(r, ResponseDue) <==> ResponseAlertDue(c, now)
    ensures HasAlertOfKind(r, ReplyDue) <==> ReplyAlertDue(c, now)
  {
    if c.status != Pending then []
    else
      var first :=
        if c.responseDeadline.Some? && c.responses == [] then
          var d := DaysUntil(c.responseDeadline.value.deadlineDate, now);
          if d <= 7 then [ResponseAlert(k, c, c.responseDeadline.value.deadlineDate, d)] else []
        else [];
      var second :=
        if c.replyDeadline.Some? && c.responses != [] && c.replies == [] then
          var d := DaysUntil(c.replyDeadline.value.deadlineDate, now);
          if d <= 5 then [ReplyAlert(k, c, c.replyDeadline.value.deadlineDate, d)] else []
        else [];
      var r := first + second;
      assert HasAlertOfKind(r, ResponseDue) ==> ResponseAlertDue(c, now) by {
        if HasAlertOfKind(r, ResponseDue) {
          var i :| 0 <= i < |r| && r[i].deadlineKind == ResponseDue;
          assert i < |first|;
        }
      }
      assert HasAlertOfKind(r, ReplyDue) ==> ReplyAlertDue(c, now) by {
        if HasAlertOfKind(r, ReplyDue) {
          var i :| 0 <= i < |r| && r[i].deadlineKind == ReplyDue;
          assert i >= |first|;
        }
      }
      assert ResponseAlertDue(c, now) ==> r[0].deadlineKind == ResponseDue;
      assert ReplyAlertDue(c, now) ==> r[|r| - 1].deadlineKind == ReplyDue;
      r
  }

  /** The alerts of the chains in dictionary order, before sorting. */
  function CollectAlerts(m: seq<Entry<int, MotionChain>>, now: Instant): seq<Alert> {
    if m == [] then []
    else CollectAlerts(m[..|m| - 1], now) + ChainAlerts(m[|m| - 1].key, m[|m| - 1].value, now)
  }

  /** Every collected alert belongs to a pending chain of the dictionary and is well formed. */
  lemma {:induction false} CollectedAlertsSound(m: seq<Entry<int, MotionChain>>, now: Instant, a: Alert)
    requires a in CollectAlerts(m, now)
    ensures WellFormedAlert(a)
    ensures exists t :: 0 <= t < |m| && m[t].key == a.motionDocket && m[t].value.status == Pending
  {
    if m != [] {
      var last := m[|m| - 1];
      var tail := ChainAlerts(last.key, last.value, now);
      if a in tail {
        var i :| 0 <= i < |tail| && tail[i] == a;
        assert m[|m| - 1].key == a.motionDocket;
      } else {
        CollectedAlertsSound(m[..|m| - 1], now, a);
        var t :| 0 <= t < |m[..|m| - 1]| && m[..|m| - 1][t].key == a.motionDocket && m[..|m| - 1][t].value.status == Pending;
        assert m[t] == m[..|m| - 1][t];
      }
    }
  }

  /** A chain that is not pending contributes no alert. */
  lemma ResolvedChainsSilent(k: int, c: MotionChain, now: Instant)
    requires c.status != Pending
    ensures ChainAlerts(k, c, now) == []
  {
  }
}
