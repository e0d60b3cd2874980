/**
 * Audit results: one result per checklist item, the per-document tally
 * with its compliance score, and the running audit log that is updated as
 * the audit proceeds.
 */
module AuditResults {
  import opened Wrappers
  import opened Text
  import opened JsonValue
  import opened Clock

  /** The result of checking one checklist item; `status` is a `CheckStatus` string value. */
  datatype ItemResult = ItemResult(
    itemId: int,
    category: string,
    description: string,
    ruleCitation: string,
    status: string,
    message: string,
    lineNumber: Option<int>)

  function ItemResultToDict(r: ItemResult): (j: Json)
    ensures j.JObj? && "status" in j.o && j.o["status"] == JStr(r.status)
  {
    JObj(map[
      "item_id" := JInt(r.itemId),
      "category" := JStr(r.category),
      "description" := JStr(r.description),
      "rule_citation" := JStr(r.ruleCitation),
      "status" := JStr(r.status),
      "message" := JStr(r.message),
      "line_number" := EncodeOptInt(r.lineNumber)])
  }

  /**
   * `ItemResult.from_dict`: the five leading keys are required, `message`
   * defaults to "" and `line_number` to none.
   */
  function ItemResultFromDict(j: Json): (r: Option<ItemResult>)
    ensures r.Some? ==> j.JObj? && "item_id" in j.o && j.o["item_id"] == JInt(r.value.itemId)
    ensures r.Some? ==> && "category" in j.o && j.o["category"] == JStr(r.value.category)
                        && "description" in j.o && j.o["description"] == JStr(r.value.description)
                        && "rule_citation" in j.o && j.o["rule_citation"] == JStr(r.value.ruleCitation)
                        && "status" in j.o && j.o["status"] == JStr(r.value.status)
    ensures r.Some? && "message" !in j.o ==> r.value.message == ""
    ensures r.Some? && "message" in j.o ==> j.o["message"] == JStr(r.value.message)
    ensures r.Some? && "line_number" !in j.o ==> r.value.lineNumber == None
    ensures r.Some? && "line_number" in j.o ==> j.o["line_number"] == EncodeOptInt(r.value.lineNumber)
    ensures j.JObj? && !("item_id" in j.o && "category" in j.o && "description" in j.o && "rule_citation" in j.o && "status" in j.o)
      ==> r == None
  {
    if !j.JObj? then None
    else
      var o := j.o;
      var id, cat, desc := ReqInt(o, "item_id"), ReqStr(o, "category"), ReqStr(o, "description");
      var cite, st := ReqStr(o, "rule_citation"), ReqStr(o, "status");
      var msg, line := OptStr(o, "message", ""), GetOptInt(o, "line_number");
      if id.Some? && cat.Some? && desc.Some? && cite.Some? && st.Some? && msg.Some? && line.Some? then
        Some(ItemResult(id.value, cat.value, desc.value, cite.value, st.value, msg.value, line.value))
      else None
  }

  /** Decoding an encoded result gives the same result. */
  lemma ItemResultRoundTrip(r: ItemResult)
    ensures ItemResultFromDict(ItemResultToDict(r)) == Some(r)
  {
  }

  /** The five status strings of `CheckStatus`. */
  const Statuses: seq<string> := ["pass", "fail", "warning", "manual", "n/a"]

  /** How many results carry the status string. */
  function CountStatus(items: seq<ItemResult>, status: string): (n: nat)
    ensures n <= |items|
  {
    if items == [] then 0
    else (if items[0].status == status then 1 else 0) + CountStatus(items[1..], status)
  }

  /** Appending one result raises exactly the count of its own status. */
  lemma {:induction false} CountStatusAppend(items: seq<ItemResult>, r: ItemResult, status: string)
    ensures CountStatus(items + [r], status) == CountStatus(items, status) + (if r.status == status then 1 else 0)
  {
    if items != [] {
      assert (items + [r])[1..] == items[1..] + [r];
      CountStatusAppend(items[1..], r, status);
    } else {
      assert items + [r] == [r];
    }
  }

  /** The results whose status is one of the five recognised strings. */
  function Recognised(items: seq<ItemResult>): (r: seq<ItemResult>)
    ensures |r| <= |items|
    ensures forall x :: x in r <==> x in items && x.status in Statuses
  {
    if items == [] then []
    else if items[0].status in Statuses then [items[0]] + Recognised(items[1..])
    else Recognised(items[1..])
  }

  /** The five status counts add up to the number of results with a recognised status. */
  lemma {:induction false} StatusCountsSum(items: seq<ItemResult>)
    ensures CountStatus(items, "pass") + CountStatus(items, "fail") + CountStatus(items, "warning")
      + CountStatus(items, "manual") + CountStatus(items, "n/a") == |Recognised(items)|
  {
    if items != [] {
      StatusCountsSum(items[1..]);
    }
  }

  /**
   * The compliance score in tenths of a percent: 0 when nothing was
   * checkable, otherwise `passed / (passed + failed + warnings) * 100`
   * rounded to the nearest tenth.  Manual and not-applicable items play no part.
   */
  function ScoreTenths(passed: nat, failed: nat, warnings: nat): (r: nat)
    ensures passed + failed + warnings == 0 ==> r == 0
    ensures var c := passed + failed + warnings;
      c > 0 ==> -c <= 2 * (r * c - 1000 * passed) <= c
    ensures r <= 1000
    ensures passed == 0 ==> r == 0
    ensures passed > 0 && failed + warnings == 0 ==> r == 1000
  {
    var c := passed + failed + warnings;
    if c == 0 then 0
    else
      NearestQuotient(1000 * passed, c);
      NearestQuotientBound(1000 * passed, c, 1000);
      NearestQuotientExact(passed, c, 1000);
      (2000 * passed + c) / (2 * c)
  }

  /** `(2a + d) / 2d` is the integer nearest to `a / d`, halves rounded up. */
  lemma NearestQuotient(a: nat, d: nat)
    requires d > 0
    ensures var q := (2 * a + d) / (2 * d); -(d as int) <= 2 * (q * d - a) <= d
  {
    var q := (2 * a + d) / (2 * d);
    var m := (2 * a + d) % (2 * d);
    assert 2 * a + d == q * (2 * d) + m && 0 <= m < 2 * d;
    assert 2 * (q * d - a) == d - m;
  }

  lemma NearestQuotientBound(a: nat, d: nat, k: nat)
    requires d > 0
    ensures a <= k * d ==> (2 * a + d) / (2 * d) <= k
  {
    if a <= k * d {
      var q := (2 * a + d) / (2 * d);
      assert q * (2 * d) <= 2 * a + d;
      assert 2 * a + d < (k + 1) * (2 * d);
      MulCancelLess(q, k + 1, 2 * d);
    }
  }

  lemma MulCancelLess(x: int, y: int, c: int)
    requires c > 0 && x * c < y * c
    ensures x < y
  {
    if x >= y {
      MulMono(y, x, c);
    }
  }

  lemma MulMono(x: int, y: int, c: int)
    requires c > 0 && x <= y
    ensures x * c <= y * c
  {
  }

  lemma NearestQuotientExact(n: nat, d: nat, k: nat)
    requires d > 0
    ensures n == 0 ==> (2 * (k * n) + d) / (2 * d) == 0
    ensures n == d ==> (2 * (k * n) + d) / (2 * d) == k
  {
    if n == 0 {
      DivUnique(d, 2 * d, 0);
    }
    if n == d {
      assert 2 * (k * n) + d == k * (2 * d) + d;
      DivUnique(2 * (k * n) + d, 2 * d, k);
    }
  }

  lemma DivUnique(a: int, b: int, q: int)
    requires b > 0 && q * b <= a < q * b + b
    ensures a / b == q
  {
    var q', r' := a / b, a % b;
    assert a == q' * b + r' && 0 <= r' < b;
    if q' > q {
      MulMono(q + 1, q', b);
    } else if q' < q {
      MulMono(q', q - 1, b);
    }
  }

  /** Per-document audit result, tallied as item results are added. */
  class AuditResult {
    var documentId: string
    var documentName: string
    var auditDate: string
    var checklistVersion: string
    var totalItems: int
    var passed: nat
    var failed: nat
    var warnings: nat
    var manualReview: nat
    var notApplicable: nat
    var items: seq<ItemResult>
    var criticalIssues: seq<string>

    /** The counters agree with the results recorded so far. */
    predicate Valid()
      reads this
    {
      passed == CountStatus(items, "pass") && failed == CountStatus(items, "fail")
      && warnings == CountStatus(items, "warning") && manualReview == CountStatus(items, "manual")
      && notApplicable == CountStatus(items, "n/a")
    }

    constructor (documentId: string, documentName: string, auditDate: string)
      ensures this.documentId == documentId && this.documentName == documentName && this.auditDate == auditDate
      ensures checklistVersion == "1.0" && totalItems == 107
      ensures items == [] && criticalIssues == []
      ensures Valid()
    {
      this.documentId := documentId;
      this.documentName := documentName;
      this.auditDate := auditDate;
      checklistVersion := "1.0";
      totalItems := 107;
      passed, failed, warnings, manualReview, notApplicable := 0, 0, 0, 0, 0;
      items := [];
      criticalIssues := [];
    }

    /** `score` */
    function Score(): nat
      reads this
    {
      ScoreTenths(passed, failed, warnings)
    }

    /** `checked_count` */
    function CheckedCount(): nat
      reads this
    {
      passed + failed + warnings
    }

    /** On a consistent tally the checked count is the number of pass, fail and warning results. */
    lemma CheckedCountIsChecked()
      requires Valid()
      ensures CheckedCount() == CountStatus(items, "pass") + CountStatus(items, "fail") + CountStatus(items, "warning")
      ensures CheckedCount() + manualReview + notApplicable == |Recognised(items)|
    {
      StatusCountsSum(items);
    }

    /**
     * `add_result`: appends the result and raises exactly the counter of its
     * status; an unrecognised status raises none.
     */
    method AddResult(r: ItemResult)
      modifies this
      ensures items == old(items) + [r]
      ensures passed == old(passed) + (if r.status == "pass" then 1 else 0)
      ensures failed == old(failed) + (if r.status == "fail" then 1 else 0)
      ensures warnings == old(warnings) + (if r.status == "warning" then 1 else 0)
      ensures manualReview == old(manualReview) + (if r.status == "manual" then 1 else 0)
      ensures notApplicable == old(notApplicable) + (if r.status == "n/a" then 1 else 0)
      ensures documentId == old(documentId) && documentName == old(documentName) && auditDate == old(auditDate)
      ensures checklistVersion == old(checklistVersion) && totalItems == old(totalItems)
      ensures criticalIssues == old(criticalIssues)
      ensures old(Valid()) ==> Valid()
    {
      items := items + [r];
      if r.status == "pass" {
        passed := passed + 1;
      } else if r.status == "fail" {
        failed := failed + 1;
      } else if r.status == "warning" {
        warnings := warnings + 1;
      } else if r.status == "manual" {
        manualReview := manualReview + 1;
      } else if r.status == "n/a" {
        notApplicable := notApplicable + 1;
      }
      CountStatusAppend(old(items), r, "pass");
      CountStatusAppend(old(items), r, "fail");
      CountStatusAppend(old(items), r, "warning");
      CountStatusAppend(old(items), r, "manual");
      CountStatusAppend(old(items), r, "n/a");
    }
  }

  /** The item ids whose failure is a critical issue. */
  const CriticalItemIds: seq<int> := [12, 15, 21, 54, 65]

  /** `round(items_checked / total_items * 100)`, to the nearest whole percent. */
  function PercentComplete(itemsChecked: nat, totalItems: nat): (r: nat)
    requires totalItems > 0
    ensures -(totalItems as int) <= 2 * (r * totalItems - 100 * itemsChecked) <= totalItems
    ensures itemsChecked <= totalItems ==> r <= 100
    ensures itemsChecked == totalItems ==> r == 100
  {
    NearestQuotient(100 * itemsChecked, totalItems);
    NearestQuotientBound(100 * itemsChecked, totalItems, 100);
    NearestQuotientExact(itemsChecked, totalItems, 100);
    (200 * itemsChecked + totalItems) / (2 * totalItems)
  }

  /**
   * With 107 items there is never a tie between two whole percentages, so
   * the nearest percentage is unique whatever the rounding rule for halves.
   */
  lemma PercentNoTie(itemsChecked: nat)
    ensures 2 * (PercentComplete(itemsChecked, 107) * 107 - 100 * itemsChecked) != 107
    ensures 2 * (PercentComplete(itemsChecked, 107) * 107 - 100 * itemsChecked) != -107
  {
  }

  /** The `status` field of a stored result dict, or "" when it has none. */
  function StatusOf(j: Json): string {
    if j.JObj? && "status" in j.o && j.o["status"].JStr? then j.o["status"].s else ""
  }

  /** How many stored result dicts carry the status string. */
  function CountStored(results: seq<Json>, status: string): (n: nat)
    ensures n <= |results|
  {
    if results == [] then 0
    else CountStored(results[..|results| - 1], status) + (if StatusOf(results[|results| - 1]) == status then 1 else 0)
  }

  lemma StoredAppend(results: seq<Json>, j: Json)
    ensures forall status ::
      CountStored(results + [j], status) == CountStored(results, status) + (if StatusOf(j) == status then 1 else 0)
  {
    assert (results + [j])[..|results|] == results;
  }

  /** The real-time audit log: progress, summary, stored results and critical issues. */
  class AuditLog {
    var sessionId: string
    var started: string
    var documentId: string
    var documentName: string
    var status: string
    var totalItems: nat
    var itemsChecked: nat
    var percentComplete: nat
    var passed: nat
    var failed: nat
    var warnings: nat
    var manualReview: nat
    var scoreTenths: nat
    var results: seq<Json>
    var criticalIssues: seq<string>
    var lastUpdated: string

    /**
     * The summary counters agree with the stored results, the progress
     * with their number, and the score with the counters.
     */
    predicate Valid()
      reads this
    {
      totalItems == 107
      && passed == CountStored(results, "pass") && failed == CountStored(results, "fail")
      && warnings == CountStored(results, "warning") && manualReview == CountStored(results, "manual")
      && scoreTenths == ScoreTenths(passed, failed, warnings)
      && itemsChecked == |results| && percentComplete == PercentComplete(itemsChecked, totalItems)
    }

    /** `create_new`: a fresh in-progress log stamped with the given time. */
    constructor CreateNew(documentId: string, documentName: string, now: DateTime)
      ensures sessionId == "audit-" + StampFormat(now)
      ensures started == IsoFormat(now) && lastUpdated == IsoFormat(now)
      ensures this.documentId == documentId && this.documentName == documentName
      ensures status == "in_progress"
      ensures results == [] && criticalIssues == []
      ensures itemsChecked == 0 && percentComplete == 0 && scoreTenths == 0
      ensures Valid()
    {
      sessionId := "audit-" + StampFormat(now);
      started := IsoFormat(now);
      this.documentId := documentId;
      this.documentName := documentName;
      status := "in_progress";
      totalItems, itemsChecked, percentComplete := 107, 0, 0;
      passed, failed, warnings, manualReview, scoreTenths := 0, 0, 0, 0, 0;
      results := [];
      criticalIssues := [];
      lastUpdated := IsoFormat(now);
    }

    /**
     * `update_progress`: records the number checked and its percentage of
     * the total; `now` is the current time in ISO format.
     */
    method UpdateProgress(checked: nat, now: string)
      requires totalItems > 0
      modifies this
      ensures totalItems == old(totalItems) && results == old(results) && criticalIssues == old(criticalIssues)
      ensures itemsChecked == checked && percentComplete == PercentComplete(checked, totalItems)
      ensures lastUpdated == now
      ensures passed == old(passed) && failed == old(failed) && warnings == old(warnings)
      ensures manualReview == old(manualReview) && scoreTenths == old(scoreTenths) && status == old(status)
      ensures sessionId == old(sessionId) && started == old(started)
      ensures documentId == old(documentId) && documentName == old(documentName)
    {
      itemsChecked := checked;
      percentComplete := PercentComplete(checked, totalItems);
      lastUpdated := now;
    }

    /**
     * `add_item_result`: stores the result, raises the summary counter of its
     * status (none for n/a or an unrecognised status), records a critical
     * issue for a failed critical item, re-scores when anything is checkable,
     * and updates the progress.
     */
    method AddItemResult(r: ItemResult, now: string)
      requires totalItems > 0
      modifies this
      ensures results == old(results) + [ItemResultToDict(r)]
      ensures passed == old(passed) + (if r.status == "pass" then 1 else 0)
      ensures failed == old(failed) + (if r.status == "fail" then 1 else 0)
      ensures warnings == old(warnings) + (if r.status == "warning" then 1 else 0)
      ensures manualReview == old(manualReview) + (if r.status == "manual" then 1 else 0)
      ensures criticalIssues == old(criticalIssues)
        + (if r.status == "fail" && r.itemId in CriticalItemIds then ["#" + IntToString(r.itemId) + ": " + r.message] else [])
      ensures scoreTenths == (if passed + failed + warnings > 0 then ScoreTenths(passed, failed, warnings) else old(scoreTenths))
      ensures totalItems == old(totalItems) && status == old(status)
      ensures itemsChecked == |results| && percentComplete == PercentComplete(|results|, totalItems)
      ensures lastUpdated == now
      ensures sessionId == old(sessionId) && started == old(started)
      ensures documentId == old(documentId) && documentName == old(documentName)
      ensures old(Valid()) ==> Valid()
    {
      results := results + [ItemResultToDict(r)];
      StoredAppend(old(results), ItemResultToDict(r));
      TallyStatus(r);
      UpdateProgress(|results|, now);
    }

    /** The summary part of `add_item_result`: counters, critical issue and score. */
    method TallyStatus(r: ItemResult)
      modifies this
      ensures passed == old(passed) + (if r.status == "pass" then 1 else 0)
      ensures failed == old(failed) + (if r.status == "fail" then 1 else 0)
      ensures warnings == old(warnings) + (if r.status == "warning" then 1 else 0)
      ensures manualReview == old(manualReview) + (if r.status == "manual" then 1 else 0)
      ensures criticalIssues == old(criticalIssues)
        + (if r.status == "fail" && r.itemId in CriticalItemIds then ["#" + IntToString(r.itemId) + ": " + r.message] else [])
      ensures scoreTenths == (if passed + failed + warnings > 0 then ScoreTenths(passed, failed, warnings) else old(scoreTenths))
      ensures results == old(results) && totalItems == old(totalItems) && status == old(status)
      ensures itemsChecked == old(itemsChecked) && percentComplete == old(percentComplete) && lastUpdated == old(lastUpdated)
      ensures sessionId == old(sessionId) && started == old(started)
      ensures documentId == old(documentId) && documentName == old(documentName)
    {
      if r.status == "pass" {
        passed := passed + 1;
      } else if r.status == "fail" {
        failed := failed + 1;
        if r.itemId in CriticalItemIds {
          criticalIssues := criticalIssues + ["#" + IntToString(r.itemId) + ": " + r.message];
        }
      } else if r.status == "warning" {
        warnings := warnings + 1;
      } else if r.status == "manual" {
        manualReview := manualReview + 1;
      }
      var checkable := passed + failed + warnings;
      if checkable > 0 {
        scoreTenths := ScoreTenths(passed, failed, warnings);
      }
    }

    /** `complete`: the audit is marked completed; results and summary are untouched. */
    method Complete(now: string)
      modifies this
      ensures status == "completed" && lastUpdated == now
      ensures results == old(results) && criticalIssues == old(criticalIssues)
      ensures passed == old(passed) && failed == old(failed) && warnings == old(warnings)
      ensures manualReview == old(manualReview) && scoreTenths == old(scoreTenths)
      ensures totalItems == old(totalItems) && itemsChecked == old(itemsChecked) && percentComplete == old(percentComplete)
      ensures sessionId == old(sessionId) && started == old(started)
      ensures documentId == old(documentId) && documentName == old(documentName)
    {
      status := "completed";
      lastUpdated := now;
    }

    /** `fail`: the audit is marked failed and exactly one "Audit failed: ..." issue is appended. */
    method Fail(error: string, now: string)
      modifies this
      ensures status == "failed" && lastUpdated == now
      ensures criticalIssues == old(criticalIssues) + ["Audit failed: " + error]
      ensures results == old(results)
      ensures passed == old(passed) && failed == old(failed) && warnings == old(warnings)
      ensures manualReview == old(manualReview) && scoreTenths == old(scoreTenths)
      ensures totalItems == old(totalItems) && itemsChecked == old(itemsChecked) && percentComplete == old(percentComplete)
      ensures sessionId == old(sessionId) && started == old(started)
      ensures documentId == old(documentId) && documentName == old(documentName)
    {
      status := "failed";
      criticalIssues := criticalIssues + ["Audit failed: " + error];
      lastUpdated := now;
    }
  }
}
