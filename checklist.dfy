/**
 * The compliance checklist for motions for a temporary restraining order:
 * its category and status enumerations, the item record, and the filters
 * and the lookup scan that its helpers run over the table.
 */
module Checklist {
  import opened Wrappers

  datatype CheckCategory =
    | Caption | MotionContent | CertificateNotice | SecurityBond | ReliefRequested
    | Verification | Formatting | Signature | CertificateService | DateFiling
    | Exhibits | ProposedOrder | UrgentEmergency | ProSe

  /** The enumeration's string value. */
  function CategoryValue(c: CheckCategory): string {
    match c
    case Caption => "Caption and Title"
    case MotionContent => "Motion Content"
    case CertificateNotice => "Certificate of Notice Efforts"
    case SecurityBond => "Security/Bond"
    case ReliefRequested => "Relief Requested"
    case Verification => "Verification/Declaration"
    case Formatting => "Formatting"
    case Signature => "Signature Block"
    case CertificateService => "Certificate of Service"
    case DateFiling => "Date of Filing"
    case Exhibits => "Exhibits and Attachments"
    case ProposedOrder => "Proposed Order Requirements"
    case UrgentEmergency => "Urgent/Emergency Procedures"
    case ProSe => "Pro Se Filing Requirements"
  }

  datatype CheckStatus = Pass | Fail | Warning | Manual | NotApplicable

  /** The enumeration's string value, as stored in results. */
  function StatusValue(s: CheckStatus): string {
    match s
    case Pass => "pass"
    case Fail => "fail"
    case Warning => "warning"
    case Manual => "manual"
    case NotApplicable => "n/a"
  }

  /**
   * One checklist row: `pattern` is the regular expression, and
   * `checkMethod` the name of the detector routine, that an automatic check uses.
   */
  datatype ChecklistItem = Item(
    id: int,
    category: CheckCategory,
    description: string,
    ruleCitation: string,
    autoCheckable: bool,
    pattern: Option<string>,
    requiredText: Option<string>,
    checkMethod: Option<string>)

  /** `[item for item in items if item.category == cat]` */
  function FilterCategory(items: seq<ChecklistItem>, cat: CheckCategory): seq<ChecklistItem> {
    if items == [] then []
    else if items[0].category == cat then [items[0]] + FilterCategory(items[1..], cat)
    else FilterCategory(items[1..], cat)
  }

  /** The filter keeps exactly the items of the category. */
  lemma {:induction false} FilterCategorySpec(items: seq<ChecklistItem>, cat: CheckCategory)
    ensures forall x :: x in FilterCategory(items, cat) <==> x in items && x.category == cat
  {
    if items != [] {
      FilterCategorySpec(items[1..], cat);
      assert items == [items[0]] + items[1..];
    }
  }

  /** `[item for item in items if item.auto_checkable == auto]` */
  function FilterAuto(items: seq<ChecklistItem>, auto: bool): seq<ChecklistItem> {
    if items == [] then []
    else if items[0].autoCheckable == auto then [items[0]] + FilterAuto(items[1..], auto)
    else FilterAuto(items[1..], auto)
  }

  /** The filter keeps exactly the items whose flag is `auto`. */
  lemma {:induction false} FilterAutoSpec(items: seq<ChecklistItem>, auto: bool)
    ensures forall x :: x in FilterAuto(items, auto) <==> x in items && x.autoCheckable == auto
  {
    if items != [] {
      FilterAutoSpec(items[1..], auto);
      assert items == [items[0]] + items[1..];
    }
  }

  /** Every list splits into its automatic and its manual items. */
  lemma {:induction false} FilterAutoPartition(items: seq<ChecklistItem>)
    ensures |FilterAuto(items, true)| + |FilterAuto(items, false)| == |items|
  {
    if items != [] {
      FilterAutoPartition(items[1..]);
    }
  }

  /** Filtering a list whose items of `cat` are exactly those at `[lo, hi)` gives that slice. */
  lemma FilterSlice(s: seq<ChecklistItem>, cat: CheckCategory, lo: int, hi: int)
    requires 0 <= lo <= hi <= |s|
    requires forall i :: 0 <= i < |s| ==> (s[i].category == cat <==> lo <= i < hi)
    ensures FilterCategory(s, cat) == s[lo..hi]
  {
    var a, m, b := s[..lo], s[lo..hi], s[hi..];
    assert s == a + m + b;
    FilterConcat(a + m, b, cat);
    FilterConcat(a, m, cat);
    FilterNone(a, cat);
    FilterAll(m, cat);
    FilterNone(b, cat);
  }

  /** Filtering distributes over concatenation. */
  lemma {:induction false} FilterConcat(a: seq<ChecklistItem>, b: seq<ChecklistItem>, cat: CheckCategory)
    ensures FilterCategory(a + b, cat) == FilterCategory(a, cat) + FilterCategory(b, cat)
  {
    if a != [] {
      assert (a + b)[0] == a[0] && (a + b)[1..] == a[1..] + b;
      FilterConcat(a[1..], b, cat);
    } else {
      assert a + b == b;
    }
  }

  lemma {:induction false} FilterNone(a: seq<ChecklistItem>, cat: CheckCategory)
    requires forall i :: 0 <= i < |a| ==> a[i].category != cat
    ensures FilterCategory(a, cat) == []
  {
    if a != [] {
      FilterNone(a[1..], cat);
    }
  }

  lemma {:induction false} FilterAll(a: seq<ChecklistItem>, cat: CheckCategory)
    requires forall i :: 0 <= i < |a| ==> a[i].category == cat
    ensures FilterCategory(a, cat) == a
  {
    if a != [] {
      FilterAll(a[1..], cat);
      assert [a[0]] + a[1..] == a;
    }
  }

  /** The first item of `items` with the id, as the scan in `get_item_by_id` finds it. */
  function FindById(items: seq<ChecklistItem>, id: int): (r: Option<ChecklistItem>)
    ensures r.None? <==> forall i :: 0 <= i < |items| ==> items[i].id != id
    ensures r.Some? ==>
      exists k :: 0 <= k < |items| && items[k] == r.value && r.value.id == id && forall j :: 0 <= j < k ==> items[j].id != id
  {
    if items == [] then None
    else if items[0].id == id then Some(items[0])
    else
      var r := FindById(items[1..], id);
      assert r.Some? ==>
        exists k :: 0 <= k < |items| && items[k] == r.value && r.value.id == id && forall j :: 0 <= j < k ==> items[j].id != id
      by {
        if r.Some? {
          var k :| 0 <= k < |items[1..]| && items[1..][k] == r.value
            && r.value.id == id && forall j :: 0 <= j < k ==> items[1..][j].id != id;
          assert items[k + 1] == r.value;
          assert forall j :: 0 <= j < k + 1 ==> items[j].id != id by {
            forall j | 0 <= j < k + 1 ensures items[j].id != id {
              if j > 0 { assert items[j] == items[1..][j - 1]; }
            }
          }
        }
      }
      r
  }


  /** In a list whose ids are 1, 2, 3, ... the scan finds id `n` at position `n - 1`. */
  lemma FindByIdConsecutive(items: seq<ChecklistItem>, id: int)
    requires forall i :: 0 <= i < |items| ==> items[i].id == i + 1
    ensures 1 <= id <= |items| ==> FindById(items, id) == Some(items[id - 1])
    ensures !(1 <= id <= |items|) ==> FindById(items, id) == None
  {
    var r := FindById(items, id);
    if 1 <= id <= |items| {
      assert items[id - 1].id == id;
      var k :| 0 <= k < |items| && items[k] == r.value && r.value.id == id
        && forall j :: 0 <= j < k ==> items[j].id != id;
      assert k == id - 1;
    }
  }
}
