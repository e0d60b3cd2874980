/**
 * Lawsuits: the record that ties a case number to its court, parties and
 * exhibit tag, its JSON form, and the manager that keeps the list of
 * lawsuits and reads the docket and exhibit indexes that belong to a case.
 * The indexes on disk become parameters: `None` when the file is absent,
 * otherwise the list the file holds.
 */
module LawsuitModel {
  import opened Wrappers
  import opened JsonValue
  import opened Sorting

  datatype Lawsuit = Lawsuit(
    id: string, caseNumber: string, shortName: string, court: string, judge: string, magistrate: string,
    dateFiled: string, plaintiff: string, defendant: string, caseType: string, status: string,
    exhibitTag: string, notes: string, dateCreated: string, dateModified: string)

  /** `Lawsuit.create`: an open case, tagged "Case <number>", created and modified now. */
  function NewLawsuit(id: string, now: string, caseNumber: string, shortName: string, court: string, judge: string,
                      magistrate: string, dateFiled: string, plaintiff: string, defendant: string, caseType: string,
                      notes: string): (l: Lawsuit)
    ensures l.id == id && l.caseNumber == caseNumber && l.shortName == shortName
    ensures l.status == "Open" && l.exhibitTag == "Case " + caseNumber
    ensures l.dateCreated == now && l.dateModified == now
    ensures l.court == court && l.judge == judge && l.magistrate == magistrate && l.dateFiled == dateFiled
    ensures l.plaintiff == plaintiff && l.defendant == defendant && l.caseType == caseType && l.notes == notes
  {
    Lawsuit(id, caseNumber, shortName, court, judge, magistrate, dateFiled, plaintiff, defendant, caseType,
      "Open", "Case " + caseNumber, notes, now, now)
  }

  // ---------------------------------------------------------------------------
  // Attributes by name

  /** The names of the fields, in declaration order. */
  const FieldNames: seq<string> := ["id", "case_number", "short_name", "court", "judge", "magistrate", "date_filed",
    "plaintiff", "defendant", "case_type", "status", "exhibit_tag", "notes", "date_created", "date_modified"]

  /** `hasattr(lawsuit, key)` for the fields. */
  predicate IsField(key: string) {
    key in FieldNames
  }

  function NameIs(key: string): string -> bool {
    (name: string) => name == key
  }

  /** The position of a field name among the fields. */
  function FieldIndex(key: string): (r: Option<nat>)
    ensures r.Some? <==> IsField(key)
    ensures r.Some? ==> r.value < |FieldNames| && FieldNames[r.value] == key
  {
    FirstIndex(FieldNames, NameIs(key))
  }

  /** The field at a position. */
  function FieldAt(l: Lawsuit, i: nat): string
    requires i < |FieldNames|
  {
    if i == 0 then l.id else if i == 1 then l.caseNumber else if i == 2 then l.shortName
    else if i == 3 then l.court else if i == 4 then l.judge else if i == 5 then l.magistrate
    else if i == 6 then l.dateFiled else if i == 7 then l.plaintiff else if i == 8 then l.defendant
    else if i == 9 then l.caseType else if i == 10 then l.status else if i == 11 then l.exhibitTag
    else if i == 12 then l.notes else if i == 13 then l.dateCreated else l.dateModified
  }

  /** The lawsuit with the field at a position replaced. */
  function SetAt(l: Lawsuit, i: nat, v: string): Lawsuit
    requires i < |FieldNames|
  {
    if i == 0 then l.(id := v) else if i == 1 then l.(caseNumber := v) else if i == 2 then l.(shortName := v)
    else if i == 3 then l.(court := v) else if i == 4 then l.(judge := v) else if i == 5 then l.(magistrate := v)
    else if i == 6 then l.(dateFiled := v) else if i == 7 then l.(plaintiff := v) else if i == 8 then l.(defendant := v)
    else if i == 9 then l.(caseType := v) else if i == 10 then l.(status := v) else if i == 11 then l.(exhibitTag := v)
    else if i == 12 then l.(notes := v) else if i == 13 then l.(dateCreated := v) else l.(dateModified := v)
  }

  lemma SetAtSpec(l: Lawsuit, i: nat, v: string, j: nat)
    requires i < |FieldNames| && j < |FieldNames|
    ensures FieldAt(SetAt(l, i, v), j) == if i == j then v else FieldAt(l, j)
  {
  }

  /** A lawsuit is determined by its fields. */
  lemma FieldsDetermine(a: Lawsuit, b: Lawsuit)
    requires forall i :: 0 <= i < |FieldNames| ==> FieldAt(a, i) == FieldAt(b, i)
    ensures a == b
  {
    assert FieldAt(a, 0) == FieldAt(b, 0) && FieldAt(a, 1) == FieldAt(b, 1) && FieldAt(a, 2) == FieldAt(b, 2);
    assert FieldAt(a, 3) == FieldAt(b, 3) && FieldAt(a, 4) == FieldAt(b, 4) && FieldAt(a, 5) == FieldAt(b, 5);
    assert FieldAt(a, 6) == FieldAt(b, 6) && FieldAt(a, 7) == FieldAt(b, 7) && FieldAt(a, 8) == FieldAt(b, 8);
    assert FieldAt(a, 9) == FieldAt(b, 9) && FieldAt(a, 10) == FieldAt(b, 10) && FieldAt(a, 11) == FieldAt(b, 11);
    assert FieldAt(a, 12) == FieldAt(b, 12) && FieldAt(a, 13) == FieldAt(b, 13) && FieldAt(a, 14) == FieldAt(b, 14);
  }

  /** `getattr(lawsuit, key)` for a field name; `None` for any other key. */
  function FieldOf(l: Lawsuit, key: string): (r: Option<string>)
    ensures r.Some? <==> IsField(key)
  {
    match FieldIndex(key)
    case Some(i) => Some(FieldAt(l, i))
    case None => None
  }

  /** `if hasattr(lawsuit, key): setattr(lawsuit, key, value)` */
  function SetField(l: Lawsuit, key: string, value: string): Lawsuit {
    match FieldIndex(key)
    case Some(i) => SetAt(l, i, value)
    case None => l
  }

  /** Setting a field changes that field and no other; an unknown key changes nothing. */
  lemma SetFieldSpec(l: Lawsuit, key: string, value: string, k: string)
    ensures FieldOf(SetField(l, key, value), k) == if k == key && IsField(k) then Some(value) else FieldOf(l, k)
  {
    var i, j := FieldIndex(key), FieldIndex(k);
    if i.Some? && j.Some? {
      SetAtSpec(l, i.value, value, j.value);
    }
  }

  /** The keyword arguments of `update_lawsuit` applied in order, built from the back. */
  function ApplyKwargs(l: Lawsuit, kwargs: seq<(string, string)>): Lawsuit {
    if kwargs == [] then l
    else SetField(ApplyKwargs(l, kwargs[..|kwargs| - 1]), kwargs[|kwargs| - 1].0, kwargs[|kwargs| - 1].1)
  }

  /** The value of the last keyword argument named `key`, if any. */
  function LastValue(kwargs: seq<(string, string)>, key: string): (r: Option<string>)
    ensures r.None? <==> forall i :: 0 <= i < |kwargs| ==> kwargs[i].0 != key
    ensures r.Some? ==> exists i :: 0 <= i < |kwargs| && kwargs[i] == (key, r.value)
  {
    if kwargs == [] then None
    else if kwargs[|kwargs| - 1].0 == key then Some(kwargs[|kwargs| - 1].1)
    else LastValue(kwargs[..|kwargs| - 1], key)
  }

  /** Each field ends with the last value given for it, or keeps its value when none is given. */
  lemma {:induction false} ApplyKwargsSpec(l: Lawsuit, kwargs: seq<(string, string)>, k: string)
    ensures FieldOf(ApplyKwargs(l, kwargs), k) ==
      if IsField(k) && LastValue(kwargs, k).Some? then LastValue(kwargs, k) else FieldOf(l, k)
  {
    if kwargs != [] {
      var n := |kwargs| - 1;
      ApplyKwargsSpec(l, kwargs[..n], k);
      SetFieldSpec(ApplyKwargs(l, kwargs[..n]), kwargs[n].0, kwargs[n].1, k);
    }
  }

  /** `update_lawsuit` on the found lawsuit: the known keys are set, then `date_modified` is now. */
  function Updated(l: Lawsuit, kwargs: seq<(string, string)>, now: string): Lawsuit {
    ApplyKwargs(l, kwargs).(dateModified := now)
  }

  /**
   * The updated lawsuit is modified now, whatever the arguments say about
   * `date_modified`; every other field holds the last value supplied for it,
   * or keeps its value when none is, and keys that are not fields are ignored.
   */
  lemma UpdatedSpec(l: Lawsuit, kwargs: seq<(string, string)>, now: string, k: string)
    requires IsField(k) && k != "date_modified"
    ensures Updated(l, kwargs, now).dateModified == now
    ensures FieldOf(Updated(l, kwargs, now), k) == (if LastValue(kwargs, k).Some? then LastValue(kwargs, k) else FieldOf(l, k))
  {
    var a := ApplyKwargs(l, kwargs);
    ApplyKwargsSpec(l, kwargs, k);
    var j := FieldIndex(k).value;
    assert j != 14;
    ModifiedKeepsOthers(a, now, j);
  }

  lemma ModifiedKeepsOthers(l: Lawsuit, now: string, j: nat)
    requires j < 14
    ensures FieldAt(l.(dateModified := now), j) == FieldAt(l, j)
  {
  }

  // ---------------------------------------------------------------------------
  // Dictionary form

  function LawsuitToDict(l: Lawsuit): (j: Json)
    ensures j.JObj?
  {
    JObj(map[
      "id" := JStr(l.id),
      "case_number" := JStr(l.caseNumber),
      "short_name" := JStr(l.shortName),
      "court" := JStr(l.court),
      "judge" := JStr(l.judge),
      "magistrate" := JStr(l.magistrate),
      "date_filed" := JStr(l.dateFiled),
      "plaintiff" := JStr(l.plaintiff),
      "defendant" := JStr(l.defendant),
      "case_type" := JStr(l.caseType),
      "status" := JStr(l.status),
      "exhibit_tag" := JStr(l.exhibitTag),
      "notes" := JStr(l.notes),
      "date_created" := JStr(l.dateCreated),
      "date_modified" := JStr(l.dateModified)])
  }

  /** `Lawsuit.from_dict`: missing fields are empty, except an open status, a fresh id and dates of now. */
  function LawsuitFromDict(j: Json, freshId: string, now: string): Option<Lawsuit> {
    if !j.JObj? then None
    else
      var o := j.o;
      var id, number, short, court, judge := OptStr(o, "id", freshId), OptStr(o, "case_number", ""),
        OptStr(o, "short_name", ""), OptStr(o, "court", ""), OptStr(o, "judge", "");
      var mag, filed, plaintiff, defendant, ctype := OptStr(o, "magistrate", ""), OptStr(o, "date_filed", ""),
        OptStr(o, "plaintiff", ""), OptStr(o, "defendant", ""), OptStr(o, "case_type", "");
      var status, tag, notes, created, modified := OptStr(o, "status", "Open"), OptStr(o, "exhibit_tag", ""),
        OptStr(o, "notes", ""), OptStr(o, "date_created", now), OptStr(o, "date_modified", now);
      if id.Some? && number.Some? && short.Some? && court.Some? && judge.Some? && mag.Some? && filed.Some?
        && plaintiff.Some? && defendant.Some? && ctype.Some? && status.Some? && tag.Some? && notes.Some?
        && created.Some? && modified.Some? then
        Some(Lawsuit(id.value, number.value, short.value, court.value, judge.value, mag.value, filed.value,
          plaintiff.value, defendant.value, ctype.value, status.value, tag.value, notes.value, created.value, modified.value))
      else None
  }

  lemma LawsuitRoundTripCase(l: Lawsuit, freshId: string)
    ensures var o := LawsuitToDict(l).o;
      && OptStr(o, "id", freshId) == Some(l.id) && OptStr(o, "case_number", "") == Some(l.caseNumber)
      && OptStr(o, "short_name", "") == Some(l.shortName) && OptStr(o, "court", "") == Some(l.court)
      && OptStr(o, "judge", "") == Some(l.judge) && OptStr(o, "magistrate", "") == Some(l.magistrate)
      && OptStr(o, "date_filed", "") == Some(l.dateFiled)
  {
  }

  lemma LawsuitRoundTripParties(l: Lawsuit, now: string)
    ensures var o := LawsuitToDict(l).o;
      && OptStr(o, "plaintiff", "") == Some(l.plaintiff) && OptStr(o, "defendant", "") == Some(l.defendant)
      && OptStr(o, "case_type", "") == Some(l.caseType) && OptStr(o, "status", "Open") == Some(l.status)
      && OptStr(o, "exhibit_tag", "") == Some(l.exhibitTag) && OptStr(o, "notes", "") == Some(l.notes)
      && OptStr(o, "date_created", now) == Some(l.dateCreated) && OptStr(o, "date_modified", now) == Some(l.dateModified)
  {
  }

  lemma LawsuitRoundTrip(l: Lawsuit, freshId: string, now: string)
    ensures LawsuitFromDict(LawsuitToDict(l), freshId, now) == Some(l)
  {
    LawsuitRoundTripCase(l, freshId);
    LawsuitRoundTripParties(l, now);
  }

  /** An empty dict gives an open lawsuit with a fresh id, dated now, and every other field empty. */
  lemma LawsuitDefaults(freshId: string, now: string)
    ensures LawsuitFromDict(JObj(map[]), freshId, now) ==
      Some(Lawsuit(freshId, "", "", "", "", "", "", "", "", "", "Open", "", "", now, now))
  {
  }

  // ---------------------------------------------------------------------------
  // Docket and exhibit indexes

  /** `e.get('case_id') == case_number` */
  function CaseIdIs(caseNumber: string): Json -> bool {
    (e: Json) => e.JObj? && "case_id" in e.o && e.o["case_id"] == JStr(caseNumber)
  }

  /** `e.get('docket_number', 0)` for an entry whose number, when present, is an integer. */
  function DocketNumber(e: Json): int {
    if e.JObj? && "docket_number" in e.o && e.o["docket_number"].JInt? then e.o["docket_number"].i else 0
  }

  function ByDocketNumber(): (Json, Json) -> bool {
    (a: Json, b: Json) => DocketNumber(a) <= DocketNumber(b)
  }

  lemma ByDocketNumberTotal()
    ensures Total(ByDocketNumber())
  {
  }

  /** `get_docket_entries`: the case's entries of the docket index, by docket number. */
  function DocketEntries(index: Option<seq<Json>>, caseNumber: string): seq<Json> {
    match index
    case None => []
    case Some(entries) => Sort(Filter(CaseIdIs(caseNumber), entries), ByDocketNumber())
  }

  /**
   * The docket entries of a case are exactly its entries in the index, each
   * as often as there, in ascending order of docket number.
   */
  lemma DocketEntriesSpec(entries: seq<Json>, caseNumber: string)
    ensures multiset(DocketEntries(Some(entries), caseNumber)) == multiset(Filter(CaseIdIs(caseNumber), entries))
    ensures forall e :: e in DocketEntries(Some(entries), caseNumber) <==> e in entries && CaseIdIs(caseNumber)(e)
    ensures forall i, j :: 0 <= i < j < |DocketEntries(Some(entries), caseNumber)| ==>
      DocketNumber(DocketEntries(Some(entries), caseNumber)[i]) <= DocketNumber(DocketEntries(Some(entries), caseNumber)[j])
  {
    var f := Filter(CaseIdIs(caseNumber), entries);
    var r := DocketEntries(Some(entries), caseNumber);
    ByDocketNumberTotal();
    SortSpec(f, ByDocketNumber());
    FilterSpec(CaseIdIs(caseNumber), entries);
    assert forall e :: e in r <==> e in multiset(r);
    SortedByNumber(r);
  }

  lemma {:induction false} SortedByNumber(s: seq<Json>)
    requires Sorted(s, ByDocketNumber())
    ensures forall i, j :: 0 <= i < j < |s| ==> DocketNumber(s[i]) <= DocketNumber(s[j])
  {
    if |s| > 1 {
      var t := s[1..];
      assert Sorted(t, ByDocketNumber()) by {
        forall i | 0 <= i < |t| - 1
          ensures ByDocketNumber()(t[i], t[i + 1])
        {
          assert t[i] == s[i + 1] && t[i + 1] == s[i + 2];
        }
      }
      SortedByNumber(t);
      forall i, j | 0 <= i < j < |s|
        ensures DocketNumber(s[i]) <= DocketNumber(s[j])
      {
        if i == 0 {
          assert ByDocketNumber()(s[0], s[1]);
          if j > 1 {
            assert DocketNumber(t[0]) <= DocketNumber(t[j - 1]);
          }
        } else {
          assert DocketNumber(t[i - 1]) <= DocketNumber(t[j - 1]);
        }
      }
    }
  }

  /** `tag_name in e.get('tags', [])` for an entry whose tags, when present, are a list. */
  function TaggedWith(tag: string): Json -> bool {
    (e: Json) => e.JObj? && "tags" in e.o && e.o["tags"].JArr? && JStr(tag) in e.o["tags"].a
  }

  /** Python truthiness of a JSON value. */
  predicate Truthy(v: Json) {
    match v
    case JNull => false
    case JBool(b) => b
    case JInt(i) => i != 0
    case JStr(s) => s != ""
    case JArr(a) => a != []
    case JObj(o) => o != map[]
  }

  /** `e.get('attached_document')` is truthy. */
  function HasDocument(): Json -> bool {
    (e: Json) => e.JObj? && "attached_document" in e.o && Truthy(e.o["attached_document"])
  }

  /** What `get_case_summary` reports; `latestEntry` is `None` when the case has no entries. */
  datatype CaseSummary = CaseSummary(
    caseNumber: string, shortName: string, status: string, totalDocketEntries: nat,
    entriesWithDocuments: nat, totalExhibits: nat, latestEntry: Option<Json>)

  function LawsuitIdIs(id: string): Lawsuit -> bool {
    (l: Lawsuit) => l.id == id
  }

  function NumberIs(caseNumber: string): Lawsuit -> bool {
    (l: Lawsuit) => l.caseNumber == caseNumber
  }

  /** The first lawsuit satisfying `p`. */
  function Find(lawsuits: seq<Lawsuit>, p: Lawsuit -> bool): (r: Option<Lawsuit>)
    ensures r.None? <==> forall i :: 0 <= i < |lawsuits| ==> !p(lawsuits[i])
    ensures r.Some? ==> exists i :: (0 <= i < |lawsuits| && lawsuits[i] == r.value && p(r.value)
      && forall j :: 0 <= j < i ==> !p(lawsuits[j]))
  {
    match FirstIndex(lawsuits, p)
    case Some(i) => Some(lawsuits[i])
    case None => None
  }

  /** `get_exhibits`: the exhibits of the index tagged with the lawsuit's exhibit tag. */
  function ExhibitsFor(index: Option<seq<Json>>, lawsuit: Option<Lawsuit>): seq<Json> {
    if index.None? || lawsuit.None? then [] else Filter(TaggedWith(lawsuit.value.exhibitTag), index.value)
  }

  /** Without an index or a lawsuit there are no exhibits; otherwise exactly the indexed exhibits carrying the lawsuit's tag. */
  lemma ExhibitsForSpec(index: Option<seq<Json>>, lawsuit: Option<Lawsuit>)
    ensures index.None? || lawsuit.None? ==> ExhibitsFor(index, lawsuit) == []
    ensures index.Some? && lawsuit.Some? ==>
      forall e :: e in ExhibitsFor(index, lawsuit) <==> e in index.value && TaggedWith(lawsuit.value.exhibitTag)(e)
  {
    if index.Some? && lawsuit.Some? {
      FilterSpec(TaggedWith(lawsuit.value.exhibitTag), index.value);
    }
  }

  /** `get_case_summary` over the lawsuits, the docket index and the exhibit index. */
  function Summary(lawsuits: seq<Lawsuit>, caseNumber: string, dockets: Option<seq<Json>>, exhibits: Option<seq<Json>>): CaseSummary {
    var lawsuit := Find(lawsuits, NumberIs(caseNumber));
    var entries := DocketEntries(dockets, caseNumber);
    CaseSummary(
      caseNumber,
      if lawsuit.Some? then lawsuit.value.shortName else "",
      if lawsuit.Some? then lawsuit.value.status else "Unknown",
      |entries|,
      |Filter(HasDocument(), entries)|,
      |ExhibitsFor(exhibits, lawsuit)|,
      if entries != [] then Some(entries[|entries| - 1]) else None)
  }

  /** `e` is an entry of the case whose docket number no other entry of the case exceeds. */
  predicate LatestOfCase(dockets: seq<Json>, caseNumber: string, e: Json) {
    e in dockets && CaseIdIs(caseNumber)(e)
    && forall d :: d in dockets && CaseIdIs(caseNumber)(d) ==> DocketNumber(d) <= DocketNumber(e)
  }

  /** A sorted list holding exactly the entries of the case is empty only without any, and ends with the latest. */
  lemma SortedCaseEntries(dockets: seq<Json>, caseNumber: string, entries: seq<Json>)
    requires forall e :: e in entries <==> e in dockets && CaseIdIs(caseNumber)(e)
    requires forall i, j :: 0 <= i < j < |entries| ==> DocketNumber(entries[i]) <= DocketNumber(entries[j])
    ensures entries == [] <==> forall i :: 0 <= i < |dockets| ==> !CaseIdIs(caseNumber)(dockets[i])
    ensures entries != [] ==> LatestOfCase(dockets, caseNumber, entries[|entries| - 1])
  {
    if entries == [] {
      forall i | 0 <= i < |dockets|
        ensures !CaseIdIs(caseNumber)(dockets[i])
      {
        assert dockets[i] in dockets;
      }
    } else {
      var last := entries[|entries| - 1];
      assert last in entries;
      var i :| 0 <= i < |dockets| && dockets[i] == last;
      forall e | e in dockets && CaseIdIs(caseNumber)(e)
        ensures DocketNumber(e) <= DocketNumber(last)
      {
        var k :| 0 <= k < |entries| && entries[k] == e;
        if k < |entries| - 1 {
          assert DocketNumber(entries[k]) <= DocketNumber(entries[|entries| - 1]);
        }
      }
    }
  }

  /** The case's entries, sorted: none exactly when no entry has the case id, else the last has the largest number. */
  lemma LatestEntrySpec(dockets: seq<Json>, caseNumber: string)
    ensures |DocketEntries(Some(dockets), caseNumber)| == |Filter(CaseIdIs(caseNumber), dockets)|
    ensures DocketEntries(Some(dockets), caseNumber) == [] <==> forall i :: 0 <= i < |dockets| ==> !CaseIdIs(caseNumber)(dockets[i])
    ensures DocketEntries(Some(dockets), caseNumber) != [] ==>
      LatestOfCase(dockets, caseNumber, DocketEntries(Some(dockets), caseNumber)[|DocketEntries(Some(dockets), caseNumber)| - 1])
  {
    var entries := DocketEntries(Some(dockets), caseNumber);
    DocketEntriesSpec(dockets, caseNumber);
    assert |entries| == |multiset(entries)| == |Filter(CaseIdIs(caseNumber), dockets)|;
    SortedCaseEntries(dockets, caseNumber, entries);
  }

  /**
   * The summary counts the case's docket entries; its latest entry is absent
   * exactly when the case has none, and otherwise is an entry of the case
   * whose docket number is the largest.  Without a lawsuit of that number the
   * status is "Unknown" and no exhibits are counted.
   */
  lemma SummarySpec(lawsuits: seq<Lawsuit>, caseNumber: string, dockets: seq<Json>, exhibits: Option<seq<Json>>)
    ensures var s := Summary(lawsuits, caseNumber, Some(dockets), exhibits);
      && s.totalDocketEntries == |Filter(CaseIdIs(caseNumber), dockets)|
      && (s.latestEntry.None? <==> forall i :: 0 <= i < |dockets| ==> !CaseIdIs(caseNumber)(dockets[i]))
      && (s.latestEntry.Some? ==> (s.latestEntry.value in dockets && CaseIdIs(caseNumber)(s.latestEntry.value)
          && forall e :: e in dockets && CaseIdIs(caseNumber)(e) ==> DocketNumber(e) <= DocketNumber(s.latestEntry.value)))
      && s.entriesWithDocuments <= s.totalDocketEntries
  {
    LatestEntrySpec(dockets, caseNumber);
  }

  /** The summary's status is the lawsuit's, or "Unknown" without one; exhibits need a lawsuit. */
  lemma SummaryLawsuitSpec(lawsuits: seq<Lawsuit>, caseNumber: string, dockets: Option<seq<Json>>, exhibits: Option<seq<Json>>)
    ensures var s := Summary(lawsuits, caseNumber, dockets, exhibits);
      && ((forall i :: 0 <= i < |lawsuits| ==> lawsuits[i].caseNumber != caseNumber) ==>
            s.status == "Unknown" && s.shortName == "" && s.totalExhibits == 0)
      && (dockets.None? ==> s.totalDocketEntries == 0 && s.latestEntry.None?)
      && s.caseNumber == caseNumber
  {
  }

  // ---------------------------------------------------------------------------
  // The manager

  class LawsuitManager {
    var lawsuits: seq<Lawsuit>

    /** The manager as loaded from its index. */
    constructor (lawsuits: seq<Lawsuit>)
      ensures this.lawsuits == lawsuits
    {
      this.lawsuits := lawsuits;
    }

    /** `create_lawsuit`: the created lawsuit is appended. */
    method CreateLawsuit(id: string, now: string, caseNumber: string, shortName: string, court: string, judge: string,
                         magistrate: string, dateFiled: string, plaintiff: string, defendant: string, caseType: string,
                         notes: string) returns (l: Lawsuit)
      modifies this
      ensures l == NewLawsuit(id, now, caseNumber, shortName, court, judge, magistrate, dateFiled,
                                              plaintiff, defendant, caseType, notes)
      ensures lawsuits == old(lawsuits) + [l]
    {
      l := NewLawsuit(id, now, caseNumber, shortName, court, judge, magistrate, dateFiled,
                                      plaintiff, defendant, caseType, notes);
      lawsuits := lawsuits + [l];
    }

    /** The scan of `for lawsuit in self._lawsuits: if ...: return`. */
    method IndexWhere(p: Lawsuit -> bool) returns (r: Option<nat>)
      ensures r == FirstIndex(lawsuits, p)
    {
      var i := 0;
      while i < |lawsuits|
        invariant 0 <= i <= |lawsuits|
        invariant forall j :: 0 <= j < i ==> !p(lawsuits[j])
      {
        if p(lawsuits[i]) {
          FirstIndexAt(lawsuits, p, i);
          return Some(i);
        }
        i := i + 1;
      }
      r := None;
    }

    /** `get_lawsuit`: the first lawsuit with the id. */
    method GetLawsuit(id: string) returns (r: Option<Lawsuit>)
      ensures r == Find(lawsuits, LawsuitIdIs(id))
    {
      var k := IndexWhere(LawsuitIdIs(id));
      r := if k.Some? then Some(lawsuits[k.value]) else None;
    }

    /** `get_lawsuit_by_number`: the first lawsuit with the case number. */
    method GetLawsuitByNumber(caseNumber: string) returns (r: Option<Lawsuit>)
      ensures r == Find(lawsuits, NumberIs(caseNumber))
    {
      var k := IndexWhere(NumberIs(caseNumber));
      r := if k.Some? then Some(lawsuits[k.value]) else None;
    }

    /** `update_lawsuit`: the first lawsuit with the id takes the known keyword arguments and is modified now. */
    method UpdateLawsuit(id: string, kwargs: seq<(string, string)>, now: string) returns (r: Option<Lawsuit>)
      modifies this
      ensures FirstIndex(old(lawsuits), LawsuitIdIs(id)).None? ==> r.None? && lawsuits == old(lawsuits)
      ensures FirstIndex(old(lawsuits), LawsuitIdIs(id)).Some? ==>
        var i := FirstIndex(old(lawsuits), LawsuitIdIs(id)).value;
        lawsuits == old(lawsuits)[i := Updated(old(lawsuits)[i], kwargs, now)] && r == Some(lawsuits[i])
    {
      var k := IndexWhere(LawsuitIdIs(id));
      if k.None? {
        return None;
      }
      var l := lawsuits[k.value];
      var j := 0;
      while j < |kwargs|
        invariant 0 <= j <= |kwargs|
        invariant l == ApplyKwargs(lawsuits[k.value], kwargs[..j])
      {
        assert kwargs[..j + 1][..j] == kwargs[..j];
        l := SetField(l, kwargs[j].0, kwargs[j].1);
        j := j + 1;
      }
      assert kwargs[..j] == kwargs;
      l := l.(dateModified := now);
      lawsuits := lawsuits[k.value := l];
      r := Some(l);
    }

    /** `delete_lawsuit`: the first lawsuit with the id is removed. */
    method DeleteLawsuit(id: string) returns (deleted: bool)
      modifies this
      ensures FirstIndex(old(lawsuits), LawsuitIdIs(id)).None? ==> !deleted && lawsuits == old(lawsuits)
      ensures FirstIndex(old(lawsuits), LawsuitIdIs(id)).Some? ==>
        deleted && lawsuits == RemoveAt(old(lawsuits), FirstIndex(old(lawsuits), LawsuitIdIs(id)).value)
    {
      var k := IndexWhere(LawsuitIdIs(id));
      if k.Some? {
        lawsuits := RemoveAt(lawsuits, k.value);
        deleted := true;
      } else {
        deleted := false;
      }
    }

    /** `get_case_summary`, given the contents of the docket and exhibit indexes. */
    method GetCaseSummary(caseNumber: string, dockets: Option<seq<Json>>, exhibits: Option<seq<Json>>) returns (s: CaseSummary)
      ensures s == Summary(lawsuits, caseNumber, dockets, exhibits)
    {
      var lawsuit := GetLawsuitByNumber(caseNumber);
      var entries := DocketEntries(dockets, caseNumber);
      var tagged := ExhibitsFor(exhibits, lawsuit);
      s := CaseSummary(
        caseNumber,
        if lawsuit.Some? then lawsuit.value.shortName else "",
        if lawsuit.Some? then lawsuit.value.status else "Unknown",
        |entries|,
        |Filter(HasDocument(), entries)|,
        |tagged|,
        if entries != [] then Some(entries[|entries| - 1]) else None);
    }
  }
}
