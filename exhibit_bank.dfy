/**
 * The exhibit bank held in memory: the exhibits and the tags, with adding,
 * updating, deleting, searching and statistics.  The index file, the copied
 * files, thumbnails and redacted versions are left to the caller: what an
 * operation would learn from them (does the file exist, its size, its page
 * count) is a parameter.
 */
module ExhibitBankStore {
  import opened Wrappers
  import opened Text
  import opened OrderedMap
  import opened Tallies
  import opened ExhibitModel

  // ---------------------------------------------------------------------------
  // Search

  /** The lower-case query occurs in the title, description, notes or original file name, each lower-cased. */
  function MatchesText(q: string): Exhibit -> bool {
    (e: Exhibit) => Contains(Lower(e.title), q) || Contains(Lower(e.description), q)
      || Contains(Lower(e.notes), q) || Contains(Lower(e.originalFilename), q)
  }

  /** The exhibit carries at least one of the tags. */
  function HasAnyTag(tags: seq<string>): Exhibit -> bool {
    (e: Exhibit) => exists k :: 0 <= k < |tags| && tags[k] in e.tags
  }

  function OfType(fileType: string): Exhibit -> bool {
    (e: Exhibit) => e.fileType == fileType
  }

  /** The stage filters as predicates: each lets everything through when its filter is empty. */
  function QueryOk(query: string): Exhibit -> bool {
    (e: Exhibit) => query == "" || MatchesText(Lower(query))(e)
  }

  function TagsOk(tags: seq<string>): Exhibit -> bool {
    (e: Exhibit) => tags == [] || HasAnyTag(tags)(e)
  }

  function TypeOk(fileType: string): Exhibit -> bool {
    (e: Exhibit) => fileType == "" || OfType(fileType)(e)
  }

  /** One exhibit passes all three filters. */
  predicate PassesSearch(e: Exhibit, query: string, tags: seq<string>, fileType: string) {
    QueryOk(query)(e) && TagsOk(tags)(e) && TypeOk(fileType)(e)
  }

  function PassesSearchOf(query: string, tags: seq<string>, fileType: string): Exhibit -> bool {
    (e: Exhibit) => PassesSearch(e, query, tags, fileType)
  }

  /** `search`: the three filters applied in turn, each skipped when empty. */
  function SearchStages(exhibits: seq<Exhibit>, query: string, tags: seq<string>, fileType: string): seq<Exhibit> {
    var a := if query != "" then Filter(MatchesText(Lower(query)), exhibits) else exhibits;
    var b := if tags != [] then Filter(HasAnyTag(tags), a) else a;
    if fileType != "" then Filter(OfType(fileType), b) else b
  }

  /** The first stage: the query filter, or the list itself for an empty query. */
  lemma QueryStage(exhibits: seq<Exhibit>, query: string)
    ensures (if query != "" then Filter(MatchesText(Lower(query)), exhibits) else exhibits)
      == Filter(QueryOk(query), exhibits)
  {
    var p1 := QueryOk(query);
    if query != "" {
      FilterCongruent(MatchesText(Lower(query)), p1, exhibits);
    } else {
      FilterAll(p1, exhibits);
    }
  }

  lemma TagStage(a: seq<Exhibit>, tags: seq<string>)
    ensures (if tags != [] then Filter(HasAnyTag(tags), a) else a) == Filter(TagsOk(tags), a)
  {
    var p2 := TagsOk(tags);
    if tags != [] {
      FilterCongruent(HasAnyTag(tags), p2, a);
    } else {
      FilterAll(p2, a);
    }
  }

  lemma TypeStage(b: seq<Exhibit>, fileType: string)
    ensures (if fileType != "" then Filter(OfType(fileType), b) else b) == Filter(TypeOk(fileType), b)
  {
    var p3 := TypeOk(fileType);
    if fileType != "" {
      FilterCongruent(OfType(fileType), p3, b);
    } else {
      FilterAll(p3, b);
    }
  }

  /**
   * The staged search is one filter by the conjunction: it keeps, in the
   * bank's order, exactly the exhibits passing every non-empty filter.
   */
  lemma SearchSpec(exhibits: seq<Exhibit>, query: string, tags: seq<string>, fileType: string)
    ensures SearchStages(exhibits, query, tags, fileType) == Filter(PassesSearchOf(query, tags, fileType), exhibits)
  {
    var p1, p2, p3 := QueryOk(query), TagsOk(tags), TypeOk(fileType);
    var a := if query != "" then Filter(MatchesText(Lower(query)), exhibits) else exhibits;
    var b := if tags != [] then Filter(HasAnyTag(tags), a) else a;
    QueryStage(exhibits, query);
    TagStage(a, tags);
    TypeStage(b, fileType);
    FilterFilter(p2, p1, exhibits);
    FilterFilter(p3, Both(p1, p2), exhibits);
    var all := PassesSearchOf(query, tags, fileType);
    forall i | 0 <= i < |exhibits|
      ensures Both(Both(p1, p2), p3)(exhibits[i]) == all(exhibits[i])
    {
    }
    FilterCongruent(Both(Both(p1, p2), p3), all, exhibits);
  }

  /** The search result holds exactly the exhibits of the bank passing every non-empty filter. */
  lemma SearchMembers(exhibits: seq<Exhibit>, query: string, tags: seq<string>, fileType: string)
    ensures forall e :: e in SearchStages(exhibits, query, tags, fileType) <==> e in exhibits && PassesSearch(e, query, tags, fileType)
  {
    SearchSpec(exhibits, query, tags, fileType);
    FilterSpec(PassesSearchOf(query, tags, fileType), exhibits);
  }

  function Tagged(name: string): Exhibit -> bool {
    (e: Exhibit) => name in e.tags
  }

  /** `get_exhibits_by_tag`: in order, the exhibits whose tags hold the name. */
  lemma ExhibitsByTagSpec(exhibits: seq<Exhibit>, name: string)
    ensures forall e :: e in Filter(Tagged(name), exhibits) <==> e in exhibits && name in e.tags
    ensures Filter(Tagged(name), exhibits) == SearchStages(exhibits, "", [name], "")
  {
    FilterSpec(Tagged(name), exhibits);
    forall i | 0 <= i < |exhibits|
      ensures Tagged(name)(exhibits[i]) == HasAnyTag([name])(exhibits[i])
    {
      if name in exhibits[i].tags {
        assert [name][0] in exhibits[i].tags;
      }
    }
    FilterCongruent(Tagged(name), HasAnyTag([name]), exhibits);
  }

  // ---------------------------------------------------------------------------
  // Statistics

  function SumSizes(exhibits: seq<Exhibit>): int {
    if exhibits == [] then 0 else SumSizes(exhibits[..|exhibits| - 1]) + exhibits[|exhibits| - 1].fileSize
  }

  function RedactedCount(exhibits: seq<Exhibit>): (r: nat)
    ensures r <= |exhibits|
  {
    if exhibits == [] then 0
    else RedactedCount(exhibits[..|exhibits| - 1]) + (if exhibits[|exhibits| - 1].hasRedactedVersion then 1 else 0)
  }

  function FileTypeOf(e: Exhibit): string {
    e.fileType
  }

  /** `get_stats` without `total_size_mb`. */
  datatype Stats = Stats(totalExhibits: nat, totalSizeBytes: int, byType: seq<Entry<string, int>>, totalTags: nat, redactedCount: nat)

  /** The counts by type are keyed once each, hold each type's number of exhibits, and add up to the total. */
  lemma ByTypeSpec(exhibits: seq<Exhibit>)
    ensures DistinctKeys(Tally(MapSeq(FileTypeOf, exhibits)))
    ensures SumValues(Tally(MapSeq(FileTypeOf, exhibits))) == |exhibits|
    ensures forall t :: (Get(Tally(MapSeq(FileTypeOf, exhibits)), t)
      == (if Occurrences(MapSeq(FileTypeOf, exhibits), t) == 0 then None else Some(Occurrences(MapSeq(FileTypeOf, exhibits), t) as int)))
  {
    var ts := MapSeq(FileTypeOf, exhibits);
    MapSeqIndex(FileTypeOf, exhibits);
    TallyDistinct(ts);
    TallySum(ts);
    forall t
      ensures Get(Tally(ts), t) == (if Occurrences(ts, t) == 0 then None else Some(Occurrences(ts, t) as int))
    {
      TallyExact(ts, t);
    }
  }

  // ---------------------------------------------------------------------------
  // The bank

  /** The fields `update_exhibit` accepts; any other keyword is ignored. */
  datatype ExhibitUpdates = ExhibitUpdates(title: Option<string>, description: Option<string>, tags: Option<seq<string>>,
                                           notes: Option<string>, source: Option<string>)

  /** The exhibit with the supplied fields set and modified now. */
  function Updated(e: Exhibit, u: ExhibitUpdates, now: string): (d: Exhibit)
    ensures d.title == u.title.GetOr(e.title) && d.description == u.description.GetOr(e.description)
    ensures d.tags == u.tags.GetOr(e.tags) && d.notes == u.notes.GetOr(e.notes) && d.source == u.source.GetOr(e.source)
    ensures d.dateModified == now
    ensures d.(title := e.title, description := e.description, tags := e.tags, notes := e.notes, source := e.source, dateModified := e.dateModified) == e
  {
    e.(title := u.title.GetOr(e.title), description := u.description.GetOr(e.description), tags := u.tags.GetOr(e.tags),
       notes := u.notes.GetOr(e.notes), source := u.source.GetOr(e.source), dateModified := now)
  }

  function ExhibitIdIs(id: string): Exhibit -> bool {
    (e: Exhibit) => e.id == id
  }

  function TagIdIs(id: string): ExhibitTag -> bool {
    (t: ExhibitTag) => t.id == id
  }

  class ExhibitBank {
    var exhibits: seq<Exhibit>
    var tags: seq<ExhibitTag>

    /** The bank as loaded from its index (or the default tags and no exhibits). */
    constructor (exhibits: seq<Exhibit>, tags: seq<ExhibitTag>)
      ensures this.exhibits == exhibits && this.tags == tags
    {
      this.exhibits := exhibits;
      this.tags := tags;
    }

    /**
     * `add_exhibit`: fails when the file at `filePath` does not exist;
     * `fileName` is the last component of that path.  Otherwise the
     * created exhibit, with the copy's size and, for a PDF, its page count,
     * is appended.
     */
    method AddExhibit(id: string, now: string, fileExists: bool, filePath: string, fileName: string, title: string, exhibitTags: Option<seq<string>>,
                      description: string, notes: string, source: string, copiedSize: int, pdfPages: int) returns (r: Result<Exhibit>)
      modifies this
      ensures tags == old(tags)
      ensures !fileExists ==> r == Failure("File not found: " + filePath) && exhibits == old(exhibits)
      ensures fileExists ==> r.Success? && exhibits == old(exhibits) + [r.value]
      ensures r.Success? ==>
        var fileType := GetFileType(fileName);
        r.value == CreateExhibit(id, now, title, fileName, fileType, Some(exhibitTags.GetOr([])), "", description, notes, source)
          .(fileSize := copiedSize, pageCount := if fileType == "pdf" then pdfPages else 0)
    {
      if !fileExists {
        return Failure("File not found: " + filePath);
      }
      var fileType := GetFileType(fileName);
      var e := CreateExhibit(id, now, title, fileName, fileType, Some(exhibitTags.GetOr([])), "", description, notes, source);
      e := e.(fileSize := copiedSize);
      if fileType == "pdf" {
        e := e.(pageCount := pdfPages);
      }
      exhibits := exhibits + [e];
      r := Success(e);
    }

    /** `get_exhibit`: the first exhibit with the id. */
    function GetExhibit(id: string): (r: Option<Exhibit>)
      reads this
      ensures r.Some? ==> r.value in exhibits && r.value.id == id
      ensures r.None? <==> forall i :: 0 <= i < |exhibits| ==> exhibits[i].id != id
    {
      match FirstIndex(exhibits, ExhibitIdIs(id))
      case Some(i) => Some(exhibits[i])
      case None => None
    }

    method IndexOf(id: string) returns (r: Option<nat>)
      ensures r == FirstIndex(exhibits, ExhibitIdIs(id))
    {
      var i := 0;
      while i < |exhibits|
        invariant 0 <= i <= |exhibits|
        invariant forall j :: 0 <= j < i ==> exhibits[j].id != id
      {
        if exhibits[i].id == id {
          FirstIndexAt(exhibits, ExhibitIdIs(id), i);
          return Some(i);
        }
        i := i + 1;
      }
      r := None;
    }

    /** `update_exhibit`: the first exhibit with the id takes the supplied fields and is modified now. */
    method UpdateExhibit(id: string, updates: ExhibitUpdates, now: string) returns (r: Option<Exhibit>)
      modifies this
      ensures tags == old(tags)
      ensures FirstIndex(old(exhibits), ExhibitIdIs(id)).None? ==> r.None? && exhibits == old(exhibits)
      ensures FirstIndex(old(exhibits), ExhibitIdIs(id)).Some? ==>
        var i := FirstIndex(old(exhibits), ExhibitIdIs(id)).value;
        exhibits == old(exhibits)[i := Updated(old(exhibits)[i], updates, now)] && r == Some(exhibits[i])
    {
      var k := IndexOf(id);
      if k.Some? {
        var e := Updated(exhibits[k.value], updates, now);
        exhibits := exhibits[k.value := e];
        r := Some(e);
      } else {
        r := None;
      }
    }

    /** `delete_exhibit`: the first exhibit with the id is removed (its files are left out). */
    method DeleteExhibit(id: string) returns (deleted: bool)
      modifies this
      ensures tags == old(tags)
      ensures FirstIndex(old(exhibits), ExhibitIdIs(id)).None? ==> !deleted && exhibits == old(exhibits)
      ensures FirstIndex(old(exhibits), ExhibitIdIs(id)).Some? ==>
        deleted && exhibits == RemoveAt(old(exhibits), FirstIndex(old(exhibits), ExhibitIdIs(id)).value)
    {
      var k := IndexOf(id);
      if k.Some? {
        exhibits := RemoveAt(exhibits, k.value);
        deleted := true;
      } else {
        deleted := false;
      }
    }

    /** `search`: the list narrowed by the query, then the tags, then the file type. */
    method Search(query: string, anyOfTags: seq<string>, fileType: string) returns (results: seq<Exhibit>)
      ensures results == SearchStages(exhibits, query, anyOfTags, fileType)
    {
      results := exhibits;
      if query != "" {
        results := Filter(MatchesText(Lower(query)), results);
      }
      if anyOfTags != [] {
        results := Filter(HasAnyTag(anyOfTags), results);
      }
      if fileType != "" {
        results := Filter(OfType(fileType), results);
      }
    }

    /** `add_tag` */
    method AddTag(id: string, name: string, color: string) returns (t: ExhibitTag)
      modifies this
      ensures t == ExhibitTag(id, name, color)
      ensures tags == old(tags) + [t] && exhibits == old(exhibits)
    {
      t := ExhibitTag(id, name, color);
      tags := tags + [t];
    }

    /** `delete_tag`: the first tag with the id goes; exhibits keep the tag's name in their lists. */
    method DeleteTag(id: string) returns (deleted: bool)
      modifies this
      ensures exhibits == old(exhibits)
      ensures FirstIndex(old(tags), TagIdIs(id)).None? ==> !deleted && tags == old(tags)
      ensures FirstIndex(old(tags), TagIdIs(id)).Some? ==> deleted && tags == RemoveAt(old(tags), FirstIndex(old(tags), TagIdIs(id)).value)
    {
      var i := 0;
      while i < |tags|
        invariant 0 <= i <= |tags|
        invariant forall j :: 0 <= j < i ==> tags[j].id != id
      {
        if tags[i].id == id {
          FirstIndexAt(tags, TagIdIs(id), i);
          tags := RemoveAt(tags, i);
          return true;
        }
        i := i + 1;
      }
      deleted := false;
    }

    /** `get_exhibits_by_tag` */
    function ExhibitsByTag(name: string): seq<Exhibit>
      reads this
    {
      Filter(Tagged(name), exhibits)
    }

    /** `get_stats`: the type counts built by a loop, the sums by comprehensions. */
    method GetStats() returns (s: Stats)
      ensures s.totalExhibits == |exhibits| && s.totalTags == |tags|
      ensures s.totalSizeBytes == SumSizes(exhibits) && s.redactedCount == RedactedCount(exhibits)
      ensures s.byType == Tally(MapSeq(FileTypeOf, exhibits))
    {
      var counts: seq<Entry<string, int>> := [];
      var i := 0;
      while i < |exhibits|
        invariant 0 <= i <= |exhibits|
        invariant counts == Tally(MapSeq(FileTypeOf, exhibits[..i]))
      {
        assert exhibits[..i + 1][..i] == exhibits[..i];
        counts := Bump(counts, exhibits[i].fileType);
        i := i + 1;
      }
      assert exhibits[..i] == exhibits;
      s := Stats(|exhibits|, SumSizes(exhibits), counts, |tags|, RedactedCount(exhibits));
    }
  }
}
