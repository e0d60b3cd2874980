/**
 * The records of the case library: a topic category, one library case with
 * its derived file names and Bluebook citation, and the tally of a batch
 * import.  Fresh ids and the clock reading are parameters.
 */
module LibraryCaseModel {
  import opened Wrappers
  import opened Text
  import opened JsonValue

  // ---------------------------------------------------------------------------
  // Categories

  const DefaultColor: string := "#4A90D9"

  /** A category for organising cases by legal topic; `color` is a hex colour. */
  datatype Category = Category(id: string, name: string, color: string)

  function CategoryToDict(c: Category): (j: Json)
    ensures j.JObj? && j.o.Keys == {"id", "name", "color"}
  {
    JObj(map["id" := JStr(c.id), "name" := JStr(c.name), "color" := JStr(c.color)])
  }

  /** `Category.from_dict`: `id` and `name` are required, `color` defaults to the blue of the default. */
  function CategoryFromDict(j: Json): (r: Option<Category>)
    ensures r.Some? ==> j.JObj? && "id" in j.o && "name" in j.o
    ensures r.Some? && "color" !in j.o ==> r.value.color == DefaultColor
  {
    if !j.JObj? then None
    else
      var id, name, color := ReqStr(j.o, "id"), ReqStr(j.o, "name"), OptStr(j.o, "color", DefaultColor);
      if id.Some? && name.Some? && color.Some? then Some(Category(id.value, name.value, color.value)) else None
  }

  lemma CategoryRoundTrip(c: Category)
    ensures CategoryFromDict(CategoryToDict(c)) == Some(c)
  {
  }

  // ---------------------------------------------------------------------------
  // File names

  /** The characters a file name may not hold. */
  const UnsafeChars: string := "<>:\"/\\|?*"

  /** Each character of `cs` in turn removed from `s`. */
  function RemoveChars(s: string, cs: string): string
    decreases |cs|
  {
    if cs == [] then s else RemoveChars(Replace(s, [cs[0]], ""), cs[1..])
  }

  lemma {:induction false} RemoveCharsSpec(s: string, cs: string)
    ensures forall c :: c in cs ==> c !in RemoveChars(s, cs)
    ensures forall x :: x in RemoveChars(s, cs) ==> x in s
    decreases |cs|
  {
    if cs != [] {
      var t := Replace(s, [cs[0]], "");
      ReplaceCharRemoves(s, cs[0], "");
      RemoveCharsSpec(t, cs[1..]);
    }
  }

  lemma {:induction false} RemoveCharsAbsent(s: string, cs: string)
    requires forall c :: c in cs ==> c !in s
    ensures RemoveChars(s, cs) == s
    decreases |cs|
  {
    if cs != [] {
      ContainsChar(s, cs[0]);
      RemoveCharsAbsent(s, cs[1..]);
    }
  }

  /** `_sanitize_filename`: the unsafe characters dropped, `v.` shortened to `v`, whitespace stripped. */
  function SanitizedName(name: string): string {
    Strip(Replace(RemoveChars(name, UnsafeChars), "v.", "v"))
  }

  /** The loop of `_sanitize_filename` over the unsafe characters. */
  method SanitizeFilename(name: string) returns (r: string)
    ensures r == SanitizedName(name)
  {
    var result := name;
    var i := 0;
    while i < |UnsafeChars|
      invariant 0 <= i <= |UnsafeChars|
      invariant RemoveChars(result, UnsafeChars[i..]) == RemoveChars(name, UnsafeChars)
    {
      assert UnsafeChars[i..][1..] == UnsafeChars[i + 1..];
      result := Replace(result, [UnsafeChars[i]], "");
      i := i + 1;
    }
    r := Strip(Replace(result, "v.", "v"));
  }

  /** Characters removed first are not brought back by the `v.` rewrite or the strip. */
  lemma RemovedStaysRemoved(name: string, cs: string)
    requires 'v' !in cs
    ensures forall c :: c in cs ==> c !in Strip(Replace(RemoveChars(name, cs), "v.", "v"))
  {
    var t := RemoveChars(name, cs);
    var u := Replace(t, "v.", "v");
    RemoveCharsSpec(name, cs);
    ReplaceSubset(t, "v.", "v");
    StripSubset(u);
  }

  /** A sanitised name holds no unsafe character and no surrounding whitespace. */
  lemma SanitizedNameSafe(name: string)
    ensures forall c :: c in UnsafeChars ==> c !in SanitizedName(name)
    ensures SanitizedName(name) == Strip(SanitizedName(name))
  {
    assert 'v' !in UnsafeChars;
    RemovedStaysRemoved(name, UnsafeChars);
    StripTwice(Replace(RemoveChars(name, UnsafeChars), "v.", "v"));
  }

  /** A name that is already safe, has no `v.` and no surrounding whitespace is kept as it is. */
  lemma SanitizedNameKeeps(name: string)
    requires forall c :: c in UnsafeChars ==> c !in name
    requires !Contains(name, "v.")
    requires name == [] || (!IsSpace(name[0]) && !IsSpace(name[|name| - 1]))
    ensures SanitizedName(name) == name
  {
    RemoveCharsAbsent(name, UnsafeChars);
    StripOfTrimmed(name);
  }

  /** `reporter.replace(".", "").replace(" ", "")` */
  function CleanReporter(reporter: string): string {
    Replace(Replace(reporter, ".", ""), " ", "")
  }

  lemma CleanReporterSpec(reporter: string)
    ensures '.' !in CleanReporter(reporter) && ' ' !in CleanReporter(reporter)
    ensures forall x :: x in CleanReporter(reporter) ==> x in reporter
  {
    var t := Replace(reporter, ".", "");
    ReplaceCharRemoves(reporter, '.', "");
    ReplaceCharRemoves(t, ' ', "");
  }

  // ---------------------------------------------------------------------------
  // Citations

  /** `_format_bluebook`: "Name, Vol Reporter Page", then "(Court Year)" with whichever of the two is given. */
  function FormatBluebook(caseName: string, volume: string, reporter: string, page: string, court: string, year: string): string {
    var citation := caseName + ", " + volume + " " + reporter + " " + page;
    if court != "" || year != "" then
      var parts := (if court != "" then [court] else []) + (if year != "" then [year] else []);
      citation + " (" + Join(parts, " ") + ")"
    else citation
  }

  /** `f"{volume} {reporter} {page}"` */
  function ShortCitationOf(volume: string, reporter: string, page: string): string {
    volume + " " + reporter + " " + page
  }

  /**
   * The full citation is the case name, a comma and the short citation,
   * followed by the parenthetical exactly when a court or a year is known,
   * which lists the court before the year, one space apart.
   */
  lemma FormatBluebookSpec(caseName: string, volume: string, reporter: string, page: string, court: string, year: string)
    ensures var base := caseName + ", " + ShortCitationOf(volume, reporter, page);
      var r := FormatBluebook(caseName, volume, reporter, page, court, year);
      && (court == "" && year == "" ==> r == base)
      && (court != "" && year == "" ==> r == base + " (" + court + ")")
      && (court == "" && year != "" ==> r == base + " (" + year + ")")
      && (court != "" && year != "" ==> r == base + " (" + court + " " + year + ")")
  {
    var base := caseName + ", " + ShortCitationOf(volume, reporter, page);
    assert caseName + ", " + volume + " " + reporter + " " + page == base;
    if court != "" && year != "" {
      assert Join([court, year], " ") == court + " " + year;
    }
  }

  // ---------------------------------------------------------------------------
  // Library cases

  /** A case-law entry in the library. */
  datatype LibraryCase = LibraryCase(
    id: string,
    caseName: string,
    volume: string,
    reporter: string,
    page: string,
    year: string,
    court: string,
    pdfFilename: string,
    txtFilename: string,
    bluebookCitation: string,
    dateAdded: string,
    categoryId: string,
    keywords: seq<string>,
    notes: string)

  /** "Name Vol Reporter Page", the stem both file names share. */
  function BaseFilename(caseName: string, volume: string, reporter: string, page: string): string {
    SanitizedName(caseName) + " " + volume + " " + CleanReporter(reporter) + " " + page
  }

  /**
   * `LibraryCase.create`: the file names and the citation derived from the
   * citation parts; `id` stands for the fresh uuid and `now` for the ISO
   * clock reading.  A missing keyword list is the empty list.
   */
  function CreateCase(id: string, now: string, caseName: string, volume: string, reporter: string, page: string,
                      year: string, court: string, categoryId: string, keywords: seq<string>, notes: string): LibraryCase
  {
    var base := BaseFilename(caseName, volume, reporter, page);
    LibraryCase(id, caseName, volume, reporter, page, year, court, base + ".pdf", base + ".txt",
      FormatBluebook(caseName, volume, reporter, page, court, year), now, categoryId, keywords, notes)
  }

  /** `short_citation` */
  function ShortCitation(c: LibraryCase): string {
    ShortCitationOf(c.volume, c.reporter, c.page)
  }

  /**
   * A created case keeps its citation parts, its two files are the
   * sanitised stem with ".pdf" and ".txt" and differ only in the extension,
   * and the stored citation is the formatted citation of its own fields,
   * which begins with the name and the short citation (FormatBluebookSpec
   * gives the parenthetical).
   */
  lemma CreateCaseSpec(id: string, now: string, caseName: string, volume: string, reporter: string, page: string,
                       year: string, court: string, categoryId: string, keywords: seq<string>, notes: string)
    ensures var c := CreateCase(id, now, caseName, volume, reporter, page, year, court, categoryId, keywords, notes);
      && c.caseName == caseName && c.volume == volume && c.reporter == reporter && c.page == page
      && c.year == year && c.court == court && c.id == id && c.dateAdded == now
      && |c.pdfFilename| == |c.txtFilename| >= 4
      && c.pdfFilename[..|c.pdfFilename| - 4] == c.txtFilename[..|c.txtFilename| - 4]
      && c.pdfFilename[|c.pdfFilename| - 4..] == ".pdf" && c.txtFilename[|c.txtFilename| - 4..] == ".txt"
      && c.categoryId == categoryId && c.keywords == keywords && c.notes == notes
      && c.pdfFilename == BaseFilename(caseName, volume, reporter, page) + ".pdf"
      && c.txtFilename == BaseFilename(caseName, volume, reporter, page) + ".txt"
      && c.bluebookCitation == FormatBluebook(caseName, volume, reporter, page, court, year)
      && StartsWith(c.bluebookCitation, caseName + ", " + ShortCitation(c))
  {
    var c := CreateCase(id, now, caseName, volume, reporter, page, year, court, categoryId, keywords, notes);
    var base := BaseFilename(caseName, volume, reporter, page);
    WithExtension(base, ".pdf");
    WithExtension(base, ".txt");
    CitationPrefix(caseName, volume, reporter, page, court, year);
  }

  lemma WithExtension(base: string, ext: string)
    requires |ext| == 4
    ensures (base + ext)[..|base + ext| - 4] == base && (base + ext)[|base + ext| - 4..] == ext
  {
  }

  lemma CitationPrefix(caseName: string, volume: string, reporter: string, page: string, court: string, year: string)
    ensures StartsWith(FormatBluebook(caseName, volume, reporter, page, court, year), caseName + ", " + ShortCitationOf(volume, reporter, page))
  {
    var pre := caseName + ", " + ShortCitationOf(volume, reporter, page);
    assert caseName + ", " + volume + " " + reporter + " " + page == pre;
    var r := FormatBluebook(caseName, volume, reporter, page, court, year);
    assert r[..|pre|] == pre;
  }

  function CaseToDict(c: LibraryCase): (j: Json)
    ensures j.JObj? && "id" in j.o && j.o["id"] == JStr(c.id)
  {
    JObj(map[
      "id" := JStr(c.id),
      "case_name" := JStr(c.caseName),
      "volume" := JStr(c.volume),
      "reporter" := JStr(c.reporter),
      "page" := JStr(c.page),
      "year" := JStr(c.year),
      "court" := JStr(c.court),
      "pdf_filename" := JStr(c.pdfFilename),
      "txt_filename" := JStr(c.txtFilename),
      "bluebook_citation" := JStr(c.bluebookCitation),
      "date_added" := JStr(c.dateAdded),
      "category_id" := JStr(c.categoryId),
      "keywords" := EncodeStrs(c.keywords),
      "notes" := JStr(c.notes)])
  }

  /**
   * `LibraryCase.from_dict`: year, court, category, keywords and notes may be
   * missing (empty by default); every other field is required.
   */
  function CaseFromDict(j: Json): (r: Option<LibraryCase>)
    ensures r.Some? ==> j.JObj? && "id" in j.o && "case_name" in j.o && "pdf_filename" in j.o
    ensures r.Some? && "year" !in j.o ==> r.value.year == ""
    ensures r.Some? && "keywords" !in j.o ==> r.value.keywords == []
  {
    if !j.JObj? then None
    else
      var o := j.o;
      var id, name, vol, rep, page := ReqStr(o, "id"), ReqStr(o, "case_name"), ReqStr(o, "volume"), ReqStr(o, "reporter"), ReqStr(o, "page");
      var year, court := OptStr(o, "year", ""), OptStr(o, "court", "");
      var pdf, txt, cite, added := ReqStr(o, "pdf_filename"), ReqStr(o, "txt_filename"), ReqStr(o, "bluebook_citation"), ReqStr(o, "date_added");
      var cat, kws, notes := OptStr(o, "category_id", ""), OptStrs(o, "keywords"), OptStr(o, "notes", "");
      if id.Some? && name.Some? && vol.Some? && rep.Some? && page.Some? && year.Some? && court.Some?
        && pdf.Some? && txt.Some? && cite.Some? && added.Some? && cat.Some? && kws.Some? && notes.Some? then
        Some(LibraryCase(id.value, name.value, vol.value, rep.value, page.value, year.value, court.value,
          pdf.value, txt.value, cite.value, added.value, cat.value, kws.value, notes.value))
      else None
  }

  lemma CaseRoundTrip(c: LibraryCase)
    ensures CaseFromDict(CaseToDict(c)) == Some(c)
  {
    var o := CaseToDict(c).o;
    DecodeEncodeStrs(c.keywords);
    assert ReqStr(o, "id") == Some(c.id);
    assert ReqStr(o, "case_name") == Some(c.caseName);
    assert ReqStr(o, "volume") == Some(c.volume);
    assert ReqStr(o, "reporter") == Some(c.reporter);
    assert ReqStr(o, "page") == Some(c.page);
    assert OptStr(o, "year", "") == Some(c.year);
    assert OptStr(o, "court", "") == Some(c.court);
    assert ReqStr(o, "pdf_filename") == Some(c.pdfFilename);
    assert ReqStr(o, "txt_filename") == Some(c.txtFilename);
    assert ReqStr(o, "bluebook_citation") == Some(c.bluebookCitation);
    assert ReqStr(o, "date_added") == Some(c.dateAdded);
    assert OptStr(o, "category_id", "") == Some(c.categoryId);
    assert OptStrs(o, "keywords") == Some(c.keywords);
    assert OptStr(o, "notes", "") == Some(c.notes);
  }

  // ---------------------------------------------------------------------------
  // Batch import

  /** What a batch import did with each file: imported, skipped as duplicate, lacking a citation, or failed. */
  datatype BatchImportResult = BatchImportResult(
    successful: seq<LibraryCase>,
    duplicates: seq<string>,
    needsInfo: seq<string>,
    errors: seq<(string, string)>)

  function TotalProcessed(b: BatchImportResult): nat {
    |b.successful| + |b.duplicates| + |b.needsInfo| + |b.errors|
  }

  /** The parts of `summary`, for the non-empty lists only, in a fixed order. */
  function SummaryParts(b: BatchImportResult): seq<string> {
    (if |b.successful| > 0 then [NatToString(|b.successful|) + " imported"] else [])
    + (if |b.duplicates| > 0 then [NatToString(|b.duplicates|) + " duplicates skipped"] else [])
    + (if |b.needsInfo| > 0 then [NatToString(|b.needsInfo|) + " need citation info"] else [])
    + (if |b.errors| > 0 then [NatToString(|b.errors|) + " errors"] else [])
  }

  /** `summary`: the parts joined by ", ", or a fixed message when nothing was processed. */
  function Summary(b: BatchImportResult): string {
    var parts := SummaryParts(b);
    if parts == [] then "No files processed" else Join(parts, ", ")
  }

  /** The summary says "No files processed" exactly when no file was processed, and otherwise begins with a count. */
  lemma SummarySpec(b: BatchImportResult)
    ensures Summary(b) == "No files processed" <==> TotalProcessed(b) == 0
    ensures TotalProcessed(b) > 0 ==> |Summary(b)| > 0 && IsDigitChar(Summary(b)[0])
  {
    var parts := SummaryParts(b);
    if parts != [] {
      JoinHead(parts, ", ");
      var n := if |b.successful| > 0 then |b.successful| else if |b.duplicates| > 0 then |b.duplicates|
        else if |b.needsInfo| > 0 then |b.needsInfo| else |b.errors|;
      var first := NatToString(n);
      assert IsDigits(first) && |first| > 0;
      assert StartsWith(parts[0], first);
      assert Summary(b)[0] == parts[0][0] == first[0];
      assert !IsDigitChar("No files processed"[0]);
    }
  }
}
