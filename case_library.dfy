/**
 * The case library's index held in memory: the list of cases and the list
 * of categories, with lookup, update, deletion, search and filtering,
 * keywords, batch import and the context around a citation.  The index file,
 * the copied PDFs and the extracted text are left to the caller: what an
 * operation would read from them is a parameter.
 */
module CaseLibraryStore {
  import opened Wrappers
  import opened Text
  import opened Sorting
  import opened LibraryCaseModel

  // ---------------------------------------------------------------------------
  // Lookup

  function IdIs(id: string): LibraryCase -> bool {
    (c: LibraryCase) => c.id == id
  }

  /** `get_by_id` over a list of cases: the first case with the id. */
  function FindCase(cases: seq<LibraryCase>, id: string): Option<LibraryCase> {
    match FirstIndex(cases, IdIs(id))
    case Some(i) => Some(cases[i])
    case None => None
  }

  /** The case found is the first with the id; none is found exactly when no case has it. */
  lemma FindCaseSpec(cases: seq<LibraryCase>, id: string)
    ensures FindCase(cases, id).None? <==> forall i :: 0 <= i < |cases| ==> cases[i].id != id
    ensures FindCase(cases, id).Some? ==>
      exists i :: 0 <= i < |cases| && cases[i] == FindCase(cases, id).value && cases[i].id == id
        && forall j :: 0 <= j < i ==> cases[j].id != id
  {
    var r := FirstIndex(cases, IdIs(id));
    if r.Some? {
      assert cases[r.value] == FindCase(cases, id).value;
    }
  }

  /** A case found by citation: same volume and page, reporters equal as written. */
  function SameCitation(volume: string, reporter: string, page: string): LibraryCase -> bool {
    (c: LibraryCase) => c.volume == volume && c.reporter == reporter && c.page == page
  }

  /** `is_duplicate` over a list of cases. */
  function HasCitation(cases: seq<LibraryCase>, volume: string, reporter: string, page: string): bool {
    FirstIndex(cases, SameCitation(volume, reporter, page)).Some?
  }

  /** A citation is a duplicate exactly when some case has the same volume, reporter and page. */
  lemma HasCitationSpec(cases: seq<LibraryCase>, volume: string, reporter: string, page: string)
    ensures HasCitation(cases, volume, reporter, page) <==>
      exists i :: 0 <= i < |cases| && cases[i].volume == volume && cases[i].reporter == reporter && cases[i].page == page
  {
    var p := SameCitation(volume, reporter, page);
    if HasCitation(cases, volume, reporter, page) {
      var i := FirstIndex(cases, p).value;
      assert p(cases[i]);
    } else {
      forall i | 0 <= i < |cases|
        ensures !(cases[i].volume == volume && cases[i].reporter == reporter && cases[i].page == page)
      {
        assert !p(cases[i]);
      }
    }
  }

  /** `get_category`: the first category with the id. */
  function FindCategory(categories: seq<Category>, id: string): (r: Option<Category>)
    ensures r.Some? ==> r.value in categories && r.value.id == id
    ensures r.None? <==> forall i :: 0 <= i < |categories| ==> categories[i].id != id
  {
    match FirstIndex(categories, (c: Category) => c.id == id)
    case Some(i) => Some(categories[i])
    case None => None
  }

  // ---------------------------------------------------------------------------
  // Updates

  /** The fields `update_case` accepts; any other key of the update dict is ignored. */
  datatype CaseUpdates = CaseUpdates(categoryId: Option<string>, keywords: Option<seq<string>>, notes: Option<string>)

  /** One case with the supplied fields set. */
  function Applied(c: LibraryCase, u: CaseUpdates): LibraryCase {
    c.(categoryId := u.categoryId.GetOr(c.categoryId), keywords := u.keywords.GetOr(c.keywords), notes := u.notes.GetOr(c.notes))
  }

  /** Only category, keywords and notes change, each exactly when it is supplied. */
  lemma AppliedSpec(c: LibraryCase, u: CaseUpdates)
    ensures var d := Applied(c, u);
      && d.id == c.id && d.caseName == c.caseName && d.volume == c.volume && d.reporter == c.reporter
      && d.page == c.page && d.year == c.year && d.court == c.court && d.pdfFilename == c.pdfFilename
      && d.txtFilename == c.txtFilename && d.bluebookCitation == c.bluebookCitation && d.dateAdded == c.dateAdded
      && (u.categoryId.Some? ==> d.categoryId == u.categoryId.value) && (u.categoryId.None? ==> d.categoryId == c.categoryId)
      && (u.keywords.Some? ==> d.keywords == u.keywords.value) && (u.keywords.None? ==> d.keywords == c.keywords)
      && (u.notes.Some? ==> d.notes == u.notes.value) && (u.notes.None? ==> d.notes == c.notes)
  {
  }

  /** `list.remove(x)`: the list without the first occurrence of `x`. */
  function RemoveFirst(xs: seq<string>, x: string): seq<string> {
    if xs == [] then []
    else if xs[0] == x then xs[1..]
    else [xs[0]] + RemoveFirst(xs[1..], x)
  }

  /** Removing at the first occurrence `k`: the slices either side of it. */
  lemma {:induction false} RemoveFirstAt(xs: seq<string>, x: string, k: nat)
    requires k < |xs| && xs[k] == x && x !in xs[..k]
    ensures RemoveFirst(xs, x) == xs[..k] + xs[k + 1..]
  {
    if k > 0 {
      assert xs[0] in xs[..k];
      assert xs[1..][..k - 1] == xs[1..k];
      assert xs[1..k] <= xs[..k][1..];
      RemoveFirstAt(xs[1..], x, k - 1);
      assert [xs[0]] + xs[1..][..k - 1] == xs[..k];
      assert xs[1..][k..] == xs[k + 1..];
    }
  }

  /** Removing a present keyword drops exactly its first occurrence and keeps the others in order. */
  lemma RemoveFirstSpec(xs: seq<string>, x: string)
    requires x in xs
    ensures exists k :: 0 <= k < |xs| && xs[k] == x && x !in xs[..k] && RemoveFirst(xs, x) == xs[..k] + xs[k + 1..]
    ensures |RemoveFirst(xs, x)| == |xs| - 1
    ensures multiset(RemoveFirst(xs, x)) == multiset(xs) - multiset{x}
  {
    var k := FirstIndex(xs, (y: string) => y == x).value;
    assert x !in xs[..k];
    RemoveFirstAt(xs, x, k);
    MultisetAround(xs, k);
  }

  lemma MultisetAround(xs: seq<string>, k: nat)
    requires k < |xs|
    ensures multiset(xs[..k] + xs[k + 1..]) == multiset(xs) - multiset{xs[k]}
  {
    assert xs == xs[..k] + [xs[k]] + xs[k + 1..];
    assert multiset(xs) == multiset(xs[..k]) + multiset{xs[k]} + multiset(xs[k + 1..]);
  }

  // ---------------------------------------------------------------------------
  // Search and filters

  /** `any(q in kw.lower() for kw in keywords)` */
  predicate KeywordMatches(keywords: seq<string>, q: string) {
    keywords != [] && (Contains(Lower(keywords[0]), q) || KeywordMatches(keywords[1..], q))
  }

  lemma {:induction false} KeywordMatchesSpec(keywords: seq<string>, q: string)
    ensures KeywordMatches(keywords, q) <==> exists k :: 0 <= k < |keywords| && Contains(Lower(keywords[k]), q)
  {
    if keywords != [] {
      KeywordMatchesSpec(keywords[1..], q);
      if KeywordMatches(keywords[1..], q) {
        var k :| 0 <= k < |keywords[1..]| && Contains(Lower(keywords[1..][k]), q);
        assert keywords[k + 1] == keywords[1..][k];
      }
      if exists k :: 0 <= k < |keywords| && Contains(Lower(keywords[k]), q) {
        var k :| 0 <= k < |keywords| && Contains(Lower(keywords[k]), q);
        if k > 0 {
          assert keywords[1..][k - 1] == keywords[k];
        }
      }
    }
  }

  /** The lower-case query `q` occurs in the name, the citation or a keyword, each lower-cased. */
  function MatchesQuery(q: string): LibraryCase -> bool {
    (c: LibraryCase) => Contains(Lower(c.caseName), q) || Contains(Lower(c.bluebookCitation), q) || KeywordMatches(c.keywords, q)
  }

  /**
   * `search`: the cases matching the query, in library order, each once; a
   * case is taken when the query occurs case-insensitively in its name, its
   * citation or one of its keywords.
   */
  lemma SearchSpec(cases: seq<LibraryCase>, query: string)
    ensures forall c :: c in Filter(MatchesQuery(Lower(query)), cases) <==>
      c in cases && (Contains(Lower(c.caseName), Lower(query)) || Contains(Lower(c.bluebookCitation), Lower(query))
        || exists k :: 0 <= k < |c.keywords| && Contains(Lower(c.keywords[k]), Lower(query)))
  {
    FilterSpec(MatchesQuery(Lower(query)), cases);
    forall c: LibraryCase
      ensures KeywordMatches(c.keywords, Lower(query)) <==> exists k :: 0 <= k < |c.keywords| && Contains(Lower(c.keywords[k]), Lower(query))
    {
      KeywordMatchesSpec(c.keywords, Lower(query));
    }
  }

  function InCategory(categoryId: string): LibraryCase -> bool {
    (c: LibraryCase) => c.categoryId == categoryId
  }

  /** `filter_by_category`: every case for "", else the cases of that category. */
  function FilterByCategory(cases: seq<LibraryCase>, categoryId: string): seq<LibraryCase> {
    if categoryId == "" then cases else Filter(InCategory(categoryId), cases)
  }

  lemma FilterByCategorySpec(cases: seq<LibraryCase>, categoryId: string)
    ensures categoryId == "" ==> FilterByCategory(cases, categoryId) == cases
    ensures categoryId != "" ==> forall c :: c in FilterByCategory(cases, categoryId) <==> c in cases && c.categoryId == categoryId
  {
    FilterSpec(InCategory(categoryId), cases);
  }

  function HasKeywordLike(keyword: string): LibraryCase -> bool {
    (c: LibraryCase) => KeywordMatches(c.keywords, Lower(keyword))
  }

  /** `filter_by_keyword`: the cases with a keyword holding the given one, ignoring case. */
  function FilterByKeyword(cases: seq<LibraryCase>, keyword: string): seq<LibraryCase> {
    Filter(HasKeywordLike(keyword), cases)
  }

  lemma FilterByKeywordSpec(cases: seq<LibraryCase>, keyword: string)
    ensures forall c :: c in FilterByKeyword(cases, keyword) <==>
      c in cases && exists k :: 0 <= k < |c.keywords| && Contains(Lower(c.keywords[k]), Lower(keyword))
  {
    FilterSpec(HasKeywordLike(keyword), cases);
    forall c: LibraryCase
      ensures KeywordMatches(c.keywords, Lower(keyword)) <==> exists k :: 0 <= k < |c.keywords| && Contains(Lower(c.keywords[k]), Lower(keyword))
    {
      KeywordMatchesSpec(c.keywords, Lower(keyword));
    }
  }

  // ---------------------------------------------------------------------------
  // Keywords of the whole library

  /** Every keyword of every case, in library order. */
  function AllKeywords(cases: seq<LibraryCase>): seq<string> {
    if cases == [] then [] else AllKeywords(cases[..|cases| - 1]) + cases[|cases| - 1].keywords
  }

  lemma {:induction false} AllKeywordsSpec(cases: seq<LibraryCase>)
    ensures forall k :: k in AllKeywords(cases) <==> exists i :: 0 <= i < |cases| && k in cases[i].keywords
  {
    if cases != [] {
      var init := cases[..|cases| - 1];
      AllKeywordsSpec(init);
      forall k
        ensures k in AllKeywords(cases) <==> exists i :: 0 <= i < |cases| && k in cases[i].keywords
      {
        if k in AllKeywords(init) {
          var i :| 0 <= i < |init| && k in init[i].keywords;
          assert cases[i] == init[i];
        }
        if exists i :: 0 <= i < |cases| && k in cases[i].keywords {
          var i :| 0 <= i < |cases| && k in cases[i].keywords;
          if i < |init| {
            assert init[i] == cases[i];
          }
        }
      }
    }
  }

  /** The first occurrence of each element, in order: a set built by a loop, listed. */
  function Dedup(xs: seq<string>): seq<string> {
    if xs == [] then [] else
      var d := Dedup(xs[..|xs| - 1]);
      if xs[|xs| - 1] in d then d else d + [xs[|xs| - 1]]
  }

  predicate Distinct(xs: seq<string>) {
    forall i, j :: 0 <= i < j < |xs| ==> xs[i] != xs[j]
  }

  lemma {:induction false} DedupSpec(xs: seq<string>)
    ensures forall x :: x in Dedup(xs) <==> x in xs
    ensures forall x :: x in Dedup(xs) ==> multiset(Dedup(xs))[x] == 1
  {
    if xs != [] {
      var init := xs[..|xs| - 1];
      DedupSpec(init);
      assert xs == init + [xs[|xs| - 1]];
    }
  }

  /** A list in which every element counts once has no repetition. */
  lemma OnceEachDistinct(xs: seq<string>)
    requires forall x :: x in xs ==> multiset(xs)[x] == 1
    ensures Distinct(xs)
  {
    forall i, j | 0 <= i < j < |xs|
      ensures xs[i] != xs[j]
    {
      assert xs == xs[..j] + xs[j..];
      assert xs[i] in xs[..j];
      assert multiset(xs)[xs[i]] == multiset(xs[..j])[xs[i]] + multiset(xs[j..])[xs[i]];
      assert xs[j] == xs[j..][0];
    }
  }

  /** `get_all_keywords`: the set of all keywords, sorted. */
  function SortedKeywords(cases: seq<LibraryCase>): seq<string> {
    Sort(Dedup(AllKeywords(cases)), StrLe())
  }

  /** The keywords come out in ascending order, each once, and are exactly the keywords some case has. */
  lemma SortedKeywordsSpec(cases: seq<LibraryCase>)
    ensures Sorted(SortedKeywords(cases), StrLe())
    ensures Distinct(SortedKeywords(cases))
    ensures forall k :: k in SortedKeywords(cases) <==> exists i :: 0 <= i < |cases| && k in cases[i].keywords
  {
    var d := Dedup(AllKeywords(cases));
    var r := SortedKeywords(cases);
    StrLeTotal();
    SortSpec(d, StrLe());
    DedupSpec(AllKeywords(cases));
    AllKeywordsSpec(cases);
    forall k
      ensures k in r <==> k in d
    {
      assert k in r <==> k in multiset(r);
      assert k in d <==> k in multiset(d);
    }
    OnceEachDistinct(r);
  }

  // ---------------------------------------------------------------------------
  // Batch import

  /**
   * What the import of one PDF finds: its name and stem (the name without
   * its extension), the case id it would get, its size, the text of its
   * first page, the citation read from its content, the message of the
   * exception copying or indexing it would raise, if any, and, when a file
   * of that name is already in the library, the first counter `k` for which
   * "stem_k.pdf" is free.
   */
  datatype ImportProbe = ImportProbe(
    name: string, stem: string, id: string, size: nat, firstPageText: string,
    parsed: Option<ParsedCitation>, failure: Option<string>, freeCounter: Option<nat>)

  datatype ParsedCitation = ParsedCitation(caseName: string, volume: string, reporter: string, page: string, year: string, court: string)

  /**
   * `add_case_from_filename`: the stem as name and placeholder citation,
   * no citation parts, the PDF under its own name, or under "stem_k" when
   * that name is taken.
   */
  function CaseFromFilename(p: ImportProbe, now: string, categoryId: string): LibraryCase {
    // `LibraryCase.create` with its generated file names and citation overridden
    var (pdf, txt) := match p.freeCounter
      case None => (p.name, p.stem + ".txt")
      case Some(k) => (p.stem + "_" + NatToString(k) + ".pdf", p.stem + "_" + NatToString(k) + ".txt");
    LibraryCase(p.id, p.stem, "", "", "", "", "", pdf, txt, p.stem, now, categoryId, [], "")
  }

  /**
   * The placeholder case keeps the stem as its name and citation and has no
   * citation parts; its text file is named after the stem, and after the
   * same counter as the PDF when the name was taken.
   */
  lemma CaseFromFilenameSpec(p: ImportProbe, now: string, categoryId: string)
    ensures var c := CaseFromFilename(p, now, categoryId);
      && c.id == p.id && c.caseName == p.stem && c.bluebookCitation == p.stem
      && c.volume == "" && c.reporter == "" && c.page == "" && c.year == "" && c.court == ""
      && c.keywords == [] && c.categoryId == categoryId
      && StartsWith(c.txtFilename, p.stem)
      && (p.freeCounter.None? ==> c.pdfFilename == p.name)
      && (p.freeCounter.Some? ==> |c.pdfFilename| == |c.txtFilename| && c.pdfFilename[..|c.pdfFilename| - 4] == c.txtFilename[..|c.txtFilename| - 4])
  {
    var c := CaseFromFilename(p, now, categoryId);
    assert c.txtFilename[..|p.stem|] == p.stem;
    if p.freeCounter.Some? {
      var free := p.stem + "_" + NatToString(p.freeCounter.value);
      WithExtension(free, ".pdf");
      WithExtension(free, ".txt");
      assert c.pdfFilename == free + ".pdf" && c.txtFilename == free + ".txt";
    }
  }

  /** What becomes of one file. */
  datatype Outcome = Errored(message: string) | Duplicate | Imported(c: LibraryCase)

  /** The checks of one file, in the order the import makes them. */
  function Classify(cases: seq<LibraryCase>, p: ImportProbe, now: string, categoryId: string): Outcome {
    if p.size == 0 then Errored("PDF file is empty (0 bytes)")
    else if |Strip(p.firstPageText)| < 50 then Errored("PDF has no extractable text")
    else if p.parsed.Some? && HasCitation(cases, p.parsed.value.volume, p.parsed.value.reporter, p.parsed.value.page) then Duplicate
    else if p.failure.Some? then Errored(p.failure.value)
    else match p.parsed
      case Some(q) => Imported(CreateCase(p.id, now, q.caseName, q.volume, q.reporter, q.page, q.year, q.court, categoryId, [], ""))
      case None => Imported(CaseFromFilename(p, now, categoryId))
  }

  /** The library and the tally after importing one more file. */
  function ImportOne(cases: seq<LibraryCase>, r: BatchImportResult, p: ImportProbe, now: string, categoryId: string): (seq<LibraryCase>, BatchImportResult) {
    match Classify(cases, p, now, categoryId)
    case Errored(m) => (cases, r.(errors := r.errors + [(p.name, m)]))
    case Duplicate => (cases, r.(duplicates := r.duplicates + [p.name]))
    case Imported(c) => (cases + [c], r.(successful := r.successful + [c]))
  }

  /** `batch_import` as a function of the library and the files, one file after the other. */
  function ImportAll(cases: seq<LibraryCase>, probes: seq<ImportProbe>, now: string, categoryId: string): (seq<LibraryCase>, BatchImportResult) {
    if probes == [] then (cases, BatchImportResult([], [], [], []))
    else
      var prev := ImportAll(cases, probes[..|probes| - 1], now, categoryId);
      ImportOne(prev.0, prev.1, probes[|probes| - 1], now, categoryId)
  }

  /** One file lands in exactly one list, and an imported case is the one appended to the library. */
  lemma ImportOneSpec(base: seq<LibraryCase>, cases: seq<LibraryCase>, r: BatchImportResult, p: ImportProbe, now: string, categoryId: string)
    requires cases == base + r.successful
    ensures var (after, r2) := ImportOne(cases, r, p, now, categoryId);
      && TotalProcessed(r2) == TotalProcessed(r) + 1
      && r2.needsInfo == r.needsInfo
      && after == base + r2.successful
  {
  }

  /**
   * Every file ends in exactly one of the lists, none in `needs_info`, and
   * the library grows by exactly the imported cases, in order.
   */
  lemma {:induction false} ImportAllSpec(cases: seq<LibraryCase>, probes: seq<ImportProbe>, now: string, categoryId: string)
    ensures var (after, r) := ImportAll(cases, probes, now, categoryId);
      && TotalProcessed(r) == |probes|
      && r.needsInfo == []
      && after == cases + r.successful
  {
    if probes != [] {
      ImportAllSpec(cases, probes[..|probes| - 1], now, categoryId);
      var prev := ImportAll(cases, probes[..|probes| - 1], now, categoryId);
      ImportOneSpec(cases, prev.0, prev.1, probes[|probes| - 1], now, categoryId);
    } else {
      assert cases + [] == cases;
    }
  }

  // ---------------------------------------------------------------------------
  // Citation context

  /** "..." where text was cut off, nothing otherwise. */
  function Dots(cut: bool): string {
    if cut then "..." else ""
  }

  /** The first character of the window: `max(0, s - n)`. */
  function WindowStart(s: nat, n: nat): nat {
    if s >= n then s - n else 0
  }

  /** One past the last character of the window: `min(len(text), e + n)`. */
  function WindowEnd(size: nat, e: nat, n: nat): nat {
    if e + n <= size then e + n else size
  }

  /** The window of `n` characters either side of the span `[s, e)`, marked "..." where text was cut off. */
  function ContextWindow(text: string, s: nat, e: nat, n: nat): string
    requires s <= e <= |text|
  {
    var start := WindowStart(s, n);
    var end := WindowEnd(|text|, e, n);
    Dots(start > 0) + text[start..end] + Dots(end < |text|)
  }

  /** A slice of the middle part occurs in the concatenation at its shifted position. */
  lemma OccursInMiddle(a: string, b: string, c: string, i: nat, j: nat)
    requires i <= j <= |b|
    ensures OccursAt(a + b + c, b[i..j], |a| + i)
  {
    var w := a + b + c;
    forall k | 0 <= k < j - i
      ensures w[|a| + i + k] == b[i..j][k]
    {
    }
    assert w[|a| + i..|a| + i + (j - i)] == b[i..j];
  }

  lemma SliceOfSlice(t: string, a: nat, b: nat, i: nat, j: nat)
    requires a <= i <= j <= b <= |t|
    ensures t[a..b][i - a..j - a] == t[i..j]
  {
    forall k | 0 <= k < j - i
      ensures t[a..b][i - a..j - a][k] == t[i..j][k]
    {
      assert t[a..b][i - a + k] == t[i + k];
    }
  }

  /** The window holds the span. */
  lemma ContextWindowHoldsSpan(text: string, s: nat, e: nat, n: nat)
    requires s <= e <= |text|
    ensures Contains(ContextWindow(text, s, e, n), text[s..e])
  {
    var start := WindowStart(s, n);
    var end := WindowEnd(|text|, e, n);
    SliceOfSlice(text, start, end, s, e);
    OccursInMiddle(Dots(start > 0), text[start..end], Dots(end < |text|), s - start, e - start);
    ContainsAt(ContextWindow(text, s, e, n), text[s..e]);
  }

  predicate EndsWithDots(s: string) {
    |s| >= 3 && s[|s| - 3..] == "..."
  }

  /**
   * The window begins with "..." when text before `s - n` was cut and with
   * the text itself otherwise; it ends with "..." when text after `e + n`
   * was cut and with the end of the text otherwise.
   */
  lemma ContextWindowMarks(text: string, s: nat, e: nat, n: nat)
    requires s <= e <= |text|
    ensures s > n ==> StartsWith(ContextWindow(text, s, e, n), "...")
    ensures s <= n ==> StartsWith(ContextWindow(text, s, e, n), text[..WindowEnd(|text|, e, n)])
    ensures e + n < |text| ==> EndsWithDots(ContextWindow(text, s, e, n))
    ensures e + n >= |text| ==> EndsWith(ContextWindow(text, s, e, n), text[WindowStart(s, n)..])
    ensures s <= n && e + n >= |text| ==> ContextWindow(text, s, e, n) == text
  {
    var start := WindowStart(s, n);
    var end := WindowEnd(|text|, e, n);
    var w := ContextWindow(text, s, e, n);
    var pre := Dots(start > 0);
    var suf := Dots(end < |text|);
    assert w == pre + text[start..end] + suf;
    if start > 0 {
      assert w[..3] == pre;
    } else {
      assert w[..end] == text[start..end];
    }
    if end < |text| {
      assert w == (pre + text[start..end]) + suf;
      assert w[|w| - 3..] == suf;
    } else {
      assert w[|w| - (end - start)..] == text[start..end];
    }
    if s <= n && e + n >= |text| {
      assert text[0..|text|] == text;
    }
  }

  predicate EndsWith(s: string, suffix: string) {
    |suffix| <= |s| && s[|s| - |suffix|..] == suffix
  }

  predicate ValidSpan(text: string, span: Option<(nat, nat)>) {
    span.Some? ==> span.value.0 <= span.value.1 <= |text|
  }

  /**
   * `find_citation_context`: none without the case or its text; when the
   * citation does not parse into parts, the window around its first literal
   * occurrence; otherwise the window around the pattern's match (`span`),
   * stripped.
   */
  function CitationContext(text: string, citation: string, n: nat, parsesIntoParts: bool, span: Option<(nat, nat)>): Option<string>
    requires ValidSpan(text, span)
  {
    if !parsesIntoParts then
      var idx := Find(text, citation);
      if idx >= 0 then Some(Strip(ContextWindow(text, idx, idx + |citation|, n))) else None
    else match span
      case Some((s, e)) => Some(Strip(ContextWindow(text, s, e, n)))
      case None => None
  }

  /** An unparsed citation has a context exactly when it occurs, and the context surrounds its first occurrence. */
  lemma CitationContextSpec(text: string, citation: string, n: nat, parsesIntoParts: bool, span: Option<(nat, nat)>)
    requires ValidSpan(text, span)
    ensures !parsesIntoParts ==> (CitationContext(text, citation, n, parsesIntoParts, span).None? <==> !Contains(text, citation))
    ensures !parsesIntoParts && Contains(text, citation) ==>
      var idx := Find(text, citation);
      && CitationContext(text, citation, n, parsesIntoParts, span) == Some(Strip(ContextWindow(text, idx, idx + |citation|, n)))
      && Contains(ContextWindow(text, idx, idx + |citation|, n), citation)
    ensures parsesIntoParts ==> (CitationContext(text, citation, n, parsesIntoParts, span).None? <==> span.None?)
  {
    if !parsesIntoParts && Contains(text, citation) {
      var idx := Find(text, citation);
      assert OccursAt(text, citation, idx);
      var w := ContextWindow(text, idx, idx + |citation|, n);
      ContextWindowHoldsSpan(text, idx, idx + |citation|, n);
      assert text[idx..idx + |citation|] == citation;
      assert Contains(w, citation);
    }
  }

  // ---------------------------------------------------------------------------
  // The library

  /** The in-memory index of the case library. */
  class CaseLibrary {
    var cases: seq<LibraryCase>
    var categories: seq<Category>

    /** The library as loaded from its index (or the default categories and no cases). */
    constructor (cases: seq<LibraryCase>, categories: seq<Category>)
      ensures this.cases == cases && this.categories == categories
    {
      this.cases := cases;
      this.categories := categories;
    }

    /** `add_case`: the created case is appended; copying the PDF and saving its text are left out. */
    method AddCase(id: string, now: string, caseName: string, volume: string, reporter: string, page: string,
                   year: string, court: string, categoryId: string, keywords: Option<seq<string>>) returns (c: LibraryCase)
      modifies this
      ensures c == CreateCase(id, now, caseName, volume, reporter, page, year, court, categoryId, keywords.GetOr([]), "")
      ensures cases == old(cases) + [c] && categories == old(categories)
    {
      c := CreateCase(id, now, caseName, volume, reporter, page, year, court, categoryId, keywords.GetOr([]), "");
      cases := cases + [c];
    }

    function GetById(id: string): Option<LibraryCase>
      reads this
    {
      FindCase(cases, id)
    }

    /**
     * `find_citation_context` on the library: none for an unknown case or
     * one whose text file cannot be read (`readText`), else the context in
     * that text; `span` is where the citation's pattern matches a text.
     */
    function FindCitationContext(id: string, readText: string -> Option<string>, citation: string, n: nat,
                                 parsesIntoParts: bool, span: string -> Option<(nat, nat)>): (r: Option<string>)
      reads this
      requires forall t :: ValidSpan(t, span(t))
      ensures GetById(id).None? ==> r.None?
      ensures r.Some? ==> GetById(id).Some? && readText(GetById(id).value.txtFilename).Some?
      ensures GetById(id).Some? && readText(GetById(id).value.txtFilename).Some? ==>
        r == CitationContext(readText(GetById(id).value.txtFilename).value, citation, n, parsesIntoParts,
                             span(readText(GetById(id).value.txtFilename).value))
    {
      match GetById(id)
      case None => None
      case Some(c) =>
        match readText(c.txtFilename)
        case None => None
        case Some(text) => CitationContext(text, citation, n, parsesIntoParts, span(text))
    }

    function GetCategory(id: string): Option<Category>
      reads this
    {
      FindCategory(categories, id)
    }

    /** The `for i, case in enumerate(self._cases)` search by id. */
    method IndexOf(id: string) returns (r: Option<nat>)
      ensures r == FirstIndex(cases, IdIs(id))
    {
      var i := 0;
      while i < |cases|
        invariant 0 <= i <= |cases|
        invariant forall j :: 0 <= j < i ==> cases[j].id != id
      {
        if cases[i].id == id {
          FirstIndexAt(cases, IdIs(id), i);
          return Some(i);
        }
        i := i + 1;
      }
      r := None;
    }

    /** `update_case`: the first case with the id takes the supplied fields; nothing changes when there is none. */
    method UpdateCase(id: string, updates: CaseUpdates) returns (r: Option<LibraryCase>)
      modifies this
      ensures categories == old(categories)
      ensures FirstIndex(old(cases), IdIs(id)).None? ==> r.None? && cases == old(cases)
      ensures FirstIndex(old(cases), IdIs(id)).Some? ==>
        var i := FirstIndex(old(cases), IdIs(id)).value;
        cases == old(cases)[i := Applied(old(cases)[i], updates)] && r == Some(cases[i])
    {
      var k := IndexOf(id);
      if k.Some? {
        var c := Applied(cases[k.value], updates);
        cases := cases[k.value := c];
        r := Some(c);
      } else {
        r := None;
      }
    }

    /** `delete`: the first case with the id is removed and true returned; false and no change otherwise. */
    method Delete(id: string) returns (deleted: bool)
      modifies this
      ensures categories == old(categories)
      ensures FirstIndex(old(cases), IdIs(id)).None? ==> !deleted && cases == old(cases)
      ensures FirstIndex(old(cases), IdIs(id)).Some? ==> deleted && cases == RemoveAt(old(cases), FirstIndex(old(cases), IdIs(id)).value)
    {
      var k := IndexOf(id);
      if k.Some? {
        cases := RemoveAt(cases, k.value);
        deleted := true;
      } else {
        deleted := false;
      }
    }

    /** `search`: the loop over the cases with its three `continue`s. */
    method Search(query: string) returns (results: seq<LibraryCase>)
      ensures results == Filter(MatchesQuery(Lower(query)), cases)
    {
      var q := Lower(query);
      results := [];
      var i := 0;
      while i < |cases|
        invariant 0 <= i <= |cases|
        invariant results == Filter(MatchesQuery(q), cases[..i])
      {
        assert cases[..i + 1][..i] == cases[..i];
        var c := cases[i];
        if Contains(Lower(c.caseName), q) {
          results := results + [c];
        } else if Contains(Lower(c.bluebookCitation), q) {
          results := results + [c];
        } else if KeywordMatches(c.keywords, q) {
          results := results + [c];
        }
        i := i + 1;
      }
      assert cases[..i] == cases;
    }

    /** `add_category` */
    method AddCategory(id: string, name: string, color: string) returns (cat: Category)
      modifies this
      ensures cat == Category(id, name, color)
      ensures categories == old(categories) + [cat] && cases == old(cases)
    {
      cat := Category(id, name, color);
      categories := categories + [cat];
    }

    /** `delete_category`: the first category with the id goes; cases keep their (now orphaned) category id. */
    method DeleteCategory(id: string) returns (deleted: bool)
      modifies this
      ensures cases == old(cases)
      ensures FirstIndex(old(categories), (c: Category) => c.id == id).None? ==> !deleted && categories == old(categories)
      ensures FirstIndex(old(categories), (c: Category) => c.id == id).Some? ==>
        deleted && categories == RemoveAt(old(categories), FirstIndex(old(categories), (c: Category) => c.id == id).value)
    {
      var p := (c: Category) => c.id == id;
      var i := 0;
      while i < |categories|
        invariant 0 <= i <= |categories|
        invariant forall j :: 0 <= j < i ==> categories[j].id != id
      {
        if categories[i].id == id {
          FirstIndexAt(categories, p, i);
          categories := RemoveAt(categories, i);
          return true;
        }
        i := i + 1;
      }
      deleted := false;
    }

    /** `add_keyword_to_case`: appended to the case with the id, when there is one and it lacks the keyword. */
    method AddKeywordToCase(id: string, keyword: string) returns (added: bool)
      modifies this
      ensures categories == old(categories)
      ensures var k := FirstIndex(old(cases), IdIs(id));
        if k.Some? && keyword !in old(cases)[k.value].keywords then
          added && cases == old(cases)[k.value := old(cases)[k.value].(keywords := old(cases)[k.value].keywords + [keyword])]
        else !added && cases == old(cases)
    {
      var k := IndexOf(id);
      if k.Some? && keyword !in cases[k.value].keywords {
        var c := cases[k.value];
        cases := cases[k.value := c.(keywords := c.keywords + [keyword])];
        added := true;
      } else {
        added := false;
      }
    }

    /** `remove_keyword_from_case`: one occurrence removed from the case with the id, when it has the keyword. */
    method RemoveKeywordFromCase(id: string, keyword: string) returns (removed: bool)
      modifies this
      ensures categories == old(categories)
      ensures var k := FirstIndex(old(cases), IdIs(id));
        if k.Some? && keyword in old(cases)[k.value].keywords then
          removed && cases == old(cases)[k.value := old(cases)[k.value].(keywords := RemoveFirst(old(cases)[k.value].keywords, keyword))]
        else !removed && cases == old(cases)
    {
      var k := IndexOf(id);
      if k.Some? && keyword in cases[k.value].keywords {
        var c := cases[k.value];
        cases := cases[k.value := c.(keywords := RemoveFirst(c.keywords, keyword))];
        removed := true;
      } else {
        removed := false;
      }
    }

    /** `batch_import`: each file tried in turn against the library as it grows. */
    method BatchImport(probes: seq<ImportProbe>, now: string, categoryId: string) returns (result: BatchImportResult)
      modifies this
      ensures (cases, result) == ImportAll(old(cases), probes, now, categoryId)
      ensures categories == old(categories)
    {
      result := BatchImportResult([], [], [], []);
      var i := 0;
      while i < |probes|
        invariant 0 <= i <= |probes|
        invariant (cases, result) == ImportAll(old(cases), probes[..i], now, categoryId)
        invariant categories == old(categories)
      {
        assert probes[..i + 1][..i] == probes[..i];
        var p := probes[i];
        match Classify(cases, p, now, categoryId) {
          case Errored(m) =>
            result := result.(errors := result.errors + [(p.name, m)]);
          case Duplicate =>
            result := result.(duplicates := result.duplicates + [p.name]);
          case Imported(c) =>
            cases := cases + [c];
            result := result.(successful := result.successful + [c]);
        }
        i := i + 1;
      }
      assert probes[..i] == probes;
    }
  }
}
