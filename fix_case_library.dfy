/**
 * The batch fixer of case-library entries: title-casing of case names,
 * parsing of underscore-separated citations, the Bluebook citation and the
 * repair of one index entry.  The pattern-based reporter normaliser and
 * case-name cleaner are parameters.
 */
module FixCaseLibrary {
  import opened Wrappers
  import opened Text
  import opened CitationText

  // ---------------------------------------------------------------------------
  // Title case

  const LowercaseWords: set<string> := {"v", "v.", "of", "the", "in", "at", "by", "for", "on", "and", "or", "a", "an", "to", "ex", "re"}
  const UppercaseAbbrevs: set<string> := {"U.S.", "US", "USA", "FBI", "CIA", "IRS", "DOJ", "SEC", "FTC",
    "LLC", "LLP", "INC", "CORP", "CO", "MUT", "AUTO", "INS", "ELEC"}

  /** `word.rstrip('.,')` */
  function Clean(word: string): string {
    RStripChars(word, {'.', ','})
  }

  /** The word is one of the spellings of "U.S." once trailing '.' and ',' are cut. */
  predicate IsUS(word: string) {
    Upper(Clean(word)) in {"U.S.", "US", "U.S"}
  }

  /** The word, upper-cased and with trailing '.' and ',' cut, is a listed abbreviation. */
  predicate IsAbbrevWord(word: string) {
    RStripChars(Upper(word), {'.', ','}) in UppercaseAbbrevs
  }

  /** One word of `title_case_name` at position `i`. */
  function TitleWord(i: nat, word: string): string {
    if IsUS(word) then "U.S."
    else if IsAbbrevWord(word) then (if |Clean(word)| <= 4 then Upper(word) else Capitalize(word))
    else if Lower(word) in LowercaseWords && i > 0 then Lower(word)
    else Capitalize(word)
  }

  lemma TitleWordCase(i: nat, word: string)
    ensures TitleWord(i, word) == "U.S." || SameLetters(TitleWord(i, word), word)
  {
    UpperSameLetters(word);
    LowerSameLetters(word);
    CapitalizeSameLetters(word);
  }

  /**
   * Each word comes out as "U.S." or differs from the word only in case:
   * "U.S." spellings become "U.S.", short listed abbreviations are upper-cased,
   * listed small words are lower-cased except at position 0, and the first
   * word is otherwise capitalised.
   */
  lemma TitleWordSpec(i: nat, word: string)
    ensures TitleWord(i, word) == "U.S." || SameLetters(TitleWord(i, word), word)
    ensures IsUS(word) ==> TitleWord(i, word) == "U.S."
    ensures !IsUS(word) && IsAbbrevWord(word) && |Clean(word)| <= 4 ==> TitleWord(i, word) == Upper(word)
    ensures !IsUS(word) && !IsAbbrevWord(word) && i > 0 && Lower(word) in LowercaseWords ==> TitleWord(i, word) == Lower(word)
    ensures !IsUS(word) && !IsAbbrevWord(word) && i == 0 ==> TitleWord(i, word) == Capitalize(word)
  {
    TitleWordCase(i, word);
  }

  /** `title_case_name`: the words title-cased by position and joined by single spaces; "" stays "". */
  function TitleCaseName(name: string): string {
    if name == [] then name else Join(MapIndexed(TitleWord, SplitWs(name)), " ")
  }

  lemma TitleWordIsWord(i: nat, word: string)
    requires IsWord(word)
    ensures IsWord(TitleWord(i, word))
  {
    TitleWordCase(i, word);
    var t := TitleWord(i, word);
    if t != "U.S." {
      SameLettersLength(t, word);
      forall j | 0 <= j < |t|
        ensures !IsSpace(t[j])
      {
        assert Lower(t)[j] == Lower(word)[j];
      }
    }
  }

  /** The words of the title-cased name are the words of the name, each title-cased in its place. */
  lemma TitleCaseNameSpec(name: string)
    ensures SplitWs(TitleCaseName(name)) == MapIndexed(TitleWord, SplitWs(name))
    ensures |SplitWs(TitleCaseName(name))| == |SplitWs(name)|
  {
    var ws := SplitWs(name);
    if name != [] {
      var ts := MapIndexed(TitleWord, ws);
      SplitWsWords(name);
      MapIndexedSpec(TitleWord, ws);
      forall k | 0 <= k < |ts|
        ensures IsWord(ts[k])
      {
        TitleWordIsWord(k, ws[k]);
      }
      SplitWsJoin(ts);
    } else {
      MapIndexedSpec(TitleWord, ws);
    }
  }

  // ---------------------------------------------------------------------------
  // Underscore citations

  /** The components `parse_underscore_citation` returns. */
  datatype Parsed = Parsed(caseName: string, volume: string, reporter: string, page: string, year: string, court: string)

  predicate IsVolume(p: string) {
    IsDigits(p) && |p| <= 4
  }

  /** The first index `i >= from` whose part looks like a volume number. */
  function FindVolume(parts: seq<string>, from: nat): (r: Option<nat>)
    ensures r.Some? ==> from <= r.value < |parts| && IsVolume(parts[r.value])
    ensures r.Some? ==> forall j :: from <= j < r.value ==> !IsVolume(parts[j])
    ensures r.None? ==> forall j :: from <= j < |parts| ==> !IsVolume(parts[j])
    decreases |parts| - from
  {
    if from >= |parts| then None
    else if IsVolume(parts[from]) then Some(from)
    else FindVolume(parts, from + 1)
  }

  /** The index of the first all-digit part after the volume, if any. */
  function FirstDigitsFrom(rs: seq<string>, from: nat): (r: Option<nat>)
    ensures r.Some? ==> from <= r.value < |rs| && IsDigits(rs[r.value])
    ensures r.Some? ==> forall j :: from <= j < r.value ==> !IsDigits(rs[j])
    ensures r.None? ==> forall j :: from <= j < |rs| ==> !IsDigits(rs[j])
    decreases |rs| - from
  {
    if from >= |rs| then None
    else if IsDigits(rs[from]) then Some(from)
    else FirstDigitsFrom(rs, from + 1)
  }

  /**
   * The year and court the loop over the trailing parts leaves: the last
   * four-digit part is the year, the last part that is not all digits the
   * court, and other numbers are skipped.
   */
  function ScanRest(rest: seq<string>): (string, string) {
    if rest == [] then ("", "")
    else
      var (y, c) := ScanRest(rest[..|rest| - 1]);
      var part := rest[|rest| - 1];
      if IsDigits(part) && |part| == 4 then (part, c)
      else if !IsDigits(part) then (y, part)
      else (y, c)
  }

  /** `for part in rest: ...` */
  method ScanRestLoop(rest: seq<string>) returns (year: string, court: string)
    ensures (year, court) == ScanRest(rest)
  {
    year, court := "", "";
    var i := 0;
    while i < |rest|
      invariant 0 <= i <= |rest|
      invariant (year, court) == ScanRest(rest[..i])
    {
      assert rest[..i + 1][..i] == rest[..i];
      var part := rest[i];
      if IsDigits(part) && |part| == 4 {
        year := part;
      } else if !IsDigits(part) {
        // `part.replace('_', ' ')`: a part of a split on '_' holds no '_'
        court := part;
      }
      i := i + 1;
    }
    assert rest[..i] == rest;
  }

  predicate NotDigits(p: string) {
    !IsDigits(p)
  }

  /** The year is the last four-digit part of `rest`, or "" when there is none. */
  lemma {:induction false} ScanRestYear(rest: seq<string>)
    ensures ScanRest(rest).0 == match LastIndex(rest, IsYear) case Some(k) => rest[k] case None => ""
  {
    if rest != [] {
      var init := rest[..|rest| - 1];
      ScanRestYear(init);
      if !IsYear(rest[|rest| - 1]) {
        assert LastIndex(rest, IsYear) == LastIndex(init, IsYear);
      }
    }
  }

  /** The court is the last part that is not all digits, or "" when there is none. */
  lemma {:induction false} ScanRestCourt(rest: seq<string>)
    ensures ScanRest(rest).1 == match LastIndex(rest, NotDigits) case Some(k) => rest[k] case None => ""
  {
    if rest != [] {
      var init := rest[..|rest| - 1];
      ScanRestCourt(init);
      if !NotDigits(rest[|rest| - 1]) {
        assert LastIndex(rest, NotDigits) == LastIndex(init, NotDigits);
      }
    }
  }

  predicate IsV(p: string) {
    Lower(p) == "v"
  }

  /**
   * The volume, reporter, page, year and court of the parts from the
   * volume on (the case name is left empty).  `corrected` selects where the
   * page is looked for when no part after the volume is a number: as written
   * the page index stays 1, so the first reporter part is also taken as the
   * page; corrected, there is no page and nothing after it.
   */
  function ParseCitation(remaining: seq<string>, normalizeReporter: string -> string, corrected: bool): Option<Parsed> {
    if |remaining| < 3 || ReporterEnd(remaining) == 1 then None
    else
      var rest := RestOf(remaining, corrected);
      Some(Parsed("", remaining[0], ReporterOf(remaining, normalizeReporter), PageOf(remaining, corrected), ScanRest(rest).0, ScanRest(rest).1))
  }

  /** Where the reporter parts end: at the first number after the volume, else at the end. */
  function ReporterEnd(remaining: seq<string>): (r: nat)
    requires |remaining| >= 1
    ensures 1 <= r <= |remaining|
  {
    match FirstDigitsFrom(remaining, 1)
    case Some(i) => i
    case None => |remaining|
  }

  /** The reporter parts joined by '.', doubled dots closed up, then normalised. */
  function ReporterOf(remaining: seq<string>, normalizeReporter: string -> string): string
    requires |remaining| >= 1
  {
    normalizeReporter(Replace(Join(remaining[1..ReporterEnd(remaining)], "."), "..", "."))
  }

  /** `page_idx`: the first number after the volume, else 1 as written and past the end corrected. */
  function PageIndex(remaining: seq<string>, corrected: bool): nat {
    match FirstDigitsFrom(remaining, 1)
    case Some(i) => i
    case None => if corrected then |remaining| else 1
  }

  function PageOf(remaining: seq<string>, corrected: bool): string {
    var i := PageIndex(remaining, corrected);
    if i < |remaining| then remaining[i] else ""
  }

  /** `remaining[page_idx + 1:]` */
  function RestOf(remaining: seq<string>, corrected: bool): seq<string> {
    var i := PageIndex(remaining, corrected);
    if i < |remaining| then remaining[i + 1..] else []
  }

  /** `parse_underscore_citation` after the split on '_'. */
  function ParseParts(parts: seq<string>, normalizeReporter: string -> string, corrected: bool): Option<Parsed> {
    match FirstIndex(parts, IsV)
    case None => None
    case Some(v) =>
      match FindVolume(parts, v + 2)
      case None => None
      case Some(cs) =>
        match ParseCitation(parts[cs..], normalizeReporter, corrected)
        case None => None
        case Some(p) =>
          Some(p.(caseName := TitleCaseName(Join(parts[..v], " ")) + " v. " + TitleCaseName(Join(parts[v + 1..cs], " "))))
  }

  function ParseCore(text: string, normalizeReporter: string -> string, corrected: bool): Option<Parsed> {
    if '_' !in text then None else ParseParts(Split(text, '_'), normalizeReporter, corrected)
  }

  /** `parse_underscore_citation` as written. */
  function ParseUnderscoreCitationAsWritten(text: string, normalizeReporter: string -> string): Option<Parsed> {
    ParseCore(text, normalizeReporter, false)
  }

  /** `parse_underscore_citation` with no page when no number follows the reporter. */
  function ParseUnderscoreCitation(text: string, normalizeReporter: string -> string): Option<Parsed> {
    ParseCore(text, normalizeReporter, true)
  }

  /**
   * With no '_', no part equal to "v" in any case, no volume-like part two
   * or more places after it, fewer than three parts from the volume on, or a
   * number right after the volume, nothing is parsed.
   */
  lemma ParseNoneCases(text: string, normalizeReporter: string -> string, corrected: bool)
    ensures '_' !in text ==> ParseCore(text, normalizeReporter, corrected).None?
    ensures (forall i :: 0 <= i < |Split(text, '_')| ==> !IsV(Split(text, '_')[i])) ==> ParseCore(text, normalizeReporter, corrected).None?
    ensures forall v :: 0 <= v < |Split(text, '_')| && IsV(Split(text, '_')[v]) && (forall i :: 0 <= i < v ==> !IsV(Split(text, '_')[i])) ==>
      ((forall j :: v + 2 <= j < |Split(text, '_')| ==> !IsVolume(Split(text, '_')[j])) ==> ParseCore(text, normalizeReporter, corrected).None?)
  {
  }

  lemma {:induction false} FindVolumeAt(parts: seq<string>, from: nat, cs: nat)
    requires from <= cs < |parts| && IsVolume(parts[cs])
    requires forall j :: from <= j < cs ==> !IsVolume(parts[j])
    ensures FindVolume(parts, from) == Some(cs)
    decreases cs - from
  {
    if from < cs {
      FindVolumeAt(parts, from + 1, cs);
    }
  }

  /**
   * Given the first part equal to "v" and the first volume-like part two or
   * more places after it, the parse fails exactly when fewer than three
   * parts start at the volume or the part after the volume is a number; on
   * success the case name is the two title-cased parties around " v. " and
   * the volume is that part.
   */
  lemma ParseSomeSpec(text: string, normalizeReporter: string -> string, corrected: bool, v: nat, cs: nat)
    requires '_' in text
    requires v < |Split(text, '_')| && IsV(Split(text, '_')[v]) && forall i :: 0 <= i < v ==> !IsV(Split(text, '_')[i])
    requires v + 2 <= cs < |Split(text, '_')| && IsVolume(Split(text, '_')[cs])
    requires forall j :: v + 2 <= j < cs ==> !IsVolume(Split(text, '_')[j])
    ensures var parts := Split(text, '_');
      ParseCore(text, normalizeReporter, corrected).None? <==> |parts| < cs + 3 || IsDigits(parts[cs + 1])
    ensures var parts := Split(text, '_');
      ParseCore(text, normalizeReporter, corrected).Some? ==>
        && ParseCore(text, normalizeReporter, corrected).value.volume == parts[cs]
        && ParseCore(text, normalizeReporter, corrected).value.caseName ==
             TitleCaseName(Join(parts[..v], " ")) + " v. " + TitleCaseName(Join(parts[v + 1..cs], " "))
  {
    var parts := Split(text, '_');
    FirstIndexAt(parts, IsV, v);
    FindVolumeAt(parts, v + 2, cs);
    if |parts| >= cs + 3 {
      var remaining := parts[cs..];
      assert remaining[1] == parts[cs + 1];
      assert ReporterEnd(remaining) == 1 <==> IsDigits(remaining[1]);
    }
  }

  /** Corrected, the page is the first number after the volume; with none there is no page, year or court. */
  lemma ParseCitationPage(remaining: seq<string>, normalizeReporter: string -> string)
    ensures var r := ParseCitation(remaining, normalizeReporter, true);
      r.Some? ==>
        && r.value.volume == remaining[0]
        && (FirstDigitsFrom(remaining, 1).Some? ==> r.value.page == remaining[FirstDigitsFrom(remaining, 1).value])
        && (FirstDigitsFrom(remaining, 1).None? ==> r.value.page == "" && r.value.year == "" && r.value.court == "")
  {
  }

  /** The year is the last four-digit part after the page, and the court the last part after it that is not all digits. */
  lemma ParseCitationRest(remaining: seq<string>, normalizeReporter: string -> string, corrected: bool)
    ensures var r := ParseCitation(remaining, normalizeReporter, corrected);
      var i := PageIndex(remaining, corrected);
      r.Some? && i < |remaining| ==>
        && r.value.page == remaining[i]
        && r.value.year == (match LastIndex(remaining[i + 1..], IsYear) case Some(k) => remaining[i + 1 + k] case None => "")
        && r.value.court == (match LastIndex(remaining[i + 1..], NotDigits) case Some(k) => remaining[i + 1 + k] case None => "")
  {
    var i := PageIndex(remaining, corrected);
    ParseCitationParts(remaining, normalizeReporter, corrected);
    if i < |remaining| {
      var rest := remaining[i + 1..];
      assert RestOf(remaining, corrected) == rest;
      ScanRestYear(rest);
      ScanRestCourt(rest);
      YearCourtShift(remaining, i + 1);
    }
  }

  /** A parse takes its page from `PageOf` and its year and court from the scan of `RestOf`. */
  lemma ParseCitationParts(remaining: seq<string>, normalizeReporter: string -> string, corrected: bool)
    ensures var r := ParseCitation(remaining, normalizeReporter, corrected);
      r.Some? ==>
        && r.value.page == PageOf(remaining, corrected)
        && r.value.year == ScanRest(RestOf(remaining, corrected)).0
        && r.value.court == ScanRest(RestOf(remaining, corrected)).1
  {
  }

  /** An index found in `s[j..]` names the part at `j` further on in `s`. */
  lemma YearCourtShift(s: seq<string>, j: nat)
    requires j <= |s|
    ensures (match LastIndex(s[j..], IsYear) case Some(k) => s[j..][k] case None => "")
      == (match LastIndex(s[j..], IsYear) case Some(k) => s[j + k] case None => "")
    ensures (match LastIndex(s[j..], NotDigits) case Some(k) => s[j..][k] case None => "")
      == (match LastIndex(s[j..], NotDigits) case Some(k) => s[j + k] case None => "")
  {
  }

  /** The page, year and court fields of a corrected parse, as the parse of the citation parts leaves them. */
  predicate FieldsWellFormed(q: Parsed) {
    && (q.page == "" || IsDigits(q.page))
    && (q.year == "" || IsYear(q.year))
    && (q.page == "" ==> q.year == "" && q.court == "")
    && '_' !in q.volume && '_' !in q.page && '_' !in q.year && '_' !in q.court
  }

  lemma ParseCitationFields(remaining: seq<string>, normalizeReporter: string -> string)
    requires forall j :: 0 <= j < |remaining| ==> '_' !in remaining[j]
    ensures var r := ParseCitation(remaining, normalizeReporter, true);
      r.Some? ==> r.value.volume == remaining[0] && FieldsWellFormed(r.value)
  {
    ParseCitationPage(remaining, normalizeReporter);
    ParseCitationRest(remaining, normalizeReporter, true);
  }

  /**
   * Corrected, every field of a parse is free of '_', the volume has at most
   * four digits, the page is a number or absent, the year four digits or
   * absent, and with no page there is neither year nor court.
   */
  lemma ParseUnderscoreCitationSpec(text: string, normalizeReporter: string -> string)
    ensures var r := ParseUnderscoreCitation(text, normalizeReporter);
      r.Some? ==>
        && IsVolume(r.value.volume)
        && (r.value.page == "" || IsDigits(r.value.page))
        && (r.value.year == "" || IsYear(r.value.year))
        && (r.value.page == "" ==> r.value.year == "" && r.value.court == "")
        && '_' !in r.value.volume && '_' !in r.value.page && '_' !in r.value.year && '_' !in r.value.court
  {
    var r := ParseUnderscoreCitation(text, normalizeReporter);
    if r.Some? {
      var parts := Split(text, '_');
      var v := FirstIndex(parts, IsV).value;
      var cs := FindVolume(parts, v + 2).value;
      var remaining := parts[cs..];
      assert forall j :: 0 <= j < |remaining| ==> '_' !in remaining[j];
      ParseCitationFields(remaining, normalizeReporter);
      var q := ParseCitation(remaining, normalizeReporter, true).value;
      assert r.value.volume == q.volume && r.value.page == q.page && r.value.year == q.year && r.value.court == q.court;
    }
  }

  lemma CitationPartsExample(normalizeReporter: string -> string)
    ensures var r := ParseCitation(["123", "F3d", "Cir"], normalizeReporter, false);
      r.Some? && r.value.page == "F3d" && r.value.court == "Cir"
    ensures var r := ParseCitation(["123", "F3d", "Cir"], normalizeReporter, true);
      r.Some? && r.value.page == "" && r.value.court == ""
  {
    var rs := ["123", "F3d", "Cir"];
    assert !IsDigitChar(rs[1][0]) && !IsDigitChar(rs[2][0]);
    assert FirstDigitsFrom(rs, 1).None?;
    assert rs[2..] == ["Cir"];
    assert ScanRest(["Cir"]) == ("", "Cir");
  }

  /** The parts of the example: "v" at 1, the volume at 3. */
  lemma PartsExample(normalizeReporter: string -> string, corrected: bool)
    ensures var parts := ["A", "v", "B", "123", "F3d", "Cir"];
      var r := ParseParts(parts, normalizeReporter, corrected);
      var q := ParseCitation(["123", "F3d", "Cir"], normalizeReporter, corrected);
      q.Some? ==> r.Some? && r.value.page == q.value.page && r.value.court == q.value.court
  {
    var parts := ["A", "v", "B", "123", "F3d", "Cir"];
    assert !IsV("A") && IsV("v");
    FirstIndexAt(parts, IsV, 1);
    assert IsVolume("123");
    FindVolumeAt(parts, 3, 3);
    assert parts[3..] == ["123", "F3d", "Cir"];
  }

  /**
   * As written, a citation whose reporter is followed by no number takes
   * the reporter's first part as its page and its later parts as the court;
   * corrected, it has no page and no court.
   */
  lemma PageFromReporter(normalizeReporter: string -> string)
    ensures var r := ParseUnderscoreCitationAsWritten(Join(["A", "v", "B", "123", "F3d", "Cir"], "_"), normalizeReporter);
      r.Some? && r.value.page == "F3d" && !IsDigits(r.value.page) && r.value.court == "Cir"
  {
    var parts := ["A", "v", "B", "123", "F3d", "Cir"];
    var text := Join(parts, "_");
    SplitJoin(parts, '_');
    assert text[1] == '_';
    CitationPartsExample(normalizeReporter);
    PartsExample(normalizeReporter, false);
    assert !IsDigits("F3d") by { assert !IsDigitChar("F3d"[0]); }
  }

  /** Corrected, the same citation has no page and no court. */
  lemma NoPageWithoutNumber(normalizeReporter: string -> string)
    ensures var r := ParseUnderscoreCitation(Join(["A", "v", "B", "123", "F3d", "Cir"], "_"), normalizeReporter);
      r.Some? && r.value.page == "" && r.value.court == ""
  {
    var parts := ["A", "v", "B", "123", "F3d", "Cir"];
    var text := Join(parts, "_");
    SplitJoin(parts, '_');
    assert text[1] == '_';
    CitationPartsExample(normalizeReporter);
    PartsExample(normalizeReporter, true);
  }

  // ---------------------------------------------------------------------------
  // Bluebook citation

  /**
   * `format_bluebook`: "" unless the case name, volume, reporter and page
   * are all given; otherwise "Name, Vol Reporter Page" with a parenthetical
   * of the court (unless it is the Supreme Court's "U.S." or "US") and the
   * year, left out when both are absent.
   */
  function FormatBluebook(caseName: string, volume: string, reporter: string, page: string, court: string, year: string): string {
    if caseName == "" || volume == "" || reporter == "" || page == "" then ""
    else
      var citation := caseName + ", " + volume + " " + reporter + " " + page;
      if court != "" || year != "" then
        var parenParts := (if NamedCourt(court) then [court] else []) + (if year != "" then [year] else []);
        if parenParts != [] then citation + " (" + Join(parenParts, " ") + ")" else citation
      else citation
  }

  /** The citation is empty exactly when a component is missing; the parenthetical names the year last and a named court first. */
  lemma FormatBluebookSpec(caseName: string, volume: string, reporter: string, page: string, court: string, year: string)
    ensures var r := FormatBluebook(caseName, volume, reporter, page, court, year);
      r == "" <==> caseName == "" || volume == "" || reporter == "" || page == ""
    ensures var r := FormatBluebook(caseName, volume, reporter, page, court, year);
      var base := caseName + ", " + volume + " " + reporter + " " + page;
      r != "" ==>
        && StartsWith(r, base)
        && (!NamedCourt(court) && year == "" ==> r == base)
        && (!NamedCourt(court) && year != "" ==> r == base + " (" + year + ")")
        && (NamedCourt(court) && year == "" ==> r == base + " (" + court + ")")
        && (NamedCourt(court) && year != "" ==> r == base + " (" + court + " " + year + ")")
  {
    var r := FormatBluebook(caseName, volume, reporter, page, court, year);
    if r != "" {
      var base := caseName + ", " + volume + " " + reporter + " " + page;
      assert r[..|base|] == base;
    } else {
      assert |caseName + ", " + volume + " " + reporter + " " + page| > 0;
    }
  }

  // ---------------------------------------------------------------------------
  // Fixing one entry

  /** `d.get(k)` on an entry whose values are strings. */
  function Get(m: map<string, string>, k: string): Option<string> {
    if k in m then Some(m[k]) else None
  }

  /** `d.get(k)` is truthy: present and non-empty. */
  predicate Given(m: map<string, string>, k: string) {
    k in m && m[k] != ""
  }

  /** `d.get(k, '')` */
  function GetStr(m: map<string, string>, k: string): string {
    if k in m then m[k] else ""
  }

  /** The keys `fix_case` may write. */
  const FixedKeys: set<string> := {"case_name", "volume", "reporter", "page", "year", "court", "bluebook_citation"}

  /** A missing volume, reporter or page, or an underscore in the name, calls for parsing. */
  predicate NeedsParsing(c: map<string, string>) {
    !Given(c, "volume") || !Given(c, "reporter") || !Given(c, "page") || '_' in GetStr(c, "case_name")
  }

  /** The citation when it holds an underscore, else the case name. */
  function ParseSource(c: map<string, string>): string {
    if '_' in GetStr(c, "bluebook_citation") then GetStr(c, "bluebook_citation") else GetStr(c, "case_name")
  }

  function Change(field: string, before: string, after: string): string {
    field + ": '" + before + "' -> '" + after + "'"
  }

  /** The entry keeps every key it had, gains only keys `fix_case` writes, and keeps every other value. */
  predicate FramedBy(c: map<string, string>, fixed: map<string, string>) {
    && (forall k :: k in c ==> k in fixed)
    && (forall k :: k in fixed && k !in c ==> k in FixedKeys)
    && (forall k :: k in c && k !in FixedKeys ==> fixed[k] == c[k])
  }

  lemma FramedUpdate(c: map<string, string>, m: map<string, string>, key: string, value: string)
    requires FramedBy(c, m) && key in FixedKeys
    ensures FramedBy(c, m[key := value])
  {
  }

  /** One parsed component written over the entry when it is given and differs from the original's. */
  method MergeField(c: map<string, string>, fixed: map<string, string>, key: string, value: string)
    returns (fixed': map<string, string>, change: seq<string>)
    requires key in FixedKeys && FramedBy(c, fixed)
    ensures FramedBy(c, fixed')
    ensures forall k :: k != key ==> Get(fixed', k) == Get(fixed, k)
    ensures value != "" && Get(fixed, key) == Get(c, key) ==> Get(fixed', key) == Some(value)
    ensures value == "" ==> fixed' == fixed
    ensures |change| <= 1 && (change == [] ==> fixed' == fixed)
  {
    fixed', change := fixed, [];
    if value != "" && Some(value) != Get(c, key) {
      fixed' := fixed[key := value];
      change := [Change(key, GetStr(c, key), value)];
      FramedUpdate(c, fixed, key, value);
    }
  }

  /** The parsed volume, reporter, page, year and court, each written over the entry when it differs from the original's. */
  method MergeComponents(c: map<string, string>, fixed: map<string, string>, p: Parsed) returns (fixed': map<string, string>, changes: seq<string>)
    requires FramedBy(c, fixed)
    requires forall k :: k != "case_name" ==> Get(fixed, k) == Get(c, k)
    ensures FramedBy(c, fixed')
    ensures Get(fixed', "case_name") == Get(fixed, "case_name")
    ensures Get(fixed', "bluebook_citation") == Get(fixed, "bluebook_citation")
    ensures changes == [] ==> fixed' == fixed
    ensures |changes| <= 5
    ensures p.reporter == "" ==> Get(fixed', "reporter") == Get(fixed, "reporter")
    ensures p.volume != "" ==> Get(fixed', "volume") == Some(p.volume)
    ensures p.reporter != "" ==> Get(fixed', "reporter") == Some(p.reporter)
    ensures p.page != "" ==> Get(fixed', "page") == Some(p.page)
    ensures p.year != "" ==> Get(fixed', "year") == Some(p.year)
    ensures p.court != "" ==> Get(fixed', "court") == Some(p.court)
  {
    var f1, ch1 := MergeField(c, fixed, "volume", p.volume);
    var f2, ch2 := MergeField(c, f1, "reporter", p.reporter);
    var f3, ch3 := MergeField(c, f2, "page", p.page);
    var f4, ch4 := MergeField(c, f3, "year", p.year);
    var f5, ch5 := MergeField(c, f4, "court", p.court);
    fixed', changes := f5, ch1 + ch2 + ch3 + ch4 + ch5;
  }

  /** `if parsed: ...`: each parsed component that differs from the original's is written over it. */
  method MergeParsed(c: map<string, string>, p: Parsed) returns (fixed: map<string, string>, changes: seq<string>)
    ensures FramedBy(c, fixed)
    ensures changes == [] ==> fixed == c
    ensures |changes| <= 6
    ensures GetStr(fixed, "case_name") == p.caseName
    ensures Get(fixed, "bluebook_citation") == Get(c, "bluebook_citation")
    ensures p.reporter == "" ==> Get(fixed, "reporter") == Get(c, "reporter")
    ensures p.volume != "" ==> Get(fixed, "volume") == Some(p.volume)
    ensures p.reporter != "" ==> Get(fixed, "reporter") == Some(p.reporter)
    ensures p.page != "" ==> Get(fixed, "page") == Some(p.page)
    ensures p.year != "" ==> Get(fixed, "year") == Some(p.year)
    ensures p.court != "" ==> Get(fixed, "court") == Some(p.court)
  {
    fixed, changes := c, [];
    var originalName := GetStr(c, "case_name");
    if p.caseName != originalName {
      FramedUpdate(c, c, "case_name", p.caseName);
      fixed := c["case_name" := p.caseName];
      changes := [Change("case_name", originalName, p.caseName)];
    }
    var ch;
    fixed, ch := MergeComponents(c, fixed, p);
    changes := changes + ch;
  }

  /** `clean_case_name` applied to the name, kept when it is non-empty and differs. */
  method CleanNameStep(c: map<string, string>, fixed: map<string, string>, cleanName: string -> string)
    returns (fixed': map<string, string>, change: seq<string>)
    requires FramedBy(c, fixed)
    ensures FramedBy(c, fixed')
    ensures forall k :: k != "case_name" ==> Get(fixed', k) == Get(fixed, k)
    ensures var cleaned := cleanName(GetStr(fixed, "case_name"));
      GetStr(fixed', "case_name") == if cleaned != "" then cleaned else GetStr(fixed, "case_name")
    ensures |change| <= 1 && (change == [] ==> fixed' == fixed)
  {
    fixed', change := fixed, [];
    var cleanedName := cleanName(GetStr(fixed, "case_name"));
    if cleanedName != "" && Some(cleanedName) != Get(fixed, "case_name") {
      change := [Change("case_name cleaned", GetStr(fixed, "case_name"), cleanedName)];
      FramedUpdate(c, fixed, "case_name", cleanedName);
      fixed' := fixed["case_name" := cleanedName];
    }
  }

  /** The given reporter replaced by its normal form when that differs. */
  method NormalizeReporterStep(c: map<string, string>, fixed: map<string, string>, normalizeReporter: string -> string)
    returns (fixed': map<string, string>, change: seq<string>)
    requires FramedBy(c, fixed)
    ensures FramedBy(c, fixed')
    ensures forall k :: k != "reporter" ==> Get(fixed', k) == Get(fixed, k)
    ensures Given(fixed, "reporter") ==> Get(fixed', "reporter") == Some(normalizeReporter(fixed["reporter"]))
    ensures !Given(fixed, "reporter") ==> fixed' == fixed
    ensures |change| <= 1 && (change == [] ==> fixed' == fixed)
  {
    fixed', change := fixed, [];
    if Given(fixed, "reporter") {
      var normalized := normalizeReporter(fixed["reporter"]);
      if normalized != fixed["reporter"] {
        change := [Change("reporter normalized", fixed["reporter"], normalized)];
        FramedUpdate(c, fixed, "reporter", normalized);
        fixed' := fixed["reporter" := normalized];
      }
    }
  }

  /** The citation the four components give, when all are present. */
  predicate Complete(m: map<string, string>) {
    Given(m, "case_name") && Given(m, "volume") && Given(m, "reporter") && Given(m, "page")
  }

  function CitationOf(m: map<string, string>): string
    requires Complete(m)
  {
    FormatBluebook(m["case_name"], m["volume"], m["reporter"], m["page"], GetStr(m, "court"), GetStr(m, "year"))
  }

  /** With all four components present, the citation is regenerated from them; nothing else changes. */
  method RegenerateStep(c: map<string, string>, fixed: map<string, string>) returns (fixed': map<string, string>, change: seq<string>)
    requires FramedBy(c, fixed)
    ensures FramedBy(c, fixed')
    ensures forall k :: k != "bluebook_citation" ==> Get(fixed', k) == Get(fixed, k)
    ensures Complete(fixed') ==> Get(fixed', "bluebook_citation") == Some(CitationOf(fixed'))
    ensures !Complete(fixed) ==> fixed' == fixed
    ensures |change| <= 1 && (change == [] ==> fixed' == fixed)
  {
    fixed', change := fixed, [];
    if Complete(fixed) {
      var newCitation := FormatBluebook(fixed["case_name"], fixed["volume"], fixed["reporter"], fixed["page"], GetStr(fixed, "court"), GetStr(fixed, "year"));
      FormatBluebookSpec(fixed["case_name"], fixed["volume"], fixed["reporter"], fixed["page"], GetStr(fixed, "court"), GetStr(fixed, "year"));
      if newCitation != "" && Some(newCitation) != Get(fixed, "bluebook_citation") {
        change := ["bluebook_citation regenerated"];
        FramedUpdate(c, fixed, "bluebook_citation", newCitation);
        fixed' := fixed["bluebook_citation" := newCitation];
        assert Get(fixed', "court") == Get(fixed, "court") && Get(fixed', "year") == Get(fixed, "year");
        assert CitationOf(fixed') == newCitation;
      }
    }
  }

  /** The case name once the parsed components are merged, before it is cleaned. */
  function MergedName(c: map<string, string>, normalizeReporter: string -> string): string {
    var p := ParseUnderscoreCitation(ParseSource(c), normalizeReporter);
    if NeedsParsing(c) && p.Some? then p.value.caseName else GetStr(c, "case_name")
  }

  /** The reporter once the parsed components are merged, before it is normalised. */
  function MergedReporter(c: map<string, string>, normalizeReporter: string -> string): Option<string> {
    var p := ParseUnderscoreCitation(ParseSource(c), normalizeReporter);
    if NeedsParsing(c) && p.Some? && p.value.reporter != "" then Some(p.value.reporter) else Get(c, "reporter")
  }

  /** `if needs_parsing: ... if parsed: ...`: the parsed name and components merged into the entry. */
  method MergeStep(c: map<string, string>, normalizeReporter: string -> string) returns (fixed: map<string, string>, changes: seq<string>)
    ensures FramedBy(c, fixed)
    ensures changes == [] ==> fixed == c
    ensures |changes| <= 6
    ensures var p := ParseUnderscoreCitation(ParseSource(c), normalizeReporter);
      NeedsParsing(c) && p.Some? ==>
        && (p.value.volume != "" ==> Get(fixed, "volume") == Some(p.value.volume))
        && (p.value.page != "" ==> Get(fixed, "page") == Some(p.value.page))
        && (p.value.year != "" ==> Get(fixed, "year") == Some(p.value.year))
        && (p.value.court != "" ==> Get(fixed, "court") == Some(p.value.court))
    ensures GetStr(fixed, "case_name") == MergedName(c, normalizeReporter)
    ensures Get(fixed, "reporter") == MergedReporter(c, normalizeReporter)
    ensures Get(fixed, "bluebook_citation") == Get(c, "bluebook_citation")
  {
    fixed, changes := c, [];
    var parsed := ParseUnderscoreCitation(ParseSource(c), normalizeReporter);
    if NeedsParsing(c) && parsed.Some? {
      fixed, changes := MergeParsed(c, parsed.value);
    }
  }

  /** The name cleaned, the reporter normalised and the citation regenerated, in that order. */
  method CleanupSteps(c: map<string, string>, merged: map<string, string>, cleanName: string -> string, normalizeReporter: string -> string)
    returns (fixed: map<string, string>, changes: seq<string>)
    requires FramedBy(c, merged)
    ensures FramedBy(c, fixed)
    ensures changes == [] ==> fixed == merged
    ensures |changes| <= 3
    ensures forall k :: k in {"volume", "page", "year", "court"} ==> Get(fixed, k) == Get(merged, k)
    ensures var n := GetStr(merged, "case_name");
      GetStr(fixed, "case_name") == if cleanName(n) != "" then cleanName(n) else n
    ensures var r := Get(merged, "reporter");
      Get(fixed, "reporter") == if r.Some? && r.value != "" then Some(normalizeReporter(r.value)) else r
    ensures Complete(fixed) ==> Get(fixed, "bluebook_citation") == Some(CitationOf(fixed))
    ensures !Complete(fixed) ==> Get(fixed, "bluebook_citation") == Get(merged, "bluebook_citation")
  {
    var f1, ch1 := CleanNameStep(c, merged, cleanName);
    var f2, ch2 := NormalizeReporterStep(c, f1, normalizeReporter);
    assert Get(f2, "case_name") == Get(f1, "case_name");
    assert GetStr(f2, "case_name") == GetStr(f1, "case_name");
    var f3, ch3 := RegenerateStep(c, f2);
    assert Get(f3, "reporter") == Get(f2, "reporter");
    assert Get(f3, "case_name") == Get(f2, "case_name");
    assert GetStr(f3, "case_name") == GetStr(f2, "case_name");
    assert Get(f3, "volume") == Get(f2, "volume") && Get(f3, "page") == Get(f2, "page");
    assert Complete(f3) == Complete(f2);
    fixed, changes := f3, ch1 + ch2 + ch3;
  }

  /**
   * `fix_case`: the entry with the parsed components written over it where
   * they differ, the case name cleaned, the reporter normalised and the
   * Bluebook citation regenerated, together with one message per change.
   * `cleanName` and `normalizeReporter` stand for the pattern-based
   * `clean_case_name` and `normalize_reporter`; the argument is a value, so
   * it is left as it was.
   */
  method FixCase(c: map<string, string>, cleanName: string -> string, normalizeReporter: string -> string)
    returns (fixed: map<string, string>, changes: seq<string>)
    ensures FramedBy(c, fixed)
    ensures changes == [] ==> fixed == c
    ensures |changes| <= 9
    ensures var p := ParseUnderscoreCitation(ParseSource(c), normalizeReporter);
      NeedsParsing(c) && p.Some? ==>
        && (p.value.volume != "" ==> Get(fixed, "volume") == Some(p.value.volume))
        && (p.value.page != "" ==> Get(fixed, "page") == Some(p.value.page))
        && (p.value.year != "" ==> Get(fixed, "year") == Some(p.value.year))
        && (p.value.court != "" ==> Get(fixed, "court") == Some(p.value.court))
    ensures var n := MergedName(c, normalizeReporter);
      GetStr(fixed, "case_name") == if cleanName(n) != "" then cleanName(n) else n
    ensures var r := MergedReporter(c, normalizeReporter);
      Get(fixed, "reporter") == if r.Some? && r.value != "" then Some(normalizeReporter(r.value)) else r
    ensures Complete(fixed) ==> Get(fixed, "bluebook_citation") == Some(CitationOf(fixed))
    ensures !Complete(fixed) ==> Get(fixed, "bluebook_citation") == Get(c, "bluebook_citation")
    ensures (forall x :: normalizeReporter(normalizeReporter(x)) == normalizeReporter(x)) && Given(fixed, "reporter") ==>
      normalizeReporter(fixed["reporter"]) == fixed["reporter"]
  {
    var merged, ch0 := MergeStep(c, normalizeReporter);
    var ch;
    fixed, ch := CleanupSteps(c, merged, cleanName, normalizeReporter);
    changes := ch0 + ch;
  }
}
