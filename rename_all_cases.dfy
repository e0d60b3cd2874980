/**
 * The renamer for every case-library PDF: party title case, the Bluebook
 * file name (with a citation-only form when the case name is missing), the
 * case-name normaliser around " v. ", and the three file-name parsers tried
 * in order.  Regular-expression matches and the pattern-based parts of the
 * normalisers are parameters.
 */
module RenameAllCases {
  import opened Wrappers
  import opened Text
  import opened CitationText
  import RenameCases

  // ---------------------------------------------------------------------------
  // Party title case

  /** One word of `title_case_party` at position `i`: listed abbreviations in capitals ("US" as "U.S."), the first word capitalised, small words lower-cased. */
  function TitleWord(i: nat, word: string): string {
    if RenameCases.IsAbbrev(word) then
      if Upper(word) == "U.S." || Upper(word) == "US" then "U.S." else Upper(word)
    else if i == 0 then Capitalize(word)
    else if Lower(word) in RenameCases.LowercaseWords then Lower(word)
    else Capitalize(word)
  }

  lemma TitleWordAbbrev(i: nat, word: string)
    requires RenameCases.IsAbbrev(word)
    ensures Upper(word) == "US" ==> TitleWord(i, word) == "U.S."
    ensures Upper(word) != "US" ==> SameLetters(TitleWord(i, word), word) && TitleWord(i, word) == Upper(word)
  {
    UpperSameLetters(word);
  }

  /**
   * Each word changes only in case, except that "US" in any case becomes
   * "U.S."; abbreviations come out in capitals, the first word capitalised
   * and the small words after it in lower case.
   */
  lemma TitleWordSpec(i: nat, word: string)
    ensures Upper(word) == "US" ==> TitleWord(i, word) == "U.S."
    ensures Upper(word) != "US" ==> SameLetters(TitleWord(i, word), word)
    ensures Upper(word) in RenameCases.UppercaseAbbrevs && Upper(word) != "US" ==> TitleWord(i, word) == Upper(word)
    ensures i == 0 && !RenameCases.IsAbbrev(word) ==> TitleWord(i, word) == Capitalize(word)
    ensures i > 0 && !RenameCases.IsAbbrev(word) && Lower(word) in RenameCases.LowercaseWords ==> TitleWord(i, word) == Lower(word)
  {
    if RenameCases.IsAbbrev(word) {
      TitleWordAbbrev(i, word);
    } else {
      CapitalizeSameLetters(word);
      LowerSameLetters(word);
    }
  }

  /** `title_case_party`: the words of `party`, each title-cased by its position, joined by single spaces. */
  function TitleCaseParty(party: string): string {
    Join(MapIndexed(TitleWord, SplitWs(party)), " ")
  }

  /** The words of the title-cased party are the words of the party, each title-cased in its place. */
  lemma TitleCasePartySpec(party: string)
    ensures SplitWs(TitleCaseParty(party)) == MapIndexed(TitleWord, SplitWs(party))
    ensures |SplitWs(TitleCaseParty(party))| == |SplitWs(party)|
  {
    var ws := SplitWs(party);
    var ts := MapIndexed(TitleWord, ws);
    SplitWsWords(party);
    MapIndexedSpec(TitleWord, ws);
    forall k | 0 <= k < |ts|
      ensures IsWord(ts[k])
    {
      TitleWordSpec(k, ws[k]);
      if Upper(ws[k]) != "US" {
        RenameCases.SameLettersWord(ts[k], ws[k]);
      }
    }
    SplitWsJoin(ts);
  }

  // ---------------------------------------------------------------------------
  // Case names

  /**
   * `normalize_case_name`: "" stays ""; otherwise the name after the
   * pattern-based clean-up (`cleanup`: the embedded citation and "Cite as"
   * cut, the "v" separator written " v. "), with each party title-cased
   * when it splits into exactly two parties around " v. ", else title-cased
   * as a whole.
   */
  function NormalizeCaseName(caseName: string, cleanup: string -> string): string {
    if caseName == "" then ""
    else
      var c := cleanup(caseName);
      var parts := SplitStr(c, " v. ");
      if |parts| == 2 then TitleCaseParty(Strip(parts[0])) + " v. " + TitleCaseParty(Strip(parts[1]))
      else TitleCaseParty(c)
  }

  /**
   * A cleaned name with two parties around " v. " is those parties
   * title-cased around " v. "; any other name keeps its word count.
   */
  lemma NormalizeCaseNameSpec(caseName: string, cleanup: string -> string)
    ensures caseName == "" ==> NormalizeCaseName(caseName, cleanup) == ""
    ensures var c := cleanup(caseName);
      var parts := SplitStr(c, " v. ");
      caseName != "" && |parts| == 2 ==>
        && c == parts[0] + " v. " + parts[1]
        && NormalizeCaseName(caseName, cleanup) == TitleCaseParty(Strip(parts[0])) + " v. " + TitleCaseParty(Strip(parts[1]))
    ensures var c := cleanup(caseName);
      caseName != "" && |SplitStr(c, " v. ")| != 2 ==> |SplitWs(NormalizeCaseName(caseName, cleanup))| == |SplitWs(c)|
  {
    var c := cleanup(caseName);
    SplitStrJoin(c, " v. ");
    TitleCasePartySpec(c);
  }

  // ---------------------------------------------------------------------------
  // File names

  /** The `replacements` of `sanitize_filename`, in insertion order. */
  const Replacements: seq<(char, string)> := [
    ('<', "("), ('>', ")"), (':', "-"), ('"', "'"), ('/', "-"),
    ('\\', "-"), ('|', "-"), ('?', ""), ('*', "")]

  lemma ReplacementsClosed()
    ensures ClosedTable(Replacements)
    ensures forall i :: 0 <= i < |Replacements| ==> !IsSpace(Replacements[i].0)
  {
    ClosedBy(Replacements, {'(', ')', '-', '\''});
  }

  /** `sanitize_filename` */
  function SanitizeFilename(filename: string): string {
    SanitizeWith(Replacements, filename)
  }

  /** The sanitised name holds none of <>:"/\|?*, is single-spaced and has no surrounding whitespace. */
  lemma SanitizeFilenameSpec(filename: string)
    ensures forall i :: 0 <= i < |Replacements| ==> Replacements[i].0 !in SanitizeFilename(filename)
    ensures SingleSpaced(SanitizeFilename(filename))
    ensures SanitizeFilename(filename) == Strip(SanitizeFilename(filename))
  {
    ReplacementsClosed();
    SanitizeWithSpec(Replacements, filename);
  }

  /** `sanitize_filename` is idempotent. */
  lemma SanitizeFilenameIdempotent(filename: string)
    ensures SanitizeFilename(SanitizeFilename(filename)) == SanitizeFilename(filename)
  {
    ReplacementsClosed();
    SanitizeWithIdempotent(Replacements, filename);
  }

  /** "Vol Reporter Page (Court Year)", the court left out unless it is named. */
  function CitationPart(volume: string, reporter: string, page: string, court: string, year: string): string {
    var paren := if NamedCourt(court) then court + " " + year else year;
    volume + " " + reporter + " " + page + " (" + paren + ")"
  }

  /**
   * `generate_bluebook_filename`: none unless the stripped volume, page and
   * year and the normalised reporter are given; otherwise the normalised case
   * name, ", " and the citation, or the citation alone when there is no case
   * name, sanitised.  `cleanup` and `normalizeReporter` are the pattern-based
   * parts of the two normalisers.
   */
  function GenerateBluebookFilename(info: RenameCases.CaseFields, cleanup: string -> string, normalizeReporter: string -> string): Option<string> {
    var name := NormalizeCaseName(info.caseName, cleanup);
    var volume, reporter, page := Strip(info.volume), normalizeReporter(info.reporter), Strip(info.page);
    var year, court := Strip(info.year), Strip(info.court);
    if volume == "" || reporter == "" || page == "" || year == "" then None
    else
      var citation := CitationPart(volume, reporter, page, court, year);
      Some(SanitizeFilename(if name != "" then name + ", " + citation else citation))
  }

  /**
   * A file name exists exactly when volume, reporter, page and year are
   * present; it is safe and sanitising it again changes nothing; with no case
   * name it is the citation alone.
   */
  lemma GenerateBluebookFilenameSpec(info: RenameCases.CaseFields, cleanup: string -> string, normalizeReporter: string -> string)
    ensures GenerateBluebookFilename(info, cleanup, normalizeReporter).None? <==>
      Strip(info.volume) == "" || normalizeReporter(info.reporter) == "" || Strip(info.page) == "" || Strip(info.year) == ""
    ensures GenerateBluebookFilename(info, cleanup, normalizeReporter).Some? ==>
      var f := GenerateBluebookFilename(info, cleanup, normalizeReporter).value;
      && (forall i :: 0 <= i < |Replacements| ==> Replacements[i].0 !in f)
      && SingleSpaced(f) && f == Strip(f)
      && SanitizeFilename(f) == f
    ensures GenerateBluebookFilename(info, cleanup, normalizeReporter).Some? && info.caseName == "" ==>
      GenerateBluebookFilename(info, cleanup, normalizeReporter).value ==
        SanitizeFilename(CitationPart(Strip(info.volume), normalizeReporter(info.reporter), Strip(info.page), Strip(info.court), Strip(info.year)))
  {
    var r := GenerateBluebookFilename(info, cleanup, normalizeReporter);
    if r.Some? {
      var name := NormalizeCaseName(info.caseName, cleanup);
      var citation := CitationPart(Strip(info.volume), normalizeReporter(info.reporter), Strip(info.page), Strip(info.court), Strip(info.year));
      var raw := if name != "" then name + ", " + citation else citation;
      SanitizeFilenameSpec(raw);
      SanitizeFilenameIdempotent(raw);
    }
  }

  /** The court is left out of the parenthetical exactly when it is empty, "U.S." or "US". */
  lemma CitationPartSpec(volume: string, reporter: string, page: string, court: string, year: string)
    ensures NamedCourt(court) ==> CitationPart(volume, reporter, page, court, year) == volume + " " + reporter + " " + page + " (" + court + " " + year + ")"
    ensures !NamedCourt(court) ==> CitationPart(volume, reporter, page, court, year) == volume + " " + reporter + " " + page + " (" + year + ")"
  {
  }

  // ---------------------------------------------------------------------------
  // Years inside a parenthetical

  /** `re.sub(r'\d{4}', '', s)`: four-digit runs removed left to right. */
  function RemoveYears(s: string): string {
    if |s| < 4 then s
    else if IsYear(s[..4]) then RemoveYears(s[4..])
    else [s[0]] + RemoveYears(s[1..])
  }

  /** Up to a non-digit at `k` within the first four characters, nothing is removed. */
  lemma {:induction false} RemoveYearsUpTo(s: string, k: nat)
    requires k < |s| && k < 4 && !IsDigitChar(s[k])
    ensures RemoveYears(s) == s[..k + 1] + RemoveYears(s[k + 1..])
  {
    if |s| >= 4 {
      assert s[..4][k] == s[k];
    }
    if k > 0 {
      if |s| >= 4 {
        assert !IsYear(s[..4]);
        RemoveYearsUpTo(s[1..], k - 1);
        assert s[1..][..k] == s[1..k + 1];
        assert s[1..][k..] == s[k + 1..];
      } else {
        assert s == s[..k + 1] + s[k + 1..];
      }
    } else if |s| < 4 {
      assert s == s[..1] + s[1..];
    }
  }

  /** After the removal no four-digit run is left. */
  lemma {:induction false} RemoveYearsSpec(s: string)
    ensures NoYearRun(RemoveYears(s))
    decreases |s|
  {
    if |s| < 4 {
    } else if IsYear(s[..4]) {
      RemoveYearsSpec(s[4..]);
    } else {
      var t := RemoveYears(s[1..]);
      RemoveYearsSpec(s[1..]);
      var r := [s[0]] + t;
      assert r[1..] == t;
      if |r| >= 4 {
        var k :| 0 <= k < 4 && !IsDigitChar(s[k]);
        if k > 0 {
          RemoveYearsUpTo(s[1..], k - 1);
          assert r[k] == s[k];
        }
        assert r[..4][k] == r[k];
      }
    }
  }

  /** Dropping a prefix keeps the absence of four-digit runs. */
  lemma {:induction false} NoYearRunSuffix(s: string, i: nat)
    requires i <= |s| && NoYearRun(s)
    ensures NoYearRun(s[i..])
    decreases i
  {
    if i > 0 && |s| >= 4 {
      NoYearRunSuffix(s[1..], i - 1);
      assert s[1..][i - 1..] == s[i..];
    }
  }

  /** Dropping a suffix keeps the absence of four-digit runs. */
  lemma {:induction false} NoYearRunPrefix(s: string, j: nat)
    requires j <= |s| && NoYearRun(s)
    ensures NoYearRun(s[..j])
    decreases j
  {
    if j >= 4 {
      assert s[..j][..4] == s[..4];
      NoYearRunPrefix(s[1..], j - 1);
      assert s[1..][..j - 1] == s[..j][1..];
    }
  }

  /** Every four-character window of a slice is a window of the whole. */
  lemma NoYearRunSlice(s: string, i: nat, j: nat)
    requires i <= j <= |s| && NoYearRun(s)
    ensures NoYearRun(s[i..j])
  {
    NoYearRunSuffix(s, i);
    NoYearRunPrefix(s[i..], j - i);
    assert s[i..][..j - i] == s[i..j];
  }

  // ---------------------------------------------------------------------------
  // Parsing file names

  /** The seven groups of the underscore pattern `Party1_v_Party2_Vol_Rep_Page[_Court]_Year`. */
  datatype UnderscoreMatch = UnderscoreMatch(party1: string, party2: string, volume: string, reporter: string,
                                             page: string, courtOrYear: Option<string>, year: string)

  /** The five groups of the pattern `Case Name, Vol Reporter Page (Parenthetical)`. */
  datatype CommaMatch = CommaMatch(caseName: string, volume: string, reporter: string, page: string, paren: string)

  /** The three groups of the citation-only pattern `Vol_Reporter_Page`. */
  datatype CitationOnlyMatch = CitationOnlyMatch(volume: string, reporter: string, page: string)

  /** The court of the underscore form: group six when present and not all digits, underscores as spaces. */
  function UnderscoreCourt(courtOrYear: Option<string>): string {
    match courtOrYear
    case Some(c) => if c != "" && !IsDigits(c) then ReplaceChar(c, '_', ' ') else ""
    case None => ""
  }

  /** `parse_underscore_filename`, given the pattern's match on the file's stem. */
  function ParseUnderscoreFilename(m: Option<UnderscoreMatch>, normalizeReporter: string -> string): Option<RenameCases.CaseFields> {
    match m
    case None => None
    case Some(g) =>
      Some(RenameCases.CaseFields(
        ReplaceChar(g.party1, '_', ' ') + " v. " + ReplaceChar(g.party2, '_', ' '),
        g.volume, normalizeReporter(g.reporter), g.page, g.year, UnderscoreCourt(g.courtOrYear)))
  }

  /**
   * A match gives the parties around " v. " with spaces for underscores, the
   * normalised reporter and the year group; the court is empty exactly when
   * group six is missing or all digits, and holds no underscore.
   */
  lemma ParseUnderscoreFilenameSpec(m: Option<UnderscoreMatch>, normalizeReporter: string -> string)
    ensures ParseUnderscoreFilename(m, normalizeReporter).None? <==> m.None?
    ensures m.Some? ==>
      var r := ParseUnderscoreFilename(m, normalizeReporter).value;
      && r.caseName == ReplaceChar(m.value.party1, '_', ' ') + " v. " + ReplaceChar(m.value.party2, '_', ' ')
      && r.volume == m.value.volume && r.page == m.value.page && r.year == m.value.year
      && r.reporter == normalizeReporter(m.value.reporter)
      && '_' !in r.court
      && (r.court == "" <==> m.value.courtOrYear.None? || m.value.courtOrYear.value == "" || IsDigits(m.value.courtOrYear.value))
  {
    if m.Some? {
      var g := m.value;
      if g.courtOrYear.Some? {
        ReplaceCharSpec(g.courtOrYear.value, '_', ' ');
      }
    }
  }

  /** The parties of the underscore form hold no underscore. */
  lemma ParseUnderscoreNames(m: Option<UnderscoreMatch>, normalizeReporter: string -> string)
    requires m.Some?
    ensures '_' !in ParseUnderscoreFilename(m, normalizeReporter).value.caseName
  {
    ReplaceCharSpec(m.value.party1, '_', ' ');
    ReplaceCharSpec(m.value.party2, '_', ' ');
  }

  /** The comma form: year the first four-digit run of the parenthetical, court the rest of it, stripped. */
  function ParseCommaForm(g: CommaMatch, normalizeReporter: string -> string): RenameCases.CaseFields {
    RenameCases.CaseFields(g.caseName, g.volume, normalizeReporter(Strip(g.reporter)), g.page,
                           FirstYearIn(g.paren), Strip(RemoveYears(g.paren)))
  }

  /** The year is empty or four digits from the parenthetical, and the court holds no four-digit run. */
  lemma ParseCommaFormSpec(g: CommaMatch, normalizeReporter: string -> string)
    ensures var r := ParseCommaForm(g, normalizeReporter);
      && (r.year == "" <==> NoYearRun(g.paren))
      && (r.year != "" ==> IsYear(r.year) && Contains(g.paren, r.year))
      && NoYearRun(r.court)
      && r.court == Strip(r.court)
  {
    FirstYearInSpec(g.paren);
    StrippedCourt(g.paren);
  }

  /** The paren with its years removed and stripped has no four-digit run and no surrounding whitespace. */
  lemma StrippedCourt(paren: string)
    ensures NoYearRun(Strip(RemoveYears(paren)))
    ensures Strip(RemoveYears(paren)) == Strip(Strip(RemoveYears(paren)))
  {
    var c := RemoveYears(paren);
    RemoveYearsSpec(paren);
    NoYearRunStrip(c);
    StripSpec(c);
    StripOfTrimmed(Strip(c));
  }

  lemma NoYearRunStrip(c: string)
    requires NoYearRun(c)
    ensures NoYearRun(Strip(c))
  {
    StripSpec(c);
    var n := |c| - |LStrip(c)|;
    NoYearRunSlice(c, n, n + |Strip(c)|);
  }

  /** The citation-only form: no case name, year or court; underscores in the reporter read as spaces. */
  function ParseCitationOnly(g: CitationOnlyMatch, normalizeReporter: string -> string): RenameCases.CaseFields {
    RenameCases.CaseFields("", g.volume, normalizeReporter(ReplaceChar(g.reporter, '_', ' ')), g.page, "", "")
  }

  /**
   * `parse_citation_from_filename`: the underscore form when its pattern
   * matches, else the comma form, else the citation-only form, else none.
   */
  function ParseCitationFromFilename(underscore: Option<UnderscoreMatch>, comma: Option<CommaMatch>,
                                     citationOnly: Option<CitationOnlyMatch>, normalizeReporter: string -> string): Option<RenameCases.CaseFields> {
    if underscore.Some? then ParseUnderscoreFilename(underscore, normalizeReporter)
    else if comma.Some? then Some(ParseCommaForm(comma.value, normalizeReporter))
    else if citationOnly.Some? then Some(ParseCitationOnly(citationOnly.value, normalizeReporter))
    else None
  }

  /** The forms are tried in order and the first that matches decides; a citation-only result has no case name, year or court. */
  lemma ParseCitationFromFilenameSpec(underscore: Option<UnderscoreMatch>, comma: Option<CommaMatch>,
                                      citationOnly: Option<CitationOnlyMatch>, normalizeReporter: string -> string)
    ensures var r := ParseCitationFromFilename(underscore, comma, citationOnly, normalizeReporter);
      && (r.None? <==> underscore.None? && comma.None? && citationOnly.None?)
      && (underscore.Some? ==> r == ParseUnderscoreFilename(underscore, normalizeReporter))
      && (underscore.None? && comma.Some? ==> r == Some(ParseCommaForm(comma.value, normalizeReporter)))
      && (underscore.None? && comma.None? && citationOnly.Some? ==>
            r.Some? && r.value.caseName == "" && r.value.year == "" && r.value.court == ""
            && r.value.volume == citationOnly.value.volume && r.value.page == citationOnly.value.page)
  {
    ParseUnderscoreFilenameSpec(underscore, normalizeReporter);
  }

  /** A file name parsed in citation-only form has no year, so no Bluebook file name comes from it. */
  lemma CitationOnlyHasNoFilename(g: CitationOnlyMatch, cleanup: string -> string, normalizeReporter: string -> string)
    ensures GenerateBluebookFilename(ParseCitationOnly(g, normalizeReporter), cleanup, normalizeReporter).None?
  {
    assert Strip("") == "";
  }
}
