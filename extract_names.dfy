/**
 * Recovering case names from the text of a case: the test for names that
 * need recovering, the party-name clean-up and title case, the choice among
 * the candidate name matches, reporter normalisation by canonical key and
 * the Bluebook citation.  Regular-expression matches are parameters.
 */
module ExtractNames {
  import opened Wrappers
  import opened Text
  import opened CitationText
  import RenameCases
  import FixCaseLibrary

  // ---------------------------------------------------------------------------
  // Names that need recovering

  /** The listed garbage names, compared in lower case. */
  const GarbageNames: seq<string> := ["unknown case", "wtf?", "third lawsuit"]

  /**
   * `is_problematic_name`: empty, a bare citation (`startsWithCitation`,
   * `bareReporter`: whether the two patterns match), no " v. " (nor " v "
   * in any case), a listed garbage name, or shorter than five characters.
   */
  function IsProblematicName(name: string, startsWithCitation: bool, bareReporter: bool): bool {
    if name == "" then true
    else if startsWithCitation then true
    else if bareReporter then true
    else if !Contains(name, " v. ") && !Contains(Lower(name), " v ") then true
    else if Lower(name) in GarbageNames then true
    else if |name| < 5 then true
    else false
  }

  /** A name is fine exactly when it is none of the problem cases. */
  lemma IsProblematicNameSpec(name: string, startsWithCitation: bool, bareReporter: bool)
    ensures !IsProblematicName(name, startsWithCitation, bareReporter) <==>
      && |name| >= 5
      && !startsWithCitation && !bareReporter
      && (Contains(name, " v. ") || Contains(Lower(name), " v "))
      && Lower(name) !in GarbageNames
  {
  }

  /** A name of five or more characters with " v. " that matches neither citation pattern and is not garbage needs no recovering. */
  lemma ProperNameExample()
    ensures !IsProblematicName("Roe v. Wade", false, false)
  {
    HasSeparator("Roe v. Wade", 3);
    NotGarbageByInitial("Roe v. Wade");
  }

  lemma HasSeparator(name: string, i: nat)
    requires i + 4 <= |name| && name[i..i + 4] == " v. "
    ensures Contains(name, " v. ")
  {
    assert OccursAt(name, " v. ", i);
    ContainsAt(name, " v. ");
  }

  /** The garbage names start with 'u', 'w' or 't'. */
  lemma NotGarbageByInitial(name: string)
    requires name != [] && ToLowerChar(name[0]) !in {'u', 'w', 't'}
    ensures Lower(name) !in GarbageNames
  {
    assert GarbageNames[0][0] == 'u' && GarbageNames[1][0] == 'w' && GarbageNames[2][0] == 't';
  }

  // ---------------------------------------------------------------------------
  // Party title case

  const LowercaseWords: set<string> := {"of", "the", "in", "at", "by", "for", "on", "and", "or", "a", "an", "to"}
  const UppercaseAbbrevs: set<string> := {"U.S.", "US", "USA", "FBI", "CIA", "IRS", "DOJ", "SEC", "FTC",
    "LLC", "LLP", "INC", "CORP", "CO", "IGRA"}

  /** `word.rstrip('.,').upper()` */
  function CleanUpper(word: string): string {
    Upper(RStripChars(word, {'.', ','}))
  }

  predicate IsUSForm(word: string) {
    CleanUpper(word) in {"U.S.", "US", "U.S"}
  }

  /**
   * One word of this script's `title_case_party` at position `i`; `allCaps`
   * says whether the whole party name is in capitals.
   */
  function TitleWord(allCaps: bool, i: nat, word: string): string {
    if IsUSForm(word) then "U.S."
    else if CleanUpper(word) in UppercaseAbbrevs then CleanUpper(word)
    else if i == 0 then Capitalize(word)
    else if Lower(word) in LowercaseWords then Lower(word)
    else if allCaps then Capitalize(word)
    else word
  }

  function TitleWordOf(allCaps: bool): (nat, string) -> string {
    (i: nat, w: string) => TitleWord(allCaps, i, w)
  }

  /**
   * Spellings of "U.S." become "U.S."; other abbreviations come out in
   * capitals without trailing '.' and ','; the first word is capitalised,
   * later small words lower-cased, and the other words capitalised in an
   * all-capitals name and otherwise kept as written.
   */
  lemma TitleWordSpec(allCaps: bool, i: nat, word: string)
    ensures IsUSForm(word) ==> TitleWord(allCaps, i, word) == "U.S."
    ensures !IsUSForm(word) && CleanUpper(word) in UppercaseAbbrevs ==>
      TitleWord(allCaps, i, word) == CleanUpper(word) && StartsWith(Upper(word), TitleWord(allCaps, i, word))
    ensures CleanUpper(word) !in UppercaseAbbrevs && !IsUSForm(word) ==>
      && (i == 0 ==> TitleWord(allCaps, i, word) == Capitalize(word))
      && (i > 0 && Lower(word) in LowercaseWords ==> TitleWord(allCaps, i, word) == Lower(word))
      && (i > 0 && Lower(word) !in LowercaseWords && !allCaps ==> TitleWord(allCaps, i, word) == word)
      && (i > 0 && Lower(word) !in LowercaseWords && allCaps ==> TitleWord(allCaps, i, word) == Capitalize(word))
  {
    var c := RStripChars(word, {'.', ','});
    if !IsUSForm(word) && CleanUpper(word) in UppercaseAbbrevs {
      assert Upper(word)[..|c|] == Upper(c);
    }
  }

  lemma TitleWordIsWord(allCaps: bool, i: nat, word: string)
    requires IsWord(word)
    ensures IsWord(TitleWord(allCaps, i, word))
  {
    var t := TitleWord(allCaps, i, word);
    if IsUSForm(word) {
    } else if CleanUpper(word) in UppercaseAbbrevs {
      assert "" !in UppercaseAbbrevs;
      CleanUpperIsWord(word);
    } else {
      CapitalizeSameLetters(word);
      LowerSameLetters(word);
      RenameCases.SameLettersWord(t, word);
    }
  }

  lemma CleanUpperIsWord(word: string)
    requires IsWord(word) && CleanUpper(word) != ""
    ensures IsWord(CleanUpper(word))
  {
    var c := RStripChars(word, {'.', ','});
    forall j | 0 <= j < |c|
      ensures !IsSpace(CleanUpper(word)[j])
    {
      assert c[j] == word[j];
    }
  }

  /** This script's `title_case_party`: "" for an empty name, else its words title-cased by position. */
  function TitleCaseParty(party: string): string {
    if party == "" then "" else Join(MapIndexed(TitleWordOf(IsUpperStr(party)), SplitWs(party)), " ")
  }

  /** The words of the result are the words of the party, each title-cased in its place. */
  lemma TitleCasePartySpec(party: string)
    ensures party == "" ==> TitleCaseParty(party) == ""
    ensures SplitWs(TitleCaseParty(party)) == MapIndexed(TitleWordOf(IsUpperStr(party)), SplitWs(party))
    ensures |SplitWs(TitleCaseParty(party))| == |SplitWs(party)|
  {
    var f := TitleWordOf(IsUpperStr(party));
    var ws := SplitWs(party);
    MapIndexedSpec(f, ws);
    if party != "" {
      var ts := MapIndexed(f, ws);
      SplitWsWords(party);
      forall k | 0 <= k < |ts|
        ensures IsWord(ts[k])
      {
        TitleWordIsWord(IsUpperStr(party), k, ws[k]);
      }
      SplitWsJoin(ts);
    }
  }

  /** `s.lstrip(chars)` */
  function LStripChars(s: string, chars: set<char>): (r: string)
    ensures |r| <= |s| && r == s[|s| - |r|..]
    ensures r == [] || r[0] !in chars
  {
    if s != [] && s[0] in chars then LStripChars(s[1..], chars) else s
  }

  /**
   * `clean_party_name`: "" stays ""; otherwise the name with its role words
   * and "et al." cut (`dropRoles`, the two pattern substitutions), its
   * whitespace collapsed, ' ', ',' and '.' stripped from both ends, and
   * title-cased.
   */
  function CleanPartyName(name: string, dropRoles: string -> string): string {
    if name == "" then ""
    else
      var words := Join(SplitWs(dropRoles(name)), " ");
      var trimmed := LStripChars(RStripChars(words, {' ', ',', '.'}), {' ', ',', '.'});
      TitleCaseParty(trimmed)
  }

  /** The clean name's words are the trimmed words, title-cased in place. */
  lemma CleanPartyNameSpec(name: string, dropRoles: string -> string)
    ensures name == "" ==> CleanPartyName(name, dropRoles) == ""
    ensures name != "" ==>
      var words := Join(SplitWs(dropRoles(name)), " ");
      var trimmed := LStripChars(RStripChars(words, {' ', ',', '.'}), {' ', ',', '.'});
      |SplitWs(CleanPartyName(name, dropRoles))| == |SplitWs(trimmed)|
  {
    if name != "" {
      var words := Join(SplitWs(dropRoles(name)), " ");
      TitleCasePartySpec(LStripChars(RStripChars(words, {' ', ',', '.'}), {' ', ',', '.'}));
    }
  }

  // ---------------------------------------------------------------------------
  // Choosing the case name

  /** Phrases that mark a match as running text rather than a caption. */
  const GarbagePhrases: seq<string> := ["since ", "with the", "see ", "cf. ", "governs", "spirit of",
    "full spirit", "donald governs", "eeoc was", "case. cf"]

  /** `any(phrase in s for phrase in phrases)` */
  predicate AnyContains(s: string, phrases: seq<string>) {
    phrases != [] && (Contains(s, phrases[0]) || AnyContains(s, phrases[1..]))
  }

  predicate HasGarbage(s: string) {
    AnyContains(s, GarbagePhrases)
  }

  /** What one caption pattern matched (in pattern order): two parties, one name, or nothing. */
  datatype NameMatch = TwoParties(party1: string, party2: string) | OneName(name: string) | NoMatch

  /**
   * The case name a match yields: two clean parties of at least three
   * characters joined by " v. ", or one clean name of at least five, neither
   * holding a garbage phrase in lower case.
   */
  function Accept(m: NameMatch, dropRoles: string -> string): Option<string> {
    match m
    case TwoParties(p1, p2) =>
      var a, b := CleanPartyName(p1, dropRoles), CleanPartyName(p2, dropRoles);
      if |a| >= 3 && |b| >= 3 && !HasGarbage(Lower(a + " v. " + b)) then Some(a + " v. " + b) else None
    case OneName(n) =>
      var c := CleanPartyName(n, dropRoles);
      if |c| >= 5 && !HasGarbage(Lower(c)) then Some(c) else None
    case NoMatch => None
  }

  predicate Accepted(dropRoles: string -> string, m: NameMatch) {
    Accept(m, dropRoles).Some?
  }

  /** The first name `f` accepts from `ms`, or "" when it accepts none. */
  function FirstAccepted<T>(ms: seq<T>, f: T -> Option<string>): string {
    if ms == [] then ""
    else match f(ms[0])
      case Some(n) => n
      case None => FirstAccepted(ms[1..], f)
  }

  /** The name comes from the first accepted element, every earlier one being rejected; "" exactly when none is accepted (and no accepted name is ""). */
  lemma {:induction false} FirstAcceptedSpec<T>(ms: seq<T>, f: T -> Option<string>)
    requires forall j :: 0 <= j < |ms| ==> f(ms[j]) != Some("")
    ensures FirstAccepted(ms, f) == "" <==> forall j :: 0 <= j < |ms| ==> f(ms[j]).None?
    ensures FirstAccepted(ms, f) != "" ==>
      exists k :: 0 <= k < |ms| && f(ms[k]) == Some(FirstAccepted(ms, f)) && forall j :: 0 <= j < k ==> f(ms[j]).None?
  {
    if ms != [] && f(ms[0]).None? {
      var t := ms[1..];
      FirstAcceptedSpec(t, f);
      if FirstAccepted(t, f) != "" {
        var k :| 0 <= k < |t| && f(t[k]) == Some(FirstAccepted(t, f)) && forall j :: 0 <= j < k ==> f(t[j]).None?;
        assert ms[k + 1] == t[k];
        forall j | 0 <= j < k + 1
          ensures f(ms[j]).None?
        {
          if j > 0 {
            assert ms[j] == t[j - 1];
          }
        }
      } else {
        forall j | 0 <= j < |ms|
          ensures f(ms[j]).None?
        {
          if j > 0 {
            assert ms[j] == t[j - 1];
          }
        }
      }
    }
  }

  /** The chosen case name: the first accepted match's, or "". */
  function PickCaseName(ms: seq<NameMatch>, dropRoles: string -> string): string {
    FirstAccepted(ms, m => Accept(m, dropRoles))
  }

  /** The `for pattern in patterns` loop with its `continue` and `break`. */
  method PickCaseNameLoop(ms: seq<NameMatch>, dropRoles: string -> string) returns (caseName: string)
    ensures caseName == PickCaseName(ms, dropRoles)
  {
    var f := m => Accept(m, dropRoles);
    var i := 0;
    while i < |ms|
      invariant 0 <= i <= |ms|
      invariant FirstAccepted(ms[i..], f) == FirstAccepted(ms, f)
    {
      var r := Accept(ms[i], dropRoles);
      if r.Some? {
        caseName := r.value;
        return;
      }
      assert ms[i..][1..] == ms[i + 1..];
      i := i + 1;
    }
    caseName := "";
  }

  /**
   * The name picked comes from the first accepted match, every earlier match
   * being rejected; it is "" exactly when no match is accepted, and it never
   * holds a garbage phrase.
   */
  lemma PickCaseNameSpec(ms: seq<NameMatch>, dropRoles: string -> string)
    ensures PickCaseName(ms, dropRoles) == "" <==> forall j :: 0 <= j < |ms| ==> !Accepted(dropRoles, ms[j])
    ensures PickCaseName(ms, dropRoles) != "" ==>
      exists k :: 0 <= k < |ms| && Accept(ms[k], dropRoles) == Some(PickCaseName(ms, dropRoles))
        && forall j :: 0 <= j < k ==> !Accepted(dropRoles, ms[j])
    ensures PickCaseName(ms, dropRoles) != "" ==> !HasGarbage(Lower(PickCaseName(ms, dropRoles))) && |PickCaseName(ms, dropRoles)| >= 5
  {
    var f := m => Accept(m, dropRoles);
    forall j | 0 <= j < |ms|
      ensures f(ms[j]) != Some("")
    {
      AcceptSpec(ms[j], dropRoles);
    }
    FirstAcceptedSpec(ms, f);
    if PickCaseName(ms, dropRoles) != "" {
      var k :| 0 <= k < |ms| && f(ms[k]) == Some(FirstAccepted(ms, f)) && forall j :: 0 <= j < k ==> f(ms[j]).None?;
      AcceptSpec(ms[k], dropRoles);
    }
  }

  /** An accepted name is at least five characters long and free of garbage phrases. */
  lemma AcceptSpec(m: NameMatch, dropRoles: string -> string)
    ensures Accept(m, dropRoles).Some? ==> |Accept(m, dropRoles).value| >= 5 && !HasGarbage(Lower(Accept(m, dropRoles).value))
  {
  }

  // ---------------------------------------------------------------------------
  // Reporters

  /** `normalizations`, in insertion order. */
  const Normalizations: seq<(string, string)> := [
    ("US", "U.S."), ("U S", "U.S."), ("U.S", "U.S."),
    ("SCt", "S. Ct."), ("S Ct", "S. Ct."), ("S.Ct", "S. Ct."), ("S.Ct.", "S. Ct."),
    ("F4th", "F.4th"), ("F 4th", "F.4th"), ("F3d", "F.3d"), ("F 3d", "F.3d"), ("F2d", "F.2d"), ("F 2d", "F.2d"),
    ("FSupp3d", "F. Supp. 3d"), ("F Supp 3d", "F. Supp. 3d"), ("FSupp2d", "F. Supp. 2d"), ("F Supp 2d", "F. Supp. 2d"),
    ("FSupp", "F. Supp."), ("F Supp", "F. Supp."), ("LEd2d", "L. Ed. 2d"), ("L Ed 2d", "L. Ed. 2d"),
    ("So3d", "So. 3d"), ("So 3d", "So. 3d"), ("So2d", "So. 2d"), ("So 2d", "So. 2d")]

  /** `s.upper().replace('.', '').replace(' ', '')`, from index `i` on. */
  function CanonFrom(s: string, i: nat): string
    decreases |s| - i
  {
    if i >= |s| then [] else (if s[i] == '.' || s[i] == ' ' then [] else [ToUpperChar(s[i])]) + CanonFrom(s, i + 1)
  }

  /** The key two abbreviations are compared by: upper case, without '.' and ' '. */
  function Canon(s: string): string {
    CanonFrom(s, 0)
  }

  /** `re.sub(r'\s+', ' ', reporter).strip()` */
  function CleanReporter(reporter: string): string {
    Strip(CollapseSpaces(reporter))
  }

  predicate KeyMatches(key: string, entry: (string, string)) {
    Canon(entry.0) == Canon(key)
  }

  /** `normalize_reporter` over a table: the first entry whose key matches canonically, else the stripped input. */
  function NormalizeWith(table: seq<(string, string)>, reporter: string): string {
    var clean := CleanReporter(Strip(reporter));
    match FirstIndex(table, e => KeyMatches(clean, e))
    case Some(k) => table[k].1
    case None => Strip(reporter)
  }

  /** `normalize_reporter` */
  function NormalizeReporter(reporter: string): string {
    NormalizeWith(Normalizations, reporter)
  }

  /** The result is the value of the first canonically matching entry, or the stripped input when none matches. */
  lemma NormalizeWithSpec(table: seq<(string, string)>, reporter: string)
    ensures var clean := CleanReporter(Strip(reporter));
      && ((forall j :: 0 <= j < |table| ==> Canon(table[j].0) != Canon(clean)) ==> NormalizeWith(table, reporter) == Strip(reporter))
      && (forall k :: 0 <= k < |table| && Canon(table[k].0) == Canon(clean) && (forall j :: 0 <= j < k ==> Canon(table[j].0) != Canon(clean)) ==>
            NormalizeWith(table, reporter) == table[k].1)
  {
    var clean := CleanReporter(Strip(reporter));
    var p := e => KeyMatches(clean, e);
    forall k | 0 <= k < |table| && Canon(table[k].0) == Canon(clean) && (forall j :: 0 <= j < k ==> Canon(table[j].0) != Canon(clean))
      ensures NormalizeWith(table, reporter) == table[k].1
    {
      FirstIndexAt(table, p, k);
    }
  }

  /**
   * A table is consistent when entries with the same canonical key have the
   * same value, and each value is written clean and has its entry's key.
   */
  ghost predicate Consistent(table: seq<(string, string)>) {
    && (forall i, j :: 0 <= i < |table| && 0 <= j < |table| && Canon(table[i].0) == Canon(table[j].0) ==> table[i].1 == table[j].1)
    && (forall i :: 0 <= i < |table| ==> Canon(table[i].1) == Canon(table[i].0) && CleanReporter(table[i].1) == table[i].1 && Strip(table[i].1) == table[i].1)
  }

  /** Over a consistent table every value is a fixed point, so normalising twice is normalising once. */
  lemma NormalizeWithIdempotent(table: seq<(string, string)>, reporter: string)
    requires Consistent(table)
    ensures NormalizeWith(table, NormalizeWith(table, reporter)) == NormalizeWith(table, reporter)
  {
    var clean := CleanReporter(Strip(reporter));
    var r := NormalizeWith(table, reporter);
    var p := e => KeyMatches(clean, e);
    match FirstIndex(table, p)
    case Some(k) =>
      assert r == table[k].1;
      var q := e => KeyMatches(CleanReporter(Strip(r)), e);
      assert CleanReporter(Strip(r)) == r;
      assert q(table[k]);
      var k2 := FirstIndex(table, q).value;
      assert Canon(table[k2].0) == Canon(table[k].0);
    case None =>
      var s := Strip(reporter);
      StripSpec(reporter);
      StripOfTrimmed(s);
      assert Strip(r) == s;
  }

  /** The table's canonical key for "U.S." is that of its first entry, "US". */
  lemma CanonUS()
    ensures Canon("U.S.") == "US" && Canon("US") == "US"
  {
  }

  /** "US" normalises to "U.S.", through the table's first entry. */
  lemma NormalizeUSExample()
    ensures NormalizeReporter("US") == "U.S."
  {
    CanonUS();
    var p := e => KeyMatches(CleanReporter(Strip("US")), e);
    StripOfTrimmed("US");
    CollapseSpacesFixed("US");
    FirstIndexAt(Normalizations, p, 0);
  }

  /** "U.S." is already normal: its table entry is the first one, "US". */
  lemma NormalizeDottedUSExample()
    ensures NormalizeReporter("U.S.") == "U.S."
  {
    CanonUS();
    StripOfTrimmed("U.S.");
    CollapseSpacesFixed("U.S.");
    var p := e => KeyMatches(CleanReporter(Strip("U.S.")), e);
    FirstIndexAt(Normalizations, p, 0);
  }

  // ---------------------------------------------------------------------------
  // The citation found in the text

  /** The digits and ordinal suffix of a "(Nth Cir.)" match. */
  datatype CircuitMatch = CircuitMatch(number: string, suffix: string)

  /** The court as written: the circuit number followed by "th Cir.", whatever ordinal the text gave. */
  function CircuitCourtAsWritten(m: CircuitMatch): string {
    m.number + "th Cir."
  }

  /** The court with the ordinal as the text wrote it: "1st Cir.", "2nd Cir.", "9th Cir.". */
  function CircuitCourt(m: CircuitMatch): string {
    m.number + m.suffix + " Cir."
  }

  /** The corrected court keeps the number and the ordinal suffix of the match. */
  lemma CircuitCourtSpec(m: CircuitMatch)
    ensures StartsWith(CircuitCourt(m), m.number + m.suffix)
    ensures CircuitCourt(m)[|m.number| + |m.suffix|..] == " Cir."
  {
    assert CircuitCourt(m)[..|m.number + m.suffix|] == m.number + m.suffix;
  }

  /** For "(2nd Cir.)" the code as written gives "2th Cir.", not "2nd Cir.". */
  lemma SecondCircuitAsWritten()
    ensures CircuitCourtAsWritten(CircuitMatch("2", "nd")) == "2th Cir."
    ensures CircuitCourt(CircuitMatch("2", "nd")) == "2nd Cir."
    ensures CircuitCourtAsWritten(CircuitMatch("2", "nd")) != CircuitCourt(CircuitMatch("2", "nd"))
  {
    assert CircuitCourtAsWritten(CircuitMatch("2", "nd"))[1] == 't';
    assert CircuitCourt(CircuitMatch("2", "nd"))[1] == 'n';
  }

  /** The volume, reporter and page of the first citation pattern that matches. */
  datatype CitationMatch = CitationMatch(volume: string, reporter: string, page: string)

  /**
   * `extract_case_name_from_text`: nothing unless a case name is found;
   * otherwise the name, the first citation with its reporter normalised,
   * the first year and the circuit court, each "" when absent.
   */
  function ExtractCaseNameFromText(names: seq<NameMatch>, citation: Option<CitationMatch>, year: Option<string>,
                                   circuit: Option<CircuitMatch>, dropRoles: string -> string): Option<RenameCases.CaseFields> {
    var caseName := PickCaseName(names, dropRoles);
    if caseName == "" then None
    else
      var cite := match citation
        case Some(c) => CitationMatch(c.volume, NormalizeReporter(c.reporter), c.page)
        case None => CitationMatch("", "", "");
      var court := match circuit case Some(m) => CircuitCourt(m) case None => "";
      var y := match year case Some(y) => y case None => "";
      Some(RenameCases.CaseFields(caseName, cite.volume, cite.reporter, cite.page, y, court))
  }

  /** There is a result exactly when some name match is accepted, and it carries the name picked. */
  lemma ExtractCaseNameFromTextSpec(names: seq<NameMatch>, citation: Option<CitationMatch>, year: Option<string>,
                                    circuit: Option<CircuitMatch>, dropRoles: string -> string)
    ensures var r := ExtractCaseNameFromText(names, citation, year, circuit, dropRoles);
      && (r.None? <==> forall j :: 0 <= j < |names| ==> !Accepted(dropRoles, names[j]))
      && (r.Some? ==> r.value.caseName == PickCaseName(names, dropRoles))
      && (r.Some? && citation.None? ==> r.value.volume == "" && r.value.reporter == "" && r.value.page == "")
      && (r.Some? && citation.Some? ==> r.value.reporter == NormalizeReporter(citation.value.reporter))
      && (r.Some? && circuit.None? ==> r.value.court == "")
  {
    PickCaseNameSpec(names, dropRoles);
  }

  // ---------------------------------------------------------------------------
  // Bluebook citation

  /** `format_bluebook_citation`: the same rule as the batch fixer's `format_bluebook`, over a record. */
  function FormatBluebookCitation(info: RenameCases.CaseFields): string {
    FixCaseLibrary.FormatBluebook(info.caseName, info.volume, info.reporter, info.page, info.court, info.year)
  }

  /** Empty unless case name, volume, reporter and page are all given; "U.S."/"US" courts never reach the parenthetical. */
  lemma FormatBluebookCitationSpec(info: RenameCases.CaseFields)
    ensures FormatBluebookCitation(info) == "" <==> info.caseName == "" || info.volume == "" || info.reporter == "" || info.page == ""
    ensures var base := info.caseName + ", " + info.volume + " " + info.reporter + " " + info.page;
      FormatBluebookCitation(info) != "" ==>
        && StartsWith(FormatBluebookCitation(info), base)
        && (!NamedCourt(info.court) && info.year == "" ==> FormatBluebookCitation(info) == base)
        && (!NamedCourt(info.court) && info.year != "" ==> FormatBluebookCitation(info) == base + " (" + info.year + ")")
        && (NamedCourt(info.court) && info.year == "" ==> FormatBluebookCitation(info) == base + " (" + info.court + ")")
        && (NamedCourt(info.court) && info.year != "" ==> FormatBluebookCitation(info) == base + " (" + info.court + " " + info.year + ")")
  {
    FixCaseLibrary.FormatBluebookSpec(info.caseName, info.volume, info.reporter, info.page, info.court, info.year);
  }
}
