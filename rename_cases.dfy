/**
 * The string helpers of the case-library renaming script: reporter
 * normalisation by table lookup, capitalisation of names, file-name
 * sanitising and the Bluebook file name of an indexed case.  The
 * regular-expression based case-name normaliser is a parameter.
 */
module RenameCases {
  import opened Wrappers
  import opened Text
  import opened CitationText

  // ---------------------------------------------------------------------------
  // Reporters

  /** `REPORTER_NORMALIZATIONS`, in insertion order; the keys are distinct. */
  const ReporterNormalizations: seq<(string, string)> := [
    ("F3d", "F.3d"), ("F.3d", "F.3d"), ("F2d", "F.2d"), ("F.2d", "F.2d"),
    ("Fd", "F."), ("F.", "F."), ("US", "U.S."), ("U.S.", "U.S."),
    ("SCt", "S. Ct."), ("S.Ct.", "S. Ct."), ("S. Ct.", "S. Ct."),
    ("FSupp3d", "F. Supp. 3d"), ("F.Supp.3d", "F. Supp. 3d"), ("F. Supp. 3d", "F. Supp. 3d"),
    ("FSupp2d", "F. Supp. 2d"), ("F.Supp.2d", "F. Supp. 2d"), ("F. Supp. 2d", "F. Supp. 2d"),
    ("FSupp", "F. Supp."), ("F.Supp.", "F. Supp."), ("F. Supp.", "F. Supp.")]

  /** `table[key]` for a dict given by its items: the value of the first (only) entry with that key. */
  function Lookup(table: seq<(string, string)>, key: string): (r: Option<string>)
    ensures r.Some? ==> exists i :: 0 <= i < |table| && table[i] == (key, r.value)
    ensures r.None? ==> forall i :: 0 <= i < |table| ==> table[i].0 != key
  {
    if table == [] then None
    else if table[0].0 == key then Some(table[0].1)
    else
      var r := Lookup(table[1..], key);
      assert r.Some? ==> exists i :: 0 <= i < |table[1..]| && table[1..][i] == (key, r.value);
      assert r.Some? ==> exists i :: 1 <= i < |table| && table[i] == (key, r.value);
      r
  }

  /** The first entry whose key equals `key` when both are upper-cased. */
  function LookupIgnoreCase(table: seq<(string, string)>, key: string): (r: Option<string>)
    ensures r.Some? ==> exists i :: 0 <= i < |table| && table[i].1 == r.value && Upper(table[i].0) == Upper(key)
    ensures r.None? ==> forall i :: 0 <= i < |table| ==> Upper(table[i].0) != Upper(key)
  {
    if table == [] then None
    else if Upper(key) == Upper(table[0].0) then Some(table[0].1)
    else
      var r := LookupIgnoreCase(table[1..], key);
      assert r.Some? ==> exists i :: 1 <= i < |table| && table[i].1 == r.value && Upper(table[i].0) == Upper(key) by {
        if r.Some? {
          var i :| 0 <= i < |table[1..]| && table[1..][i].1 == r.value && Upper(table[1..][i].0) == Upper(key);
          assert table[i + 1] == table[1..][i];
        }
      }
      r
  }

  /**
   * `normalize_reporter`: the stripped abbreviation looked up as written,
   * then regardless of case, and returned stripped when neither matches.
   */
  function NormalizeReporter(reporter: string): string {
    var t := Strip(reporter);
    match Lookup(ReporterNormalizations, t)
    case Some(v) => v
    case None =>
      match LookupIgnoreCase(ReporterNormalizations, t)
      case Some(v) => v
      case None => t
  }

  /** The normalised forms the table produces. */
  const NormalForms: seq<string> := ["F.3d", "F.2d", "F.", "U.S.", "S. Ct.", "F. Supp. 3d", "F. Supp. 2d", "F. Supp."]

  lemma ValuesAreNormalForms()
    ensures forall i :: 0 <= i < |ReporterNormalizations| ==> ReporterNormalizations[i].1 in NormalForms
  {
  }

  /** Every normalised form is its own key, and has no surrounding whitespace. */
  lemma NormalFormFixed(v: string)
    requires v in NormalForms
    ensures Lookup(ReporterNormalizations, v) == Some(v)
    ensures Strip(v) == v
  {
    StripOfTrimmed(v);
    if v in NormalForms[..4] {
      EarlyFormsFixed(v);
    } else {
      LateFormsFixed(v);
    }
  }

  lemma EarlyFormsFixed(v: string)
    requires v in NormalForms[..4]
    ensures Lookup(ReporterNormalizations, v) == Some(v)
  {
    var T := ReporterNormalizations;
    if v == "F.3d" {
      LookupFirst(T, v, 1);
    } else if v == "F.2d" {
      LookupFirst(T, v, 3);
    } else if v == "F." {
      LookupFirst(T, v, 5);
    } else {
      LookupFirst(T, v, 7);
    }
  }

  lemma LateFormsFixed(v: string)
    requires v in NormalForms[4..]
    ensures Lookup(ReporterNormalizations, v) == Some(v)
  {
    if v == "S. Ct." {
      SCtFixed();
    } else if v == "F. Supp. 3d" {
      LookupFirst(ReporterNormalizations, v, 13);
    } else if v == "F. Supp. 2d" {
      LookupFirst(ReporterNormalizations, v, 16);
    } else {
      LookupFirst(ReporterNormalizations, v, 19);
    }
  }

  lemma SCtFixed()
    ensures Lookup(ReporterNormalizations, "S. Ct.") == Some("S. Ct.")
  {
    var T := ReporterNormalizations;
    assert forall j :: 0 <= j < 10 ==> T[j].0 != "S. Ct.";
    LookupFirst(T, "S. Ct.", 10);
  }

  /** The entry found is the first one with the key. */
  lemma {:induction false} LookupFirst(table: seq<(string, string)>, key: string, i: nat)
    requires i < |table| && table[i].0 == key
    requires forall j :: 0 <= j < i ==> table[j].0 != key
    ensures Lookup(table, key) == Some(table[i].1)
    decreases i
  {
    if i > 0 {
      LookupFirst(table[1..], key, i - 1);
    }
  }

  /** The result is a normalised form from the table or the stripped input. */
  lemma NormalizeReporterSpec(reporter: string)
    ensures NormalizeReporter(reporter) in NormalForms || NormalizeReporter(reporter) == Strip(reporter)
    ensures Lookup(ReporterNormalizations, Strip(reporter)).Some? ==> NormalizeReporter(reporter) == Lookup(ReporterNormalizations, Strip(reporter)).value
  {
    ValuesAreNormalForms();
  }

  /** Normalising twice is normalising once. */
  lemma NormalizeReporterIdempotent(reporter: string)
    ensures NormalizeReporter(NormalizeReporter(reporter)) == NormalizeReporter(reporter)
  {
    var t := Strip(reporter);
    var r := NormalizeReporter(reporter);
    NormalizeReporterSpec(reporter);
    if r in NormalForms {
      NormalFormFixed(r);
    } else {
      StripSpec(reporter);
      StripOfTrimmed(t);
    }
  }

  /** A key of the table with no surrounding whitespace normalises to its own entry's value. */
  lemma NormalizeKey(key: string, i: nat)
    requires i < |ReporterNormalizations| && ReporterNormalizations[i].0 == key
    requires forall j :: 0 <= j < i ==> ReporterNormalizations[j].0 != key
    requires Strip(key) == key
    ensures NormalizeReporter(key) == ReporterNormalizations[i].1
  {
    LookupFirst(ReporterNormalizations, key, i);
  }

  // The reporter normalisations the renaming script's own checks expect.

  lemma NormalizeF3d()
    ensures NormalizeReporter("F3d") == "F.3d"
  {
    StripOfTrimmed("F3d");
    NormalizeKey("F3d", 0);
  }

  lemma NormalizeF2d()
    ensures NormalizeReporter("F2d") == "F.2d"
  {
    StripOfTrimmed("F2d");
    NormalizeKey("F2d", 2);
  }

  lemma NormalizeUS()
    ensures NormalizeReporter("US") == "U.S."
  {
    StripOfTrimmed("US");
    NormalizeKey("US", 6);
  }

  lemma NormalizeSCt()
    ensures NormalizeReporter("SCt") == "S. Ct."
  {
    StripOfTrimmed("SCt");
    NormalizeKey("SCt", 8);
  }

  lemma NormalizeSCtDotted()
    ensures NormalizeReporter("S.Ct.") == "S. Ct."
  {
    StripOfTrimmed("S.Ct.");
    NormalizeKey("S.Ct.", 9);
  }

  lemma NormalizeFSupp2d()
    ensures NormalizeReporter("FSupp2d") == "F. Supp. 2d"
  {
    StripOfTrimmed("FSupp2d");
    NormalizeKey("FSupp2d", 14);
  }

  lemma NormalizeFSupp3d()
    ensures NormalizeReporter("FSupp3d") == "F. Supp. 3d"
  {
    StripOfTrimmed("FSupp3d");
    NormalizeKey("FSupp3d", 11);
  }

  // ---------------------------------------------------------------------------
  // Capitalisation

  /**
   * `smart_capitalize`: the parts around apostrophes, else around hyphens,
   * capitalised one by one; a leading "Mc" or "Mac" kept with the rest
   * capitalised; otherwise `word.capitalize()`.
   */
  function SmartCapitalize(word: string): string {
    if word == [] then word
    else if '\'' in word then CapitalizeParts(word, '\'')
    else if '-' in word then CapitalizeParts(word, '-')
    else if StartsWith(Lower(word), "mc") && |word| > 2 then "Mc" + Capitalize(word[2..])
    else if StartsWith(Lower(word), "mac") && |word| > 3 then "Mac" + Capitalize(word[3..])
    else Capitalize(word)
  }

  /** A prefix whose lower case is given can be written in that case. */
  lemma PrefixSameLetters(word: string, p: string, k: nat)
    requires k <= |word| && |p| == k && Lower(p) == Lower(word[..k])
    ensures SameLetters(p + Capitalize(word[k..]), word)
  {
    CapitalizeSameLetters(word[k..]);
    assert word == word[..k] + word[k..];
    SameLettersConcat(p, Capitalize(word[k..]), word[..k], word[k..]);
  }

  /** A word that starts with "mac" does not start with "mc". */
  lemma MacNotMc(word: string)
    ensures StartsWith(Lower(word), "mac") ==> !StartsWith(Lower(word), "mc")
  {
    if StartsWith(Lower(word), "mac") {
      assert Lower(word)[1] == "mac"[1] == 'a';
      assert "mc"[1] == 'c';
    }
  }

  /** `smart_capitalize` changes only the case of letters. */
  lemma SmartCapitalizeSameLetters(word: string)
    ensures SameLetters(SmartCapitalize(word), word)
  {
    if word == [] {
    } else if '\'' in word {
      CapitalizePartsSpec(word, '\'');
    } else if '-' in word {
      CapitalizePartsSpec(word, '-');
    } else if StartsWith(Lower(word), "mc") && |word| > 2 {
      assert Lower(word[..2]) == Lower(word)[..2] == Lower("Mc");
      PrefixSameLetters(word, "Mc", 2);
    } else if StartsWith(Lower(word), "mac") && |word| > 3 {
      assert Lower(word[..3]) == Lower(word)[..3] == Lower("Mac");
      PrefixSameLetters(word, "Mac", 3);
    } else {
      CapitalizeSameLetters(word);
    }
  }

  /** A word with the separator comes out with its parts around it capitalised one by one. */
  lemma SmartCapitalizeParts(word: string, sep: char)
    requires sep == '\'' || ('\'' !in word && sep == '-')
    requires sep in word
    ensures Split(SmartCapitalize(word), sep) == MapSeq(Capitalize, Split(word, sep))
  {
    CapitalizePartsSplit(word, sep);
  }

  /** A leading "Mc" or "Mac" is kept, and the letter after it is a capital. */
  lemma SmartCapitalizePrefix(word: string)
    requires '\'' !in word && '-' !in word
    ensures |word| > 2 && StartsWith(Lower(word), "mc") ==>
      SmartCapitalize(word) == "Mc" + Capitalize(word[2..]) && SmartCapitalize(word)[2] == ToUpperChar(word[2])
    ensures |word| > 3 && StartsWith(Lower(word), "mac") ==>
      SmartCapitalize(word) == "Mac" + Capitalize(word[3..]) && SmartCapitalize(word)[3] == ToUpperChar(word[3])
    ensures !(|word| > 2 && StartsWith(Lower(word), "mc")) && !(|word| > 3 && StartsWith(Lower(word), "mac"))
      ==> SmartCapitalize(word) == Capitalize(word)
  {
    MacNotMc(word);
  }

  /**
   * `smart_capitalize` changes only the case of letters: with an apostrophe,
   * the parts around apostrophes come out capitalised one by one; otherwise,
   * with a hyphen, the parts around hyphens; otherwise a leading "Mc" or
   * "Mac" is kept with an inner capital after it; otherwise the word is
   * capitalised.
   */
  lemma SmartCapitalizeSpec(word: string)
    ensures SameLetters(SmartCapitalize(word), word)
    ensures '\'' in word ==> Split(SmartCapitalize(word), '\'') == MapSeq(Capitalize, Split(word, '\''))
    ensures '\'' !in word && '-' in word ==> Split(SmartCapitalize(word), '-') == MapSeq(Capitalize, Split(word, '-'))
    ensures '\'' !in word && '-' !in word && |word| > 2 && StartsWith(Lower(word), "mc") ==>
      SmartCapitalize(word) == "Mc" + Capitalize(word[2..]) && SmartCapitalize(word)[2] == ToUpperChar(word[2])
    ensures '\'' !in word && '-' !in word && |word| > 3 && StartsWith(Lower(word), "mac") ==>
      SmartCapitalize(word) == "Mac" + Capitalize(word[3..]) && SmartCapitalize(word)[3] == ToUpperChar(word[3])
    ensures ('\'' !in word && '-' !in word && !(|word| > 2 && StartsWith(Lower(word), "mc"))
             && !(|word| > 3 && StartsWith(Lower(word), "mac")))
      ==> SmartCapitalize(word) == Capitalize(word)
  {
    SmartCapitalizeSameLetters(word);
    if '\'' in word {
      SmartCapitalizeParts(word, '\'');
    } else if '-' in word {
      SmartCapitalizeParts(word, '-');
    } else {
      SmartCapitalizePrefix(word);
    }
  }

  const LowercaseWords: set<string> := {"of", "the", "in", "at", "by", "for", "on", "and", "or", "a", "an"}
  const UppercaseAbbrevs: set<string> := {"U.S.", "US", "USA", "FBI", "CIA", "IRS", "DOJ", "SEC", "FTC"}

  /** `word.upper() in uppercase_abbrevs or word in uppercase_abbrevs` */
  predicate IsAbbrev(word: string) {
    Upper(word) in UppercaseAbbrevs || word in UppercaseAbbrevs
  }

  /** One word of `title_case_party` at position `i`. */
  function TitleWord(i: nat, word: string): string {
    if IsAbbrev(word) then
      if Upper(word) == "U.S." || Upper(word) == "US" then "U.S." else Upper(word)
    else if i == 0 then SmartCapitalize(word)
    else if Lower(word) in LowercaseWords then Lower(word)
    else SmartCapitalize(word)
  }

  /**
   * Each word changes only in case, except that "US" in any case becomes
   * "U.S."; abbreviations come out in capitals and the small words after the
   * first in lower case.
   */
  lemma TitleWordSpec(i: nat, word: string)
    ensures Upper(word) == "US" ==> TitleWord(i, word) == "U.S."
    ensures Upper(word) != "US" ==> SameLetters(TitleWord(i, word), word)
    ensures Upper(word) in UppercaseAbbrevs && Upper(word) != "US" ==> TitleWord(i, word) == Upper(word)
    ensures i > 0 && !IsAbbrev(word) && Lower(word) in LowercaseWords ==> TitleWord(i, word) == Lower(word)
    ensures !IsAbbrev(word) && (i == 0 || Lower(word) !in LowercaseWords) ==> TitleWord(i, word) == SmartCapitalize(word)
  {
    if IsAbbrev(word) {
      TitleWordAbbrev(i, word);
    } else {
      SmartCapitalizeSpec(word);
      LowerSameLetters(word);
    }
  }

  lemma TitleWordAbbrev(i: nat, word: string)
    requires IsAbbrev(word)
    ensures Upper(word) == "US" ==> TitleWord(i, word) == "U.S."
    ensures Upper(word) != "US" ==> SameLetters(TitleWord(i, word), word) && TitleWord(i, word) == Upper(word)
  {
    UpperSameLetters(word);
  }

  /** `title_case_party`: the words of `party`, each title-cased by its position, joined by single spaces. */
  function TitleCaseParty(party: string): string {
    Join(MapIndexed(TitleWord, SplitWs(party)), " ")
  }

  /** A string differing from a word only in case is a word. */
  lemma SameLettersWord(a: string, w: string)
    requires SameLetters(a, w) && IsWord(w)
    ensures IsWord(a)
  {
    SameLettersLength(a, w);
    forall j | 0 <= j < |a|
      ensures !IsSpace(a[j])
    {
      assert Lower(a)[j] == Lower(w)[j];
    }
  }

  /** The words of the title-cased name are the words of the name, each title-cased in its place. */
  lemma TitleCasePartySpec(party: string)
    ensures SplitWs(TitleCaseParty(party)) == MapIndexed(TitleWord, SplitWs(party))
    ensures |SplitWs(TitleCaseParty(party))| == |SplitWs(party)|
  {
    var ws := SplitWs(party);
    var ts := MapIndexed(TitleWord, ws);
    SplitWsWords(party);
    MapIndexedSpec(TitleWord, ws);
    forall k | 0 <= k < |ts|
      ensures IsWord(ts[k])
    {
      TitleWordSpec(k, ws[k]);
      if Upper(ws[k]) != "US" {
        SameLettersWord(ts[k], ws[k]);
      }
    }
    SplitWsJoin(ts);
  }

  // ---------------------------------------------------------------------------
  // File names

  /** The `replacements` of `sanitize_filename`, in insertion order. */
  const Replacements: seq<(char, string)> := [
    ('<', "("), ('>', ")"), (':', "-"), ('"', "'"), ('/', "-"),
    ('\\', "-"), ('|', "-"), ('?', ""), ('*', ""), ('\0', "")]

  /** The table replaces no whitespace, and its replacement texts hold none of the replaced characters. */
  lemma ReplacementsClosed()
    ensures ClosedTable(Replacements)
    ensures forall i :: 0 <= i < |Replacements| ==> !IsSpace(Replacements[i].0)
  {
    ClosedBy(Replacements, {'(', ')', '-', '\''});
  }

  /** `sanitize_filename` */
  function SanitizeFilename(filename: string): string {
    SanitizeWith(Replacements, filename)
  }

  /** The sanitised name holds no replaced character, is single-spaced and has no surrounding whitespace. */
  lemma SanitizeFilenameSpec(filename: string)
    ensures forall i :: 0 <= i < |Replacements| ==> Replacements[i].0 !in SanitizeFilename(filename)
    ensures SingleSpaced(SanitizeFilename(filename))
    ensures SanitizeFilename(filename) == Strip(SanitizeFilename(filename))
  {
    ReplacementsClosed();
    SanitizeWithSpec(Replacements, filename);
  }

  /** `sanitize_filename` is idempotent. */
  lemma SanitizeFilenameIdempotent(filename: string)
    ensures SanitizeFilename(SanitizeFilename(filename)) == SanitizeFilename(filename)
  {
    ReplacementsClosed();
    SanitizeWithIdempotent(Replacements, filename);
  }

  /** The string fields of an index entry; a missing key reads as "". */
  datatype CaseFields = CaseFields(caseName: string, volume: string, reporter: string, page: string, year: string, court: string)

  /**
   * `generate_bluebook_filename`: none unless the stripped case name,
   * volume, reporter, page and year are all given; otherwise "Name, Vol
   * Reporter Page (Court Year)", the court left out when it is not named,
   * sanitised.  `normalizeName` is the pattern-based `normalize_case_name`.
   */
  function GenerateBluebookFilename(c: CaseFields, normalizeName: string -> string): Option<string> {
    var name, volume, reporter, page := Strip(c.caseName), Strip(c.volume), Strip(c.reporter), Strip(c.page);
    var year, court := Strip(c.year), Strip(c.court);
    if name == "" || volume == "" || reporter == "" || page == "" || year == "" then None
    else
      var n, r := normalizeName(name), NormalizeReporter(reporter);
      var paren := if NamedCourt(court) then court + " " + year else year;
      Some(SanitizeFilename(n + ", " + volume + " " + r + " " + page + " (" + paren + ")"))
  }

  /** A file name exists exactly when the five required fields are present, and it is always safe. */
  lemma GenerateBluebookFilenameSpec(c: CaseFields, normalizeName: string -> string)
    ensures GenerateBluebookFilename(c, normalizeName).None? <==>
      Strip(c.caseName) == "" || Strip(c.volume) == "" || Strip(c.reporter) == "" || Strip(c.page) == "" || Strip(c.year) == ""
    ensures GenerateBluebookFilename(c, normalizeName).Some? ==>
      var f := GenerateBluebookFilename(c, normalizeName).value;
      && (forall i :: 0 <= i < |Replacements| ==> Replacements[i].0 !in f)
      && SingleSpaced(f) && f == Strip(f)
  {
    var r := GenerateBluebookFilename(c, normalizeName);
    if r.Some? {
      var name, volume, page := Strip(c.caseName), Strip(c.volume), Strip(c.page);
      var year, court := Strip(c.year), Strip(c.court);
      var paren := if NamedCourt(court) then court + " " + year else year;
      SanitizeFilenameSpec(normalizeName(name) + ", " + volume + " " + NormalizeReporter(Strip(c.reporter)) + " " + page + " (" + paren + ")");
    }
  }

  /** A court of "U.S." or "US", like a missing one, leaves the parenthetical with the year alone. */
  lemma GenerateBluebookFilenameUnnamedCourt(c: CaseFields, normalizeName: string -> string)
    requires !NamedCourt(Strip(c.court))
    ensures GenerateBluebookFilename(c, normalizeName) == GenerateBluebookFilename(c.(court := ""), normalizeName)
  {
    assert Strip("") == "";
  }
}
