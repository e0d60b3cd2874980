/**
 * The rules of the PDF export that do not depend on the page layout: the
 * ordinal date of the signature block, which pages carry a number, the
 * singular or plural party labels of the caption, the escaping of
 * paragraph text, the grouping of subsection headings by paragraph, and
 * the order in which paragraphs are emitted.
 *
 * Fonts, styles, spacers and the drawing itself are not part of this model.
 */
module PdfExport {
  import opened Wrappers
  import opened Text
  import opened OrderedMap
  import opened Sorting
  import opened DocumentModel

  // ---------------------------------------------------------------------------
  // Ordinal dates

  /** A calendar date as `datetime` holds it. */
  datatype Date = Date(year: nat, month: nat, day: nat)

  /** `%B` in the English locale. */
  const MonthNames: seq<string> := ["January", "February", "March", "April", "May", "June", "July",
    "August", "September", "October", "November", "December"]

  predicate IsLeapYear(y: nat) {
    y % 4 == 0 && (y % 100 != 0 || y % 400 == 0)
  }

  function DaysInMonth(y: nat, m: nat): nat
    requires 1 <= m <= 12
  {
    if m == 2 then (if IsLeapYear(y) then 29 else 28)
    else if m == 4 || m == 6 || m == 9 || m == 11 then 30
    else 31
  }

  /** A date `datetime` accepts: year from 1, month 1..12, and a day the month has. */
  predicate ValidDate(d: Date) {
    1 <= d.year && 1 <= d.month <= 12 && 1 <= d.day <= DaysInMonth(d.year, d.month)
  }

  function DigitValue(c: char): nat
    requires IsDigitChar(c)
  {
    c as int - '0' as int
  }

  /** What `%m` accepts: `1[0-2]`, `0[1-9]` or `[1-9]`. */
  function MonthField(t: string): Option<nat> {
    if |t| == 1 && '1' <= t[0] <= '9' then Some(DigitValue(t[0]))
    else if |t| == 2 && t[0] == '0' && '1' <= t[1] <= '9' then Some(DigitValue(t[1]))
    else if |t| == 2 && t[0] == '1' && '0' <= t[1] <= '2' then Some(10 + DigitValue(t[1]))
    else None
  }

  /** What `%d` accepts: `3[01]`, `[12]` and a digit, `0[1-9]`, `[1-9]`, or a space and `[1-9]`. */
  function DayField(t: string): Option<nat> {
    if |t| == 1 && '1' <= t[0] <= '9' then Some(DigitValue(t[0]))
    else if |t| == 2 && t[0] == '3' && '0' <= t[1] <= '1' then Some(30 + DigitValue(t[1]))
    else if |t| == 2 && '1' <= t[0] <= '2' && IsDigitChar(t[1]) then Some(10 * DigitValue(t[0]) + DigitValue(t[1]))
    else if |t| == 2 && (t[0] == '0' || t[0] == ' ') && '1' <= t[1] <= '9' then Some(DigitValue(t[1]))
    else None
  }

  /** What `%Y` accepts: exactly four digits. */
  function YearField(t: string): Option<nat> {
    if |t| == 4 && IsDigits(t) then Some(DigitsValue(t)) else None
  }

  /**
   * `datetime.strptime(s, "%m/%d/%Y")`: the three fields lie between the two
   * slashes, each must have its directive's shape, and the date must exist;
   * anything else raises `ValueError` (`None`).
   */
  function ParseDate(s: string): Option<Date> {
    var parts := Split(s, '/');
    if |parts| != 3 then None
    else
      var m := MonthField(parts[0]);
      var d := DayField(parts[1]);
      var y := YearField(parts[2]);
      if m.None? || d.None? || y.None? then None
      else if ValidDate(Date(y.value, m.value, d.value)) then Some(Date(y.value, m.value, d.value))
      else None
  }

  /** The English ordinal suffix of a day of the month. */
  function OrdinalSuffix(day: nat): string {
    if 11 <= day <= 13 then "th"
    else if day % 10 == 1 then "st"
    else if day % 10 == 2 then "nd"
    else if day % 10 == 3 then "rd"
    else "th"
  }

  /** "st" only for the 1st, 21st and 31st, "nd" for the 2nd and 22nd, "rd" for the 3rd and 23rd. */
  lemma OrdinalSuffixSpec(day: nat)
    requires 1 <= day <= 31
    ensures OrdinalSuffix(day) == "st" <==> day in {1, 21, 31}
    ensures OrdinalSuffix(day) == "nd" <==> day in {2, 22}
    ensures OrdinalSuffix(day) == "rd" <==> day in {3, 23}
    ensures OrdinalSuffix(day) == "th" <==> day !in {1, 2, 3, 21, 22, 23, 31}
  {
  }

  /** `f"{day}{suffix} day of {month}, {year}"` */
  function OrdinalDate(d: Date): string
    requires 1 <= d.month <= 12
  {
    NatToString(d.day) + OrdinalSuffix(d.day) + " day of " + MonthNames[d.month - 1] + ", " + NatToString(d.year)
  }

  /** `_format_date_ordinal`: the ordinal form of a parsable date, else the input unchanged. */
  function FormatDateOrdinal(s: string): string {
    match ParseDate(s)
    case Some(d) => OrdinalDate(d)
    case None => s
  }

  /** Two decimal digits, zero-padded. */
  function Pad2(n: nat): string
    requires n < 100
  {
    [DigitChar(n / 10), DigitChar(n % 10)]
  }

  /** Four decimal digits, zero-padded. */
  function Pad4(n: nat): string
    requires n < 10000
  {
    [DigitChar(n / 1000), DigitChar(n / 100 % 10), DigitChar(n / 10 % 10), DigitChar(n % 10)]
  }

  /** The date written `MM/DD/YYYY`, as the date fields of the application hold it. */
  function MDY(d: Date): string
    requires d.month < 100 && d.day < 100 && d.year < 10000
  {
    Pad2(d.month) + "/" + Pad2(d.day) + "/" + Pad4(d.year)
  }

  lemma MonthFieldPad2(m: nat)
    requires 1 <= m <= 12
    ensures MonthField(Pad2(m)) == Some(m)
  {
  }

  lemma DayFieldPad2(d: nat)
    requires 1 <= d <= 31
    ensures DayField(Pad2(d)) == Some(d)
  {
  }

  lemma YearFieldPad4(y: nat)
    requires y < 10000
    ensures YearField(Pad4(y)) == Some(y)
  {
    var t := Pad4(y);
    var a, b, c, d := y / 1000, y / 100 % 10, y / 10 % 10, y % 10;
    assert t[..1][..0] == [];
    assert DigitsValue(t[..1]) == a;
    assert t[..2][..1] == t[..1];
    assert DigitsValue(t[..2]) == a * 10 + b;
    assert t[..3][..2] == t[..2];
    assert DigitsValue(t[..3]) == (a * 10 + b) * 10 + c;
    assert t[..4][..3] == t[..3] && t[..4] == t;
    assert y / 10 == (y / 100) * 10 + c;
    assert y / 100 == a * 10 + b;
  }

  /** Every valid date written `MM/DD/YYYY` parses back to itself. */
  lemma ParseDateMDY(d: Date)
    requires ValidDate(d) && d.year < 10000
    ensures ParseDate(MDY(d)) == Some(d)
  {
    var m := Pad2(d.month);
    var dd := Pad2(d.day);
    var y := Pad4(d.year);
    assert MDY(d) == m + ['/'] + (dd + ['/'] + y);
    SplitCons(m, dd + ['/'] + y, '/');
    SplitCons(dd, y, '/');
    SplitNoSep(y, '/');
    MonthFieldPad2(d.month);
    DayFieldPad2(d.day);
    YearFieldPad4(d.year);
  }

  /** A valid date written `MM/DD/YYYY` is rendered in the ordinal form. */
  lemma FormatDateMDY(d: Date)
    requires ValidDate(d) && d.year < 10000
    ensures FormatDateOrdinal(MDY(d)) == OrdinalDate(d)
  {
    ParseDateMDY(d);
  }

  /** A parsable string holds only digits, slashes and spaces. */
  lemma ParsedChars(s: string, c: char)
    requires ParseDate(s).Some? && c in s
    ensures IsDigitChar(c) || c == '/' || c == ' '
  {
    var parts := Split(s, '/');
    JoinSplit(s, '/');
    JoinChars(parts, "/", c);
    if c != '/' {
      var i :| 0 <= i < |parts| && c in parts[i];
      var k :| 0 <= k < |parts[i]| && parts[i][k] == c;
      if i == 2 {
        assert IsDigits(parts[2]);
      }
    }
  }

  /** The input comes back unchanged exactly when it does not parse. */
  lemma FormatDateUnchanged(s: string)
    ensures FormatDateOrdinal(s) == s <==> ParseDate(s).None?
  {
    if ParseDate(s).Some? {
      var d := ParseDate(s).value;
      var r := OrdinalDate(d);
      var a := NatToString(d.day) + OrdinalSuffix(d.day);
      assert r == a + " day of " + MonthNames[d.month - 1] + ", " + NatToString(d.year);
      assert r[|a| + 3] == 'y';
      if r == s {
        ParsedChars(s, 'y');
      }
    }
  }

  /** The example of the docstring. */
  lemma FormatDateExample()
    ensures FormatDateOrdinal("11/23/2025") == "23" + "rd" + " day of " + "November" + ", " + "2025"
  {
    var d := Date(2025, 11, 23);
    ParseExample();
    OrdinalExample();
  }

  lemma ParseExample()
    ensures ParseDate("11/23/2025") == Some(Date(2025, 11, 23))
  {
    var d := Date(2025, 11, 23);
    assert Pad2(11) == "11" && Pad2(23) == "23";
    assert Pad4(2025) == "2025";
    assert MDY(d) == "11/23/2025";
    ParseDateMDY(d);
  }

  lemma OrdinalExample()
    ensures OrdinalDate(Date(2025, 11, 23)) == "23" + "rd" + " day of " + "November" + ", " + "2025"
  {
    var d := Date(2025, 11, 23);
    var day, year, month := NatToString(23), NatToString(2025), MonthNames[10];
    assert OrdinalDate(d) == day + OrdinalSuffix(23) + " day of " + month + ", " + year;
    NumeralExamples();
    assert month == "November";
  }

  lemma NumeralExamples()
    ensures NatToString(23) == "23" && NatToString(2025) == "2025"
  {
    assert NatToString(2) == "2";
    assert NatToString(20) == "20";
    assert NatToString(202) == "202";
  }

  lemma SplitExample()
    ensures Split("02/30/2025", '/') == ["02", "30", "2025"]
  {
    assert "02/30/2025" == "02" + ['/'] + ("30" + ['/'] + "2025");
    SplitCons("02", "30" + ['/'] + "2025", '/');
    SplitCons("30", "2025", '/');
    SplitNoSep("2025", '/');
  }

  /** A date the calendar lacks is returned as written. */
  lemma FormatDateInvalidExample()
    ensures FormatDateOrdinal("02/30/2025") == "02/30/2025"
  {
    SplitExample();
    var parts := Split("02/30/2025", '/');
    assert MonthField(parts[0]) == Some(2) && DayField(parts[1]) == Some(30);
    var y := YearField(parts[2]);
    if y.Some? {
      assert DaysInMonth(y.value, 2) <= 29;
      assert !ValidDate(Date(y.value, 2, 30));
    }
    assert ParseDate("02/30/2025").None?;
  }

  // ---------------------------------------------------------------------------
  // Page numbers

  /** `_add_page_number`: nothing on the first page, the page number on every other. */
  function PageNumberText(page: int): Option<string> {
    if page == 1 then None else Some(IntToString(page))
  }

  /** Only page 1 is unnumbered, and every later page shows its own number. */
  lemma PageNumberSpec(page: int)
    ensures PageNumberText(page).None? <==> page == 1
    ensures page >= 2 ==> ParseNat(PageNumberText(page).value) == Some(page)
  {
    if page >= 2 {
      ParseNatToString(page);
    }
  }

  // ---------------------------------------------------------------------------
  // Caption labels

  /** A party text names several parties when it holds a comma or `ET AL`. */
  predicate IsPluralParty(text: string) {
    Contains(text, ",") || Contains(text, "ET AL")
  }

  /** The label beside the plaintiffs in the caption, judged on the upper-cased name. */
  function PlaintiffLabel(plaintiff: string): string {
    if IsPluralParty(Upper(plaintiff)) then "PLAINTIFFS" else "PLAINTIFF"
  }

  /** The label beside the defendants in the caption, judged on the upper-cased name. */
  function DefendantLabel(defendant: string): string {
    if IsPluralParty(Upper(defendant)) then "DEFENDANTS" else "DEFENDANT"
  }

  /** Upper-casing keeps commas where they are. */
  lemma UpperComma(s: string)
    ensures ',' in Upper(s) <==> ',' in s
  {
    if ',' in Upper(s) {
      var i :| 0 <= i < |s| && Upper(s)[i] == ',';
      assert s[i] == ',';
    }
    if ',' in s {
      var i :| 0 <= i < |s| && s[i] == ',';
      assert Upper(s)[i] == ',';
    }
  }

  /**
   * The label is plural exactly when the name has a comma or, in any letter
   * case, `et al`; it is the singular label otherwise.
   */
  lemma CaptionLabelSpec(name: string)
    ensures PlaintiffLabel(name) in {"PLAINTIFF", "PLAINTIFFS"}
    ensures PlaintiffLabel(name) == "PLAINTIFFS" <==> ',' in name || Contains(Upper(name), "ET AL")
    ensures DefendantLabel(name) in {"DEFENDANT", "DEFENDANTS"}
    ensures DefendantLabel(name) == "DEFENDANTS" <==> ',' in name || Contains(Upper(name), "ET AL")
  {
    ContainsChar(Upper(name), ',');
    UpperComma(name);
  }

  /** Letter case does not change the labels. */
  lemma CaptionLabelIgnoresCase(name: string)
    ensures PlaintiffLabel(Lower(name)) == PlaintiffLabel(name)
    ensures DefendantLabel(Lower(name)) == DefendantLabel(name)
  {
    UpperLower(name);
  }

  // ---------------------------------------------------------------------------
  // Paragraph text

  /** `text.replace('&', '&amp;').replace('<', '&lt;').replace('>', '&gt;')` */
  function SafeText(text: string): string {
    Replace(Replace(Replace(text, "&", "&amp;"), "<", "&lt;"), ">", "&gt;")
  }

  /** The entity one character becomes. */
  function EscapeChar(c: char): string {
    if c == '&' then "&amp;" else if c == '<' then "&lt;" else if c == '>' then "&gt;" else [c]
  }

  /** Each character replaced by its entity, independently of the others. */
  function EscapeEach(s: string): string {
    if s == [] then [] else EscapeChar(s[0]) + EscapeEach(s[1..])
  }

  /** Reading the three entities back as the characters they stand for. */
  function Unescape(t: string): string
    decreases |t|
  {
    if t == [] then []
    else if StartsWith(t, "&amp;") then "&" + Unescape(t[5..])
    else if StartsWith(t, "&lt;") then "<" + Unescape(t[4..])
    else if StartsWith(t, "&gt;") then ">" + Unescape(t[4..])
    else [t[0]] + Unescape(t[1..])
  }

  /** Replacing a one-character string, character by character. */
  function SubstChar(s: string, c: char, rep: string): string {
    if s == [] then [] else (if s[0] == c then rep else [s[0]]) + SubstChar(s[1..], c, rep)
  }

  lemma {:induction false} ReplaceOneChar(s: string, c: char, rep: string)
    ensures Replace(s, [c], rep) == SubstChar(s, c, rep)
    decreases |s|
  {
    if s != [] {
      ReplaceOneChar(s[1..], c, rep);
      assert s[..1] == [s[0]];
    }
  }

  lemma {:induction false} SubstCharConcat(a: string, b: string, c: char, rep: string)
    ensures SubstChar(a + b, c, rep) == SubstChar(a, c, rep) + SubstChar(b, c, rep)
    decreases |a|
  {
    if a == [] {
      assert a + b == b;
    } else {
      assert (a + b)[0] == a[0] && (a + b)[1..] == a[1..] + b;
      SubstCharConcat(a[1..], b, c, rep);
      var h := if a[0] == c then rep else [a[0]];
      var x, y := SubstChar(a[1..], c, rep), SubstChar(b, c, rep);
      assert SubstChar(a + b, c, rep) == h + (x + y);
      assert SubstChar(a, c, rep) == h + x;
      assert h + (x + y) == (h + x) + y;
    }
  }

  lemma SubstCharSingle(x: char, c: char, rep: string)
    ensures SubstChar([x], c, rep) == if x == c then rep else [x]
  {
    assert [x][1..] == [];
  }

  /** A character other than `c` is left as it is, and so is a string without `c`. */
  lemma {:induction false} SubstCharAbsent(s: string, c: char, rep: string)
    requires c !in s
    ensures SubstChar(s, c, rep) == s
    decreases |s|
  {
    if s != [] {
      SubstCharAbsent(s[1..], c, rep);
    }
  }

  /** The three substitutions, `&` first. */
  function Subst3(s: string): string {
    SubstChar(SubstChar(SubstChar(s, '&', "&amp;"), '<', "&lt;"), '>', "&gt;")
  }

  lemma Subst3Concat(a: string, b: string)
    ensures Subst3(a + b) == Subst3(a) + Subst3(b)
  {
    SubstCharConcat(a, b, '&', "&amp;");
    var a1, b1 := SubstChar(a, '&', "&amp;"), SubstChar(b, '&', "&amp;");
    SubstCharConcat(a1, b1, '<', "&lt;");
    SubstCharConcat(SubstChar(a1, '<', "&lt;"), SubstChar(b1, '<', "&lt;"), '>', "&gt;");
  }

  /** On one character the chain yields that character's entity: `&` first keeps the new entities intact. */
  lemma Subst3Char(x: char)
    ensures Subst3([x]) == EscapeChar(x)
  {
    SubstCharSingle(x, '&', "&amp;");
    if x == '&' {
      SubstCharAbsent("&amp;", '<', "&lt;");
      SubstCharAbsent("&amp;", '>', "&gt;");
    } else if x == '<' {
      SubstCharSingle(x, '<', "&lt;");
      SubstCharAbsent("&lt;", '>', "&gt;");
    } else {
      SubstCharSingle(x, '<', "&lt;");
      SubstCharSingle(x, '>', "&gt;");
    }
  }

  lemma {:induction false} Subst3Each(s: string)
    ensures Subst3(s) == EscapeEach(s)
    decreases |s|
  {
    if s != [] {
      assert s == [s[0]] + s[1..];
      Subst3Concat([s[0]], s[1..]);
      Subst3Char(s[0]);
      Subst3Each(s[1..]);
    }
  }

  /** The three chained replacements escape each character on its own. */
  lemma SafeTextEach(s: string)
    ensures SafeText(s) == EscapeEach(s)
  {
    ReplaceOneChar(s, '&', "&amp;");
    var s1 := SubstChar(s, '&', "&amp;");
    ReplaceOneChar(s1, '<', "&lt;");
    ReplaceOneChar(SubstChar(s1, '<', "&lt;"), '>', "&gt;");
    Subst3Each(s);
  }

  /** Escaped text holds no raw `<` or `>`. */
  lemma {:induction false} EscapeEachNoAngles(s: string)
    ensures '<' !in EscapeEach(s) && '>' !in EscapeEach(s)
    decreases |s|
  {
    if s != [] {
      EscapeEachNoAngles(s[1..]);
    }
  }

  /** Unescaping the escaped text gives the text back. */
  lemma {:induction false} UnescapeEscape(s: string)
    ensures Unescape(EscapeEach(s)) == s
    decreases |s|
  {
    if s != [] {
      UnescapeEscape(s[1..]);
      UnescapeHead(s[0], EscapeEach(s[1..]));
    }
  }

  /** An entity at the front is read back as its one character. */
  lemma UnescapeHead(x: char, rest: string)
    ensures Unescape(EscapeChar(x) + rest) == [x] + Unescape(rest)
  {
    if x == '&' {
      UnescapeAmp(rest);
    } else if x == '<' {
      UnescapeLt(rest);
    } else if x == '>' {
      UnescapeGt(rest);
    } else {
      UnescapePlain(x, rest);
    }
  }

  lemma UnescapeAmp(rest: string)
    ensures Unescape("&amp;" + rest) == "&" + Unescape(rest)
  {
    var e := "&amp;" + rest;
    assert e[..5] == "&amp;" && e[5..] == rest;
  }

  lemma UnescapeLt(rest: string)
    ensures Unescape("&lt;" + rest) == "<" + Unescape(rest)
  {
    var e := "&lt;" + rest;
    assert e[..4] == "&lt;" && e[4..] == rest;
    assert |e| >= 5 ==> e[..5][1] == 'l';
  }

  lemma UnescapeGt(rest: string)
    ensures Unescape("&gt;" + rest) == ">" + Unescape(rest)
  {
    var e := "&gt;" + rest;
    assert e[..4] == "&gt;" && e[4..] == rest;
    assert |e| >= 5 ==> e[..5][1] == 'g';
    assert e[..4][1] == 'g';
  }

  lemma UnescapePlain(x: char, rest: string)
    requires x != '&'
    ensures Unescape([x] + rest) == [x] + Unescape(rest)
  {
    var e := [x] + rest;
    assert e[0] == x;
    assert e[1..] == rest;
  }

  /** The paragraph as emitted: its number, three non-breaking spaces and the escaped text. */
  function ParagraphLine(p: Paragraph): string {
    IntToString(p.number) + ".&nbsp;&nbsp;&nbsp;" + SafeText(p.text)
  }

  /** An emitted paragraph holds no raw `<` or `>`, and its text can be read back. */
  lemma ParagraphLineSpec(p: Paragraph)
    ensures '<' !in ParagraphLine(p) && '>' !in ParagraphLine(p)
    ensures Unescape(SafeText(p.text)) == p.text
  {
    SafeTextEach(p.text);
    EscapeEachNoAngles(p.text);
    UnescapeEscape(p.text);
    var n := IntToString(p.number);
    assert forall i :: 0 <= i < |n| ==> n[i] == '-' || IsDigitChar(n[i]);
  }

  // ---------------------------------------------------------------------------
  // Emission order

  /** `sorted(paragraphs.keys())` */
  function EmitOrder(paragraphs: seq<Entry<int, Paragraph>>): seq<int> {
    SortInts(Keys(paragraphs))
  }

  /** The paragraphs' lines, in the order of the keys given. */
  function EmittedLines(paragraphs: seq<Entry<int, Paragraph>>, ks: seq<int>): seq<string> {
    if ks == [] then []
    else
      var prev := EmittedLines(paragraphs, ks[..|ks| - 1]);
      match Get(paragraphs, ks[|ks| - 1])
      case Some(p) => prev + [ParagraphLine(p)]
      case None => prev
  }

  /** Every emitted key is a key of the dictionary. */
  lemma EmitOrderKeys(paragraphs: seq<Entry<int, Paragraph>>, k: int)
    requires k in EmitOrder(paragraphs)
    ensures Get(paragraphs, k).Some?
  {
    SortIntsSpec(Keys(paragraphs));
    assert k in multiset(EmitOrder(paragraphs));
    var i :| 0 <= i < |paragraphs| && Keys(paragraphs)[i] == k;
    GetNone(paragraphs, k);
  }

  /**
   * The emitted keys are each key of the dictionary once, in strictly
   * ascending order.
   */
  lemma EmitOrderSpec(paragraphs: seq<Entry<int, Paragraph>>)
    requires DistinctKeys(paragraphs)
    ensures |EmitOrder(paragraphs)| == |paragraphs|
    ensures multiset(EmitOrder(paragraphs)) == multiset(Keys(paragraphs))
    ensures forall i, j :: 0 <= i < j < |EmitOrder(paragraphs)| ==> EmitOrder(paragraphs)[i] < EmitOrder(paragraphs)[j]
  {
    var ks := Keys(paragraphs);
    var o := EmitOrder(paragraphs);
    SortIntsSpec(ks);
    forall i, j | 0 <= i < j < |o| ensures o[i] < o[j] {
      if o[i] == o[j] {
        DistinctCount(ks, o[i]);
        CountTwo(o, i, j);
      }
    }
  }

  /** A value at two positions occurs at least twice. */
  lemma CountTwo(s: seq<int>, i: nat, j: nat)
    requires i < j < |s| && s[i] == s[j]
    ensures multiset(s)[s[i]] >= 2
  {
    assert s == s[..j] + s[j..];
    assert s[i] in s[..j];
    assert s[j..][0] == s[j];
  }

  /** In a list of distinct keys every key occurs at most once. */
  lemma {:induction false} DistinctCount(ks: seq<int>, k: int)
    requires forall i, j :: 0 <= i < j < |ks| ==> ks[i] != ks[j]
    ensures multiset(ks)[k] <= 1
  {
    if ks != [] {
      DistinctCount(ks[1..], k);
      assert ks == [ks[0]] + ks[1..];
      if ks[0] == k {
        assert k !in ks[1..];
      }
    }
  }

  /**
   * The paragraph loop of `generate_pdf`, reduced to the paragraphs' own
   * lines: one line per paragraph, in ascending key order.
   */
  method EmitParagraphs(paragraphs: seq<Entry<int, Paragraph>>) returns (lines: seq<string>)
    ensures lines == EmittedLines(paragraphs, EmitOrder(paragraphs))
    ensures |lines| == |paragraphs|
  {
    var order := EmitOrder(paragraphs);
    SortIntsSpec(Keys(paragraphs));
    lines := [];
    var i := 0;
    while i < |order|
      invariant 0 <= i <= |order|
      invariant lines == EmittedLines(paragraphs, order[..i])
      invariant |lines| == i
    {
      assert order[..i + 1][..i] == order[..i];
      assert order[i] in order;
      EmitOrderKeys(paragraphs, order[i]);
      var para := Get(paragraphs, order[i]).value;
      lines := lines + [ParagraphLine(para)];
      i := i + 1;
    }
    assert order[..i] == order;
  }

  // ---------------------------------------------------------------------------
  // Subsection headings

  /** One row of the outline: `(section, para_num, is_subsection, parent_id, display_letter)`. */
  datatype OutlineRow<T> = OutlineRow(section: T, paraNum: int, isSubsection: bool, parentId: string, displayLetter: string)

  /** The headings already grouped under paragraph `p`, or none yet. */
  function GroupAt<T>(m: seq<Entry<int, seq<(T, string)>>>, p: int): seq<(T, string)> {
    match Get(m, p)
    case Some(v) => v
    case None => []
  }

  /** `subsection_map` after the first `rows`: each subsection row appended under its paragraph number. */
  function SubsectionMap<T>(rows: seq<OutlineRow<T>>): seq<Entry<int, seq<(T, string)>>> {
    if rows == [] then []
    else
      var prev := SubsectionMap(rows[..|rows| - 1]);
      var r := rows[|rows| - 1];
      if !r.isSubsection then prev
      else
        var existing := GroupAt(prev, r.paraNum);
        Put(prev, r.paraNum, existing + [(r.section, r.displayLetter)])
  }

  /** The subsection rows at paragraph `p`, in outline order. */
  function SubsectionsAt<T>(rows: seq<OutlineRow<T>>, p: int): seq<(T, string)> {
    if rows == [] then []
    else
      var r := rows[|rows| - 1];
      SubsectionsAt(rows[..|rows| - 1], p) + (if r.isSubsection && r.paraNum == p then [(r.section, r.displayLetter)] else [])
  }

  /**
   * Paragraph `p` has an entry exactly when some subsection row names it,
   * and the entry lists those rows, in order; other rows are ignored.
   */
  lemma {:induction false} SubsectionMapSpec<T>(rows: seq<OutlineRow<T>>, p: int)
    ensures Get(SubsectionMap(rows), p) == if SubsectionsAt(rows, p) == [] then None else Some(SubsectionsAt(rows, p))
  {
    if rows != [] {
      var init := rows[..|rows| - 1];
      var r := rows[|rows| - 1];
      SubsectionMapSpec(init, p);
      if r.isSubsection {
        var prev := SubsectionMap(init);
        var existing := GroupAt(prev, r.paraNum);
        GetPut(prev, r.paraNum, existing + [(r.section, r.displayLetter)], p);
        assert SubsectionMap(rows) == Put(prev, r.paraNum, existing + [(r.section, r.displayLetter)]);
        if r.paraNum == p {
          assert existing == SubsectionsAt(init, p);
          assert SubsectionsAt(rows, p) == existing + [(r.section, r.displayLetter)];
        } else {
          assert SubsectionsAt(rows, p) == SubsectionsAt(init, p);
        }
      } else {
        assert SubsectionsAt(rows, p) == SubsectionsAt(init, p);
      }
    }
  }

  /** `subsection_map` never holds the same paragraph number twice. */
  lemma {:induction false} SubsectionMapDistinct<T>(rows: seq<OutlineRow<T>>)
    ensures DistinctKeys(SubsectionMap(rows))
  {
    if rows != [] {
      var init := rows[..|rows| - 1];
      var r := rows[|rows| - 1];
      SubsectionMapDistinct(init);
      if r.isSubsection {
        var prev := SubsectionMap(init);
        var existing := GroupAt(prev, r.paraNum);
        PutDistinct(prev, r.paraNum, existing + [(r.section, r.displayLetter)]);
      }
    }
  }

  /** The loop that fills `subsection_map` in `generate_pdf`. */
  method BuildSubsectionMap<T>(rows: seq<OutlineRow<T>>) returns (m: seq<Entry<int, seq<(T, string)>>>)
    ensures m == SubsectionMap(rows)
  {
    m := [];
    var i := 0;
    while i < |rows|
      invariant 0 <= i <= |rows|
      invariant m == SubsectionMap(rows[..i])
    {
      assert rows[..i + 1][..i] == rows[..i];
      var r := rows[i];
      if r.isSubsection {
        var entries := [];
        if Get(m, r.paraNum).Some? {
          entries := Get(m, r.paraNum).value;
        }
        m := Put(m, r.paraNum, entries + [(r.section, r.displayLetter)]);
      }
      i := i + 1;
    }
    assert rows[..i] == rows;
  }
}
