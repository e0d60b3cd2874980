/**
 * The case-law citation extractor: the validity rules for matched
 * citations, the de-duplication of overlapping matches across the five
 * kinds of search, the collection of citations per paragraph, and the text
 * report.  The regular expressions are not modelled: a match is given by
 * its span and its capture groups, as `finditer` yields it, and the five
 * searches over a text are a parameter.  The one search written out in
 * full is the nearby-year search `\(.*?(\d{4})\)` that validates a
 * reporter citation without its own parenthetical.
 */
module CaseLawExtractor {
  import opened Wrappers
  import opened Text
  import opened OrderedMap
  import opened Sorting

  const MinYear: int := 1800
  const MaxYear: int := 2025

  // ---------------------------------------------------------------------------
  // Matches and citations

  /** A match: `match.start()`, `match.end()` and `match.group(k)` for k = 0, 1, ... (`None` when unmatched). */
  datatype RegexMatch = RegexMatch(start: nat, end: nat, groups: seq<Option<string>>)

  function Group(m: RegexMatch, k: nat): Option<string> {
    if k < |m.groups| then m.groups[k] else None
  }

  /** The group is matched and not empty (Python truthiness of `match.group(k)`). */
  predicate Truthy(g: Option<string>) {
    g.Some? && g.value != ""
  }

  /** `g if g else None` */
  function IfTruthy(g: Option<string>): Option<string> {
    if Truthy(g) then g else None
  }

  /** `match.group(k)` as text, empty when unmatched. */
  function GroupText(m: RegexMatch, k: nat): string {
    Group(m, k).GetOr("")
  }

  function Span(m: RegexMatch): (nat, nat) {
    (m.start, m.end)
  }

  datatype Citation = Citation(
    fullText: string, caseName: Option<string>, volume: Option<string>, reporter: Option<string>,
    page: Option<string>, year: Option<string>, court: Option<string>, citationType: string)

  /** The five `finditer` results over one text, in the order the extractor visits them. */
  datatype Matches = Matches(
    full: seq<RegexMatch>, inRe: seq<RegexMatch>, reporter: seq<RegexMatch>, id: seq<RegexMatch>, supra: seq<RegexMatch>)

  // ---------------------------------------------------------------------------
  // Years

  /** `MIN_YEAR <= int(year) <= MAX_YEAR`; a year that is not a number is rejected. */
  predicate InYearRange(year: string) {
    IsDigits(year) && MinYear <= DigitsValue(year) <= MaxYear
  }

  /** `match.lastindex`: the index of the last matched group, 0 when none (`None`). */
  function LastIndex(m: RegexMatch): nat {
    LastMatchedBelow(m, |m.groups|)
  }

  function LastMatchedBelow(m: RegexMatch, n: nat): (r: nat)
    requires n <= |m.groups|
    ensures r < n || r == 0
  {
    if n <= 1 then 0 else if m.groups[n - 1].Some? then n - 1 else LastMatchedBelow(m, n - 1)
  }

  lemma {:induction false} LastMatchedBelowAtLeast(m: RegexMatch, n: nat, k: nat)
    requires 1 <= k < n <= |m.groups| && m.groups[k].Some?
    ensures LastMatchedBelow(m, n) >= k
  {
    if m.groups[n - 1].None? {
      LastMatchedBelowAtLeast(m, n - 1, k);
    }
  }

  /** The year `_is_valid_citation` checks: group 8, else the first four digits of group 7. */
  function CitationYear(m: RegexMatch): Option<string> {
    if LastIndex(m) >= 8 && Truthy(Group(m, 8)) then Group(m, 8)
    else if LastIndex(m) >= 7 && Truthy(Group(m, 7)) then
      var y := FirstYearIn(Group(m, 7).value);
      if y != "" then Some(y) else None
    else None
  }

  /** `_is_valid_citation`: only a year found outside the range rejects the match. */
  predicate IsValidCitation(m: RegexMatch) {
    var year := CitationYear(m);
    year.None? || InYearRange(year.value)
  }

  /**
   * The `lastindex` tests are the same as asking whether the group matched:
   * the year is group 8 when it is non-empty, else the first four-digit run
   * of a non-empty group 7; a match is rejected exactly when that year is
   * out of range.
   */
  lemma CitationYearSpec(m: RegexMatch)
    ensures Truthy(Group(m, 8)) ==> CitationYear(m) == Group(m, 8)
    ensures !Truthy(Group(m, 8)) && Truthy(Group(m, 7)) ==>
      CitationYear(m) == (if FirstYearIn(Group(m, 7).value) != "" then Some(FirstYearIn(Group(m, 7).value)) else None)
    ensures !Truthy(Group(m, 8)) && !Truthy(Group(m, 7)) ==> CitationYear(m).None?
    ensures !IsValidCitation(m) <==> CitationYear(m).Some? && !InYearRange(CitationYear(m).value)
  {
    if Truthy(Group(m, 8)) {
      LastMatchedBelowAtLeast(m, |m.groups|, 8);
    } else if Truthy(Group(m, 7)) {
      LastMatchedBelowAtLeast(m, |m.groups|, 7);
    }
  }

  /** No newline occurs in `s[a..b]` (`.` does not match one). */
  predicate NoNewline(s: string, a: nat, b: nat)
    requires a <= b <= |s|
  {
    forall i :: a <= i < b ==> s[i] != '\n'
  }

  /** Four digits and a closing parenthesis start at `q`. */
  predicate YearCloseAt(s: string, q: nat) {
    q + 5 <= |s| && IsYear(s[q..q + 4]) && s[q + 4] == ')'
  }

  /** `\(.*?(\d{4})\)` matches with its parenthesis at `p` and its year at `q`. */
  predicate ParenYearAt(s: string, p: nat, q: nat) {
    p < q && q + 5 <= |s| && s[p] == '(' && YearCloseAt(s, q) && NoNewline(s, p + 1, q)
  }

  /** The lazy `.*?` followed by `(\d{4})\)`, tried from `q` onwards. */
  function CloseYearFrom(s: string, q: nat): (r: Option<nat>)
    decreases |s| - q
  {
    if YearCloseAt(s, q) then Some(q)
    else if q < |s| && s[q] != '\n' then CloseYearFrom(s, q + 1)
    else None
  }

  lemma {:induction false} CloseYearFromSpec(s: string, q0: nat)
    requires q0 <= |s|
    ensures CloseYearFrom(s, q0).Some? ==>
      var q := CloseYearFrom(s, q0).value; q0 <= q && YearCloseAt(s, q) && NoNewline(s, q0, q)
    ensures CloseYearFrom(s, q0).None? ==> forall q :: q0 <= q <= |s| && NoNewline(s, q0, q) ==> !YearCloseAt(s, q)
    decreases |s| - q0
  {
    if !YearCloseAt(s, q0) && q0 < |s| && s[q0] != '\n' {
      CloseYearFromSpec(s, q0 + 1);
      if CloseYearFrom(s, q0).None? {
        forall q | q0 <= q <= |s| && NoNewline(s, q0, q)
          ensures !YearCloseAt(s, q)
        {
          if q > q0 {
            assert NoNewline(s, q0 + 1, q);
          }
        }
      }
    }
  }

  /** `re.search(r"\(.*?(\d{4})\)", s)` from position `p`: the year of the leftmost match. */
  function ParenYearFrom(s: string, p: nat): Option<string>
    decreases |s| - p
  {
    if p >= |s| then None
    else if s[p] == '(' && p + 1 <= |s| && CloseYearFrom(s, p + 1).Some? && CloseYearFrom(s, p + 1).value + 4 <= |s| then
      var q := CloseYearFrom(s, p + 1).value;
      Some(s[q..q + 4])
    else ParenYearFrom(s, p + 1)
  }

  function ParenYear(s: string): Option<string> {
    ParenYearFrom(s, 0)
  }

  /**
   * The search finds a year exactly when some parenthesis is followed, on
   * the same line, by four digits and a closing parenthesis; the year found
   * is four digits of `s` that close such a parenthetical.
   */
  lemma {:induction false} ParenYearFromSpec(s: string, p0: nat)
    ensures ParenYearFrom(s, p0).Some? ==>
      exists p: nat, q: nat :: p0 <= p && ParenYearAt(s, p, q) && ParenYearFrom(s, p0).value == s[q..q + 4]
    ensures ParenYearFrom(s, p0).None? ==> forall p: nat, q: nat :: p0 <= p ==> !ParenYearAt(s, p, q)
    decreases |s| - p0
  {
    if p0 < |s| {
      ParenYearFromSpec(s, p0 + 1);
      var hit := s[p0] == '(' && CloseYearFrom(s, p0 + 1).Some?;
      CloseYearFromSpec(s, p0 + 1);
      if hit {
        var q := CloseYearFrom(s, p0 + 1).value;
        assert ParenYearAt(s, p0, q);
      } else {
        if ParenYearFrom(s, p0).None? {
          forall p: nat, q: nat | p0 <= p
            ensures !ParenYearAt(s, p, q)
          {
            if p == p0 && s[p0] == '(' && p0 < q {
              assert CloseYearFrom(s, p0 + 1).None?;
            }
          }
        }
      }
    }
  }

  lemma ParenYearSpec(s: string)
    ensures ParenYear(s).Some? ==> exists p: nat, q: nat :: ParenYearAt(s, p, q) && ParenYear(s).value == s[q..q + 4] && IsYear(ParenYear(s).value)
    ensures ParenYear(s).None? <==> forall p: nat, q: nat :: !ParenYearAt(s, p, q)
  {
    ParenYearFromSpec(s, 0);
  }

  /** `text[max(0, start - 10):min(len(text), end + 50)]` */
  function YearWindow(text: string, start: nat, end: nat): string {
    var lo := if start >= 10 then start - 10 else 0;
    var hi := if end + 50 <= |text| then end + 50 else |text|;
    if lo <= hi then text[lo..hi] else ""
  }

  /** The window holds the match and at most ten characters before it and fifty after it. */
  lemma YearWindowSpec(text: string, start: nat, end: nat)
    requires start <= end <= |text|
    ensures Contains(YearWindow(text, start, end), text[start..end])
    ensures |YearWindow(text, start, end)| <= end - start + 60
  {
    var lo := if start >= 10 then start - 10 else 0;
    var hi := if end + 50 <= |text| then end + 50 else |text|;
    var w := text[lo..hi];
    forall k | 0 <= k < end - start ensures w[start - lo..end - lo][k] == text[start..end][k] {
      assert w[start - lo + k] == text[start + k];
    }
    assert w[start - lo..end - lo] == text[start..end];
    assert OccursAt(w, text[start..end], start - lo);
    ContainsAt(w, text[start..end]);
  }

  /** The year `_is_valid_reporter_citation` checks: group 6, else the nearby-year search. */
  function ReporterYear(m: RegexMatch, text: string): Option<string> {
    if !Truthy(Group(m, 6)) then ParenYear(YearWindow(text, m.start, m.end)) else Group(m, 6)
  }

  /** `_is_valid_reporter_citation`: a reporter-only citation needs a year in range. */
  predicate IsValidReporterCitation(m: RegexMatch, text: string) {
    var year := ReporterYear(m, text);
    year.Some? && InYearRange(year.value)
  }

  /**
   * A reporter citation is accepted only with a year between 1800 and 2025:
   * its own parenthetical's year, or else a parenthetical year within ten
   * characters before and fifty after the match, on one line.
   */
  lemma ReporterCitationSpec(m: RegexMatch, text: string)
    ensures IsValidReporterCitation(m, text) ==>
      var y := ReporterYear(m, text).value; IsDigits(y) && MinYear <= DigitsValue(y) <= MaxYear
    ensures !Truthy(Group(m, 6)) && IsValidReporterCitation(m, text) ==>
      var w := YearWindow(text, m.start, m.end);
      exists p: nat, q: nat :: ParenYearAt(w, p, q) && ReporterYear(m, text).value == w[q..q + 4]
    ensures !Truthy(Group(m, 6)) && (forall p: nat, q: nat :: !ParenYearAt(YearWindow(text, m.start, m.end), p, q)) ==>
      !IsValidReporterCitation(m, text)
  {
    ParenYearSpec(YearWindow(text, m.start, m.end));
  }

  // ---------------------------------------------------------------------------
  // Citations built from matches

  function FullCitation(m: RegexMatch): Citation {
    Citation(Strip(GroupText(m, 0)), Some(GroupText(m, 1) + " v. " + GroupText(m, 2)), Group(m, 3), Group(m, 4),
      Group(m, 5), IfTruthy(Group(m, 8)), IfTruthy(Group(m, 7)), "full")
  }

  function InReCitation(m: RegexMatch): Citation {
    Citation(Strip(GroupText(m, 0)), Some(GroupText(m, 1) + " " + GroupText(m, 2)), Group(m, 3), Group(m, 4),
      Group(m, 5), IfTruthy(Group(m, 7)), IfTruthy(Group(m, 6)), "full")
  }

  /** The year and court of a reporter citation come from its parenthetical, the court with the year removed. */
  function ReporterCitation(m: RegexMatch): Citation {
    var year := if Truthy(Group(m, 5)) then Group(m, 6) else None;
    var court := if Truthy(Group(m, 5)) && Truthy(Group(m, 6)) then Some(Strip(Replace(GroupText(m, 5), GroupText(m, 6), ""))) else None;
    Citation(Strip(GroupText(m, 0)), None, Group(m, 1), Group(m, 2), Group(m, 3), year, court, "reporter")
  }

  function IdCitation(m: RegexMatch): Citation {
    Citation(Strip(GroupText(m, 0)), None, None, None, IfTruthy(Group(m, 1)), None, None, "short")
  }

  function SupraCitation(m: RegexMatch): Citation {
    Citation(Strip(GroupText(m, 0)), Group(m, 1), None, None, IfTruthy(Group(m, 3)), None, None, "reference")
  }

  // ---------------------------------------------------------------------------
  // The five passes of `extract_from_text`

  /** `citations` and `found_spans` as the passes leave them. */
  datatype Found = Found(citations: seq<Citation>, spans: set<(nat, nat)>)

  /** The half-open spans share a position. */
  predicate Overlap(a: (nat, nat), b: (nat, nat)) {
    !(a.1 <= b.0 || a.0 >= b.1)
  }

  /** `any(not (match.end() <= start or match.start() >= end) for start, end in found_spans)` */
  predicate Overlaps(m: RegexMatch, spans: set<(nat, nat)>) {
    exists s :: s in spans && Overlap(Span(m), s)
  }

  function FullStep(st: Found, m: RegexMatch): Found {
    if IsValidCitation(m) then Found(st.citations + [FullCitation(m)], st.spans + {Span(m)}) else st
  }

  function InReStep(st: Found, m: RegexMatch): Found {
    if Span(m) !in st.spans && IsValidCitation(m) then Found(st.citations + [InReCitation(m)], st.spans + {Span(m)}) else st
  }

  function ReporterStep(text: string, st: Found, m: RegexMatch): Found {
    if !Overlaps(m, st.spans) && IsValidReporterCitation(m, text) then
      Found(st.citations + [ReporterCitation(m)], st.spans + {Span(m)})
    else st
  }

  function IdStep(st: Found, m: RegexMatch): Found {
    st.(citations := st.citations + [IdCitation(m)])
  }

  function SupraStep(st: Found, m: RegexMatch): Found {
    st.(citations := st.citations + [SupraCitation(m)])
  }

  function FullPass(): (Found, RegexMatch) -> Found { (st: Found, m: RegexMatch) => FullStep(st, m) }
  function InRePass(): (Found, RegexMatch) -> Found { (st: Found, m: RegexMatch) => InReStep(st, m) }
  function ReporterPass(text: string): (Found, RegexMatch) -> Found { (st: Found, m: RegexMatch) => ReporterStep(text, st, m) }
  function IdPass(): (Found, RegexMatch) -> Found { (st: Found, m: RegexMatch) => IdStep(st, m) }
  function SupraPass(): (Found, RegexMatch) -> Found { (st: Found, m: RegexMatch) => SupraStep(st, m) }

  /** One `for match in ...finditer(text)` pass, in match order. */
  function Pass(step: (Found, RegexMatch) -> Found, st: Found, ms: seq<RegexMatch>): Found {
    if ms == [] then st else step(Pass(step, st, ms[..|ms| - 1]), ms[|ms| - 1])
  }

  /** `extract_from_text` */
  function Extract(text: string, ms: Matches): seq<Citation> {
    var st1 := Pass(FullPass(), Found([], {}), ms.full);
    var st2 := Pass(InRePass(), st1, ms.inRe);
    var st3 := Pass(ReporterPass(text), st2, ms.reporter);
    Pass(SupraPass(), Pass(IdPass(), st3, ms.id), ms.supra).citations
  }

  /** The spans a reporter pass adds overlap no other span, whether found before it or by it. */
  predicate Separate(added: set<(nat, nat)>, all: set<(nat, nat)>) {
    forall r, x :: r in added && x in all && r != x ==> !Overlap(r, x)
  }

  /**
   * A reporter-only match is kept only if it overlaps none of the spans
   * found so far, so the spans this pass adds overlap no other span; and a
   * valid, non-empty match that is dropped overlaps some span found.
   */
  lemma {:induction false} ReporterPassSpec(text: string, st: Found, ms: seq<RegexMatch>)
    ensures var r := Pass(ReporterPass(text), st, ms);
      && st.spans <= r.spans
      && Separate(r.spans - st.spans, r.spans)
      && forall i :: 0 <= i < |ms| && IsValidReporterCitation(ms[i], text) && ms[i].start < ms[i].end ==>
           exists x :: x in r.spans && Overlap(Span(ms[i]), x)
  {
    if ms != [] {
      var n := |ms| - 1;
      var prev := Pass(ReporterPass(text), st, ms[..n]);
      ReporterPassSpec(text, st, ms[..n]);
      var r := Pass(ReporterPass(text), st, ms);
      assert r == ReporterStep(text, prev, ms[n]);
      if r != prev {
        var sp := Span(ms[n]);
        assert r.spans == prev.spans + {sp};
        forall a, x | a in r.spans - st.spans && x in r.spans && a != x
          ensures !Overlap(a, x)
        {
          if a == sp {
            assert x in prev.spans;
          } else if x == sp {
            assert a in prev.spans;
            assert !Overlap(sp, a);
          }
        }
      }
      forall i | 0 <= i < |ms| && IsValidReporterCitation(ms[i], text) && ms[i].start < ms[i].end
        ensures exists x :: x in r.spans && Overlap(Span(ms[i]), x)
      {
        if i < n {
          assert ms[..n][i] == ms[i];
          var x :| x in prev.spans && Overlap(Span(ms[i]), x);
          assert x in r.spans;
        } else if r != prev {
          assert Span(ms[i]) in r.spans && Overlap(Span(ms[i]), Span(ms[i]));
        } else {
          assert Overlaps(ms[i], prev.spans);
        }
      }
    }
  }

  /** The spans of the valid matches among `ms`. */
  function ValidSpans(ms: seq<RegexMatch>): set<(nat, nat)> {
    if ms == [] then {} else ValidSpans(ms[..|ms| - 1]) + (if IsValidCitation(ms[|ms| - 1]) then {Span(ms[|ms| - 1])} else {})
  }

  /**
   * An in-re match is skipped only when its very span was found already:
   * the pass ends with every valid match's span found however the spans
   * overlap, and a valid match whose span is new when its turn comes is kept.
   */
  lemma {:induction false} InRePassSpec(st: Found, ms: seq<RegexMatch>)
    ensures Pass(InRePass(), st, ms).spans == st.spans + ValidSpans(ms)
    ensures forall i :: 0 <= i < |ms| && IsValidCitation(ms[i]) && Span(ms[i]) !in Pass(InRePass(), st, ms[..i]).spans ==>
      Pass(InRePass(), st, ms[..i + 1]).citations == Pass(InRePass(), st, ms[..i]).citations + [InReCitation(ms[i])]
  {
    if ms != [] {
      var n := |ms| - 1;
      InRePassSpec(st, ms[..n]);
      forall i | 0 <= i < |ms| && IsValidCitation(ms[i]) && Span(ms[i]) !in Pass(InRePass(), st, ms[..i]).spans
        ensures Pass(InRePass(), st, ms[..i + 1]).citations == Pass(InRePass(), st, ms[..i]).citations + [InReCitation(ms[i])]
      {
        assert ms[..i + 1][..i] == ms[..i];
      }
    }
  }

  /** The full-citation pass keeps exactly the valid matches, in order. */
  lemma {:induction false} FullPassSpec(st: Found, ms: seq<RegexMatch>)
    ensures Pass(FullPass(), st, ms).citations == st.citations + MapSeq(FullCitation, Filter(IsValidCitation, ms))
    ensures Pass(FullPass(), st, ms).spans == st.spans + ValidSpans(ms)
  {
    if ms != [] {
      var n := |ms| - 1;
      var init, last := ms[..n], ms[n];
      FullPassSpec(st, init);
      var prev := Pass(FullPass(), st, init);
      assert Pass(FullPass(), st, ms) == FullStep(prev, last);
      var fi := Filter(IsValidCitation, init);
      assert Filter(IsValidCitation, ms) == fi + (if IsValidCitation(last) then [last] else []);
      if IsValidCitation(last) {
        assert (fi + [last])[..|fi|] == fi;
        assert MapSeq(FullCitation, fi + [last]) == MapSeq(FullCitation, fi) + [FullCitation(last)];
      } else {
        assert fi + [] == fi;
      }
    }
  }

  /** The short-citation and reference passes keep every match. */
  lemma {:induction false} IdPassSpec(st: Found, ms: seq<RegexMatch>)
    ensures Pass(IdPass(), st, ms) == Found(st.citations + MapSeq(IdCitation, ms), st.spans)
  {
    if ms != [] {
      IdPassSpec(st, ms[..|ms| - 1]);
    }
  }

  lemma {:induction false} SupraPassSpec(st: Found, ms: seq<RegexMatch>)
    ensures Pass(SupraPass(), st, ms) == Found(st.citations + MapSeq(SupraCitation, ms), st.spans)
  {
    if ms != [] {
      SupraPassSpec(st, ms[..|ms| - 1]);
    }
  }

  /** Every short citation and every reference follows the case citations, one per match. */
  lemma ExtractSpec(text: string, ms: Matches)
    ensures var st1 := Pass(FullPass(), Found([], {}), ms.full);
      var st3 := Pass(ReporterPass(text), Pass(InRePass(), st1, ms.inRe), ms.reporter);
      && Extract(text, ms) == st3.citations + MapSeq(IdCitation, ms.id) + MapSeq(SupraCitation, ms.supra)
      && st1.citations == MapSeq(FullCitation, Filter(IsValidCitation, ms.full))
  {
    var st1 := Pass(FullPass(), Found([], {}), ms.full);
    var st3 := Pass(ReporterPass(text), Pass(InRePass(), st1, ms.inRe), ms.reporter);
    FullPassSpec(Found([], {}), ms.full);
    IdPassSpec(st3, ms.id);
    SupraPassSpec(Pass(IdPass(), st3, ms.id), ms.supra);
  }

  /** The loop of one pass. */
  method RunPass(step: (Found, RegexMatch) -> Found, st0: Found, ms: seq<RegexMatch>) returns (st: Found)
    ensures st == Pass(step, st0, ms)
  {
    st := st0;
    var i := 0;
    while i < |ms|
      invariant 0 <= i <= |ms|
      invariant st == Pass(step, st0, ms[..i])
    {
      assert ms[..i + 1][..i] == ms[..i];
      st := step(st, ms[i]);
      i := i + 1;
    }
    assert ms[..i] == ms;
  }

  /** `extract_from_text`, given the matches of the five searches. */
  method ExtractFromText(text: string, ms: Matches) returns (citations: seq<Citation>)
    ensures citations == Extract(text, ms)
  {
    var st := RunPass(FullPass(), Found([], {}), ms.full);
    st := RunPass(InRePass(), st, ms.inRe);
    st := RunPass(ReporterPass(text), st, ms.reporter);
    st := RunPass(IdPass(), st, ms.id);
    st := RunPass(SupraPass(), st, ms.supra);
    citations := st.citations;
  }

  // ---------------------------------------------------------------------------
  // Paragraphs

  datatype ParagraphCitations = ParagraphCitations(paragraphNum: int, paragraphText: string, citations: seq<Citation>)

  /** `preview`: the paragraph text, cut to 80 characters and marked with "..." when longer. */
  function Preview(text: string): (r: string)
    ensures |text| <= 80 ==> r == text
    ensures |text| > 80 ==> |r| == 83 && r[..80] == text[..80] && r[80..] == "..."
  {
    if |text| > 80 then text[..80] + "..." else text
  }

  /** `paragraphs[num]`, the empty text for a number that is not a key. */
  function ParagraphText(paragraphs: seq<Entry<int, string>>, k: int): string {
    Get(paragraphs, k).GetOr("")
  }

  /** `extract_from_text` on each text, the five searches of a text being `finder(text)`. */
  function ExtractWith(finder: string -> Matches): string -> seq<Citation> {
    (text: string) => Extract(text, finder(text))
  }

  /** The citations found in paragraph `k`. */
  function CitationsIn(paragraphs: seq<Entry<int, string>>, k: int, found: string -> seq<Citation>): seq<Citation> {
    found(ParagraphText(paragraphs, k))
  }

  /** The paragraphs with citations, among the given numbers in their order. */
  function Collect(paragraphs: seq<Entry<int, string>>, nums: seq<int>, found: string -> seq<Citation>): seq<ParagraphCitations> {
    if nums == [] then []
    else
      var k := nums[|nums| - 1];
      var cs := CitationsIn(paragraphs, k, found);
      Collect(paragraphs, nums[..|nums| - 1], found) + (if cs != [] then [ParagraphCitations(k, ParagraphText(paragraphs, k), cs)] else [])
  }

  /** `extract_from_paragraphs`, the five searches of each text being `finder(text)`. */
  function FromParagraphs(paragraphs: seq<Entry<int, string>>, finder: string -> Matches): seq<ParagraphCitations> {
    Collect(paragraphs, SortInts(Keys(paragraphs)), ExtractWith(finder))
  }

  /** Each collected paragraph holds its own text and the citations found in it, at least one. */
  predicate Reported(paragraphs: seq<Entry<int, string>>, pc: ParagraphCitations, found: string -> seq<Citation>) {
    pc.citations != [] && pc.paragraphText == ParagraphText(paragraphs, pc.paragraphNum)
    && pc.citations == CitationsIn(paragraphs, pc.paragraphNum, found)
  }

  /** Every listed paragraph is reported as found, and is one of `nums`. */
  predicate AllReported(paragraphs: seq<Entry<int, string>>, pcs: seq<ParagraphCitations>, found: string -> seq<Citation>, nums: seq<int>) {
    forall i :: 0 <= i < |pcs| ==> Reported(paragraphs, pcs[i], found) && pcs[i].paragraphNum in nums
  }

  /** The paragraph numbers increase strictly. */
  predicate Increasing(pcs: seq<ParagraphCitations>) {
    forall i, j :: 0 <= i < j < |pcs| ==> pcs[i].paragraphNum < pcs[j].paragraphNum
  }

  /** Every paragraph of `nums` with citations is listed. */
  predicate Covers(paragraphs: seq<Entry<int, string>>, pcs: seq<ParagraphCitations>, found: string -> seq<Citation>, nums: seq<int>) {
    forall k :: k in nums && CitationsIn(paragraphs, k, found) != [] ==> exists i :: 0 <= i < |pcs| && pcs[i].paragraphNum == k
  }

  lemma {:induction false} CollectSound(paragraphs: seq<Entry<int, string>>, nums: seq<int>, found: string -> seq<Citation>)
    ensures AllReported(paragraphs, Collect(paragraphs, nums, found), found, nums)
  {
    if nums != [] {
      var init := nums[..|nums| - 1];
      CollectSound(paragraphs, init, found);
      var r0 := Collect(paragraphs, init, found);
      var r := Collect(paragraphs, nums, found);
      forall i | 0 <= i < |r|
        ensures Reported(paragraphs, r[i], found) && r[i].paragraphNum in nums
      {
        if i < |r0| {
          assert r[i] == r0[i];
          var m :| 0 <= m < |init| && init[m] == r0[i].paragraphNum;
          assert nums[m] == r[i].paragraphNum;
        }
      }
    }
  }

  lemma {:induction false} CollectIncreasing(paragraphs: seq<Entry<int, string>>, nums: seq<int>, found: string -> seq<Citation>)
    requires forall i, j :: 0 <= i < j < |nums| ==> nums[i] < nums[j]
    ensures Increasing(Collect(paragraphs, nums, found))
  {
    if nums != [] {
      var n := |nums| - 1;
      var init := nums[..n];
      CollectIncreasing(paragraphs, init, found);
      CollectSound(paragraphs, init, found);
      var r0 := Collect(paragraphs, init, found);
      var r := Collect(paragraphs, nums, found);
      forall i, j | 0 <= i < j < |r|
        ensures r[i].paragraphNum < r[j].paragraphNum
      {
        assert r[i] == r0[i];
        if j < |r0| {
          assert r[j] == r0[j];
        } else {
          assert r0[i].paragraphNum in init;
          var m :| 0 <= m < |init| && init[m] == r0[i].paragraphNum;
          assert nums[m] < nums[n];
        }
      }
    }
  }

  lemma {:induction false} CollectComplete(paragraphs: seq<Entry<int, string>>, nums: seq<int>, found: string -> seq<Citation>)
    ensures Covers(paragraphs, Collect(paragraphs, nums, found), found, nums)
  {
    if nums != [] {
      var n := |nums| - 1;
      var init := nums[..n];
      CollectComplete(paragraphs, init, found);
      var r0 := Collect(paragraphs, init, found);
      var r := Collect(paragraphs, nums, found);
      forall k | k in nums && CitationsIn(paragraphs, k, found) != []
        ensures exists i :: 0 <= i < |r| && r[i].paragraphNum == k
      {
        if k == nums[n] {
          assert r[|r| - 1].paragraphNum == k;
        } else {
          var j :| 0 <= j < |nums| && nums[j] == k;
          assert init[j] == k;
          var i :| 0 <= i < |r0| && r0[i].paragraphNum == k;
          assert r[i] == r0[i];
        }
      }
    }
  }

  /** Distinct elements occur once each. */
  lemma {:induction false} DistinctOnce(xs: seq<int>, x: int)
    requires forall i, j :: 0 <= i < j < |xs| ==> xs[i] != xs[j]
    ensures multiset(xs)[x] <= 1
  {
    if xs != [] {
      var n := |xs| - 1;
      DistinctOnce(xs[..n], x);
      assert xs == xs[..n] + [xs[n]];
      if xs[n] == x {
        assert x !in xs[..n];
      }
    }
  }

  /** A value at two positions occurs at least twice. */
  lemma TwiceAtLeast(s: seq<int>, i: nat, j: nat)
    requires i < j < |s| && s[i] == s[j]
    ensures multiset(s)[s[i]] >= 2
  {
    assert s == s[..j] + [s[j]] + s[j + 1..];
    assert s[..j] == s[..i] + [s[i]] + s[i + 1..j];
  }

  /** The sorted keys of a dictionary increase strictly, and they are its keys. */
  lemma SortedKeysIncrease(paragraphs: seq<Entry<int, string>>)
    requires DistinctKeys(paragraphs)
    ensures forall i, j :: 0 <= i < j < |SortInts(Keys(paragraphs))| ==> SortInts(Keys(paragraphs))[i] < SortInts(Keys(paragraphs))[j]
    ensures forall k :: k in SortInts(Keys(paragraphs)) <==> HasKey(paragraphs, k)
  {
    var keys := Keys(paragraphs);
    var ks := SortInts(keys);
    SortIntsSpec(keys);
    forall i, j | 0 <= i < j < |ks|
      ensures ks[i] < ks[j]
    {
      if ks[i] == ks[j] {
        TwiceAtLeast(ks, i, j);
        DistinctOnce(keys, ks[i]);
        assert false;
      }
    }
    forall k
      ensures k in ks <==> HasKey(paragraphs, k)
    {
      assert k in ks <==> k in multiset(keys);
      if HasKey(paragraphs, k) {
        var i :| 0 <= i < |paragraphs| && paragraphs[i].key == k;
        assert keys[i] == k;
      }
    }
  }

  /**
   * The paragraphs come in ascending order of number; each is a paragraph
   * of the dictionary with its own text and the citations found in it, at
   * least one; and every paragraph in which citations are found is there.
   */
  lemma FromParagraphsSpec(paragraphs: seq<Entry<int, string>>, finder: string -> Matches)
    requires DistinctKeys(paragraphs)
    ensures var r := FromParagraphs(paragraphs, finder);
      && (forall i, j :: 0 <= i < j < |r| ==> r[i].paragraphNum < r[j].paragraphNum)
      && (forall i :: 0 <= i < |r| ==> Reported(paragraphs, r[i], ExtractWith(finder)) && Get(paragraphs, r[i].paragraphNum) == Some(r[i].paragraphText))
      && forall k :: HasKey(paragraphs, k) && CitationsIn(paragraphs, k, ExtractWith(finder)) != [] ==>
           exists i :: 0 <= i < |r| && r[i].paragraphNum == k
  {
    var nums := SortInts(Keys(paragraphs));
    SortedKeysIncrease(paragraphs);
    CollectIncreasing(paragraphs, nums, ExtractWith(finder));
    CollectSound(paragraphs, nums, ExtractWith(finder));
    CollectComplete(paragraphs, nums, ExtractWith(finder));
    var r := FromParagraphs(paragraphs, finder);
    forall i | 0 <= i < |r|
      ensures Get(paragraphs, r[i].paragraphNum) == Some(r[i].paragraphText)
    {
      var k := r[i].paragraphNum;
      assert HasKey(paragraphs, k);
      var j :| 0 <= j < |paragraphs| && paragraphs[j].key == k;
      GetAt(paragraphs, j);
    }
  }

  /** `extract_from_paragraphs`: the loop over the sorted paragraph numbers. */
  method ExtractFromParagraphs(paragraphs: seq<Entry<int, string>>, finder: string -> Matches) returns (results: seq<ParagraphCitations>)
    ensures results == FromParagraphs(paragraphs, finder)
  {
    var nums := SortInts(Keys(paragraphs));
    results := [];
    var i := 0;
    while i < |nums|
      invariant 0 <= i <= |nums|
      invariant results == Collect(paragraphs, nums[..i], ExtractWith(finder))
    {
      assert nums[..i + 1][..i] == nums[..i];
      var text := ParagraphText(paragraphs, nums[i]);
      var citations := ExtractFromText(text, finder(text));
      if citations != [] {
        results := results + [ParagraphCitations(nums[i], text, citations)];
      }
      i := i + 1;
    }
    assert nums[..i] == nums;
  }

  // ---------------------------------------------------------------------------
  // The report

  const NoCitationsText: string := "No case law citations " + "found in this document."
  const ReportTitle: string := "CASE LAW CITATION REPORT"

  /** `sum(len(pc.citations) for pc in paragraph_citations)` */
  function TotalCitations(pcs: seq<ParagraphCitations>): nat {
    if pcs == [] then 0 else TotalCitations(pcs[..|pcs| - 1]) + |pcs[|pcs| - 1].citations|
  }

  /** All citations of the paragraphs, paragraph by paragraph. */
  function AllCitations(pcs: seq<ParagraphCitations>): seq<Citation> {
    if pcs == [] then [] else AllCitations(pcs[..|pcs| - 1]) + pcs[|pcs| - 1].citations
  }

  /** The count in the header is the number of citations listed in the paragraphs. */
  lemma {:induction false} TotalCitationsSpec(pcs: seq<ParagraphCitations>)
    ensures TotalCitations(pcs) == |AllCitations(pcs)|
    ensures (forall i :: 0 <= i < |pcs| ==> pcs[i].citations != []) ==> TotalCitations(pcs) >= |pcs|
  {
    if pcs != [] {
      TotalCitationsSpec(pcs[..|pcs| - 1]);
      assert forall i :: 0 <= i < |pcs| - 1 ==> pcs[..|pcs| - 1][i] == pcs[i];
    }
  }

  /** The lines of one citation: its number, its name when it has one, and its kind. */
  function CitationLines(i: nat, c: Citation): seq<string> {
    (if Truthy(c.caseName) then ["    " + NatToString(i) + ". " + c.caseName.value, "       " + c.fullText]
     else ["    " + NatToString(i) + ". " + c.fullText])
    + (if c.citationType == "short" then ["       [Short citation]"]
       else if c.citationType == "reference" then ["       [Reference]"]
       else [])
  }

  /** The lines of citations numbered from `first`. */
  function CitationsLines(cs: seq<Citation>, first: nat): seq<string> {
    if cs == [] then [] else CitationsLines(cs[..|cs| - 1], first) + CitationLines(first + |cs| - 1, cs[|cs| - 1])
  }

  function ParagraphHead(pc: ParagraphCitations): seq<string> {
    ["Paragraph " + IntToString(pc.paragraphNum) + ":", "  Preview: " + Preview(pc.paragraphText),
     "  Citations (" + NatToString(|pc.citations|) + "):"]
  }

  function ParagraphLines(pc: ParagraphCitations): seq<string> {
    ParagraphHead(pc) + CitationsLines(pc.citations, 1) + [""]
  }

  function BodyLines(pcs: seq<ParagraphCitations>): seq<string> {
    if pcs == [] then [] else BodyLines(pcs[..|pcs| - 1]) + ParagraphLines(pcs[|pcs| - 1])
  }

  function CountLine(pcs: seq<ParagraphCitations>): string {
    "Found " + NatToString(TotalCitations(pcs)) + " citation(s) in " + NatToString(|pcs|) + " paragraph(s)"
  }

  function HeaderLines(pcs: seq<ParagraphCitations>): seq<string> {
    [ReportTitle, seq(50, _ => '='), CountLine(pcs), ""]
  }

  /** `generate_report` */
  function Report(pcs: seq<ParagraphCitations>): string {
    if pcs == [] then NoCitationsText else Join(HeaderLines(pcs) + BodyLines(pcs), "\n")
  }

  lemma NoCitationsUntitled()
    ensures !StartsWith(NoCitationsText, ReportTitle)
  {
    assert NoCitationsText[0] == 'N';
  }

  /**
   * The report is the fixed "no citations" text exactly when there are no
   * paragraphs; otherwise it opens with its title, and its header counts
   * every citation of every paragraph.
   */
  lemma ReportSpec(pcs: seq<ParagraphCitations>)
    ensures Report(pcs) == NoCitationsText <==> pcs == []
    ensures pcs != [] ==> StartsWith(Report(pcs), ReportTitle)
    ensures CountLine(pcs) == "Found " + NatToString(|AllCitations(pcs)|) + " citation(s) in " + NatToString(|pcs|) + " paragraph(s)"
  {
    TotalCitationsSpec(pcs);
    if pcs != [] {
      var lines := HeaderLines(pcs) + BodyLines(pcs);
      assert lines[0] == ReportTitle;
      JoinHead(lines, "\n");
      NoCitationsUntitled();
    }
  }

  /** The lines of one paragraph, as the inner `enumerate` loop appends them. */
  method AppendParagraph(lines: seq<string>, pc: ParagraphCitations) returns (r: seq<string>)
    ensures r == lines + ParagraphLines(pc)
  {
    var body := ParagraphHead(pc);
    var head := body;
    var i := 0;
    while i < |pc.citations|
      invariant 0 <= i <= |pc.citations|
      invariant body == head + CitationsLines(pc.citations[..i], 1)
    {
      assert pc.citations[..i + 1][..i] == pc.citations[..i];
      body := body + CitationLines(i + 1, pc.citations[i]);
      i := i + 1;
    }
    assert pc.citations[..i] == pc.citations;
    r := lines + (body + [""]);
  }

  /** `generate_report`: the header, then the lines of each paragraph, joined by newlines. */
  method GenerateReport(pcs: seq<ParagraphCitations>) returns (report: string)
    ensures report == Report(pcs)
  {
    if pcs == [] {
      return NoCitationsText;
    }
    var header := HeaderLines(pcs);
    var body: seq<string> := [];
    var i := 0;
    while i < |pcs|
      invariant 0 <= i <= |pcs|
      invariant body == BodyLines(pcs[..i])
    {
      assert pcs[..i + 1][..i] == pcs[..i];
      body := AppendParagraph(body, pcs[i]);
      i := i + 1;
    }
    assert pcs[..i] == pcs;
    report := Join(header + body, "\n");
  }
}
