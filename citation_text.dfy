/**
 * String helpers shared by the citation utilities: case-only changes of a
 * word, the per-word loop that title-cases a party name, and the table of
 * character replacements that makes a file name safe.
 */
module CitationText {
  import opened Wrappers
  import opened Text

  // ---------------------------------------------------------------------------
  // Case-only changes

  /** `a` and `b` differ at most in the case of their letters. */
  predicate SameLetters(a: string, b: string) {
    Lower(a) == Lower(b)
  }

  lemma SameLettersLength(a: string, b: string)
    requires SameLetters(a, b)
    ensures |a| == |b|
  {
    assert |Lower(a)| == |Lower(b)|;
  }

  lemma LowerConcat(a: string, b: string)
    ensures Lower(a + b) == Lower(a) + Lower(b)
  {
  }

  lemma SameLettersConcat(a: string, b: string, c: string, d: string)
    requires SameLetters(a, c) && SameLetters(b, d)
    ensures SameLetters(a + b, c + d)
  {
    LowerConcat(a, b);
    LowerConcat(c, d);
  }

  /** `s.capitalize()` changes only the case of letters. */
  lemma CapitalizeSameLetters(s: string)
    ensures SameLetters(Capitalize(s), s)
  {
    if s != [] {
      var c := Capitalize(s);
      assert ToLowerChar(ToUpperChar(s[0])) == ToLowerChar(s[0]);
      assert Lower(c)[0] == Lower(s)[0];
      forall i | 1 <= i < |s|
        ensures Lower(c)[i] == Lower(s)[i]
      {
        assert c[i] == Lower(s[1..])[i - 1];
      }
    }
  }

  lemma UpperSameLetters(s: string)
    ensures SameLetters(Upper(s), s)
  {
    forall i | 0 <= i < |s|
      ensures Lower(Upper(s))[i] == Lower(s)[i]
    {
      assert ToLowerChar(ToUpperChar(s[i])) == ToLowerChar(s[i]);
    }
  }

  lemma LowerSameLetters(s: string)
    ensures SameLetters(Lower(s), s)
  {
    forall i | 0 <= i < |s|
      ensures Lower(Lower(s))[i] == Lower(s)[i]
    {
    }
  }

  /** Joining pairwise case-equivalent parts by the same separator gives case-equivalent strings. */
  lemma {:induction false} JoinSameLetters(xs: seq<string>, ys: seq<string>, sep: string)
    requires |xs| == |ys| && forall i :: 0 <= i < |xs| ==> SameLetters(xs[i], ys[i])
    ensures SameLetters(Join(xs, sep), Join(ys, sep))
    decreases |xs|
  {
    if |xs| > 1 {
      JoinSameLetters(xs[1..], ys[1..], sep);
      SameLettersConcat(xs[0], sep, ys[0], sep);
      SameLettersConcat(xs[0] + sep, Join(xs[1..], sep), ys[0] + sep, Join(ys[1..], sep));
    }
  }

  /** `sep.join(p.capitalize() for p in word.split(sep))` */
  function CapitalizeParts(word: string, sep: char): string {
    Join(MapSeq(Capitalize, Split(word, sep)), [sep])
  }

  /** Capitalising the parts of a word changes only the case of its letters. */
  lemma CapitalizePartsSpec(word: string, sep: char)
    ensures SameLetters(CapitalizeParts(word, sep), word)
  {
    var ps := Split(word, sep);
    MapSeqIndex(Capitalize, ps);
    forall i | 0 <= i < |ps|
      ensures SameLetters(MapSeq(Capitalize, ps)[i], ps[i])
    {
      CapitalizeSameLetters(ps[i]);
    }
    JoinSameLetters(MapSeq(Capitalize, ps), ps, [sep]);
    JoinSplit(word, sep);
  }

  /** Capitalising never creates or removes a character that is not a letter. */
  lemma CapitalizeKeepsNonLetter(p: string, sep: char)
    requires !IsLowerChar(sep) && !IsUpperChar(sep)
    ensures sep in Capitalize(p) <==> sep in p
  {
    var c := Capitalize(p);
    if p != [] {
      forall i | 0 <= i < |p| ensures c[i] == sep <==> p[i] == sep {
        if i > 0 { assert c[i] == Lower(p[1..])[i - 1]; }
      }
    }
  }

  /**
   * For a separator that is not a letter, the parts of a capitalised word
   * are exactly the capitalised parts of the word.
   */
  lemma CapitalizePartsSplit(word: string, sep: char)
    requires !IsLowerChar(sep) && !IsUpperChar(sep)
    ensures Split(CapitalizeParts(word, sep), sep) == MapSeq(Capitalize, Split(word, sep))
  {
    var ps := Split(word, sep);
    var cs := MapSeq(Capitalize, ps);
    MapSeqIndex(Capitalize, ps);
    forall i | 0 <= i < |cs| ensures sep !in cs[i] {
      CapitalizeKeepsNonLetter(ps[i], sep);
    }
    SplitJoin(cs, sep);
  }

  // ---------------------------------------------------------------------------
  // The per-word loop

  /** `[f(i, w) for i, w in enumerate(words)]`, built from the back. */
  function MapIndexed(f: (nat, string) -> string, ws: seq<string>): seq<string> {
    if ws == [] then [] else MapIndexed(f, ws[..|ws| - 1]) + [f(|ws| - 1, ws[|ws| - 1])]
  }

  /** Each word is replaced in its place by its image under `f`, which sees the word's position. */
  lemma {:induction false} MapIndexedSpec(f: (nat, string) -> string, ws: seq<string>)
    ensures |MapIndexed(f, ws)| == |ws|
    ensures forall i :: 0 <= i < |ws| ==> MapIndexed(f, ws)[i] == f(i, ws[i])
  {
    if ws != [] {
      var init := ws[..|ws| - 1];
      MapIndexedSpec(f, init);
      forall i | 0 <= i < |init|
        ensures MapIndexed(f, ws)[i] == f(i, ws[i])
      {
        assert init[i] == ws[i];
      }
    }
  }

  /** The `for i, word in enumerate(words): result.append(...)` loop of the title-casing functions. */
  method MapIndexedLoop(f: (nat, string) -> string, ws: seq<string>) returns (result: seq<string>)
    ensures result == MapIndexed(f, ws)
  {
    result := [];
    var i := 0;
    while i < |ws|
      invariant 0 <= i <= |ws|
      invariant result == MapIndexed(f, ws[..i])
    {
      assert ws[..i + 1][..i] == ws[..i];
      result := result + [f(i, ws[i])];
      i := i + 1;
    }
    assert ws[..i] == ws;
  }

  // ---------------------------------------------------------------------------
  // Citations

  /** A court a citation names: given, and not the Supreme Court's "U.S." or "US". */
  predicate NamedCourt(court: string) {
    court != "" && court != "U.S." && court != "US"
  }

  // ---------------------------------------------------------------------------
  // Character replacements

  /** The replacements of a table applied in table order, each to every occurrence. */
  function ApplyReplacements(s: string, table: seq<(char, string)>): string
    decreases |table|
  {
    if table == [] then s else ApplyReplacements(Replace(s, [table[0].0], table[0].1), table[1..])
  }

  /** `for char, replacement in replacements.items(): filename = filename.replace(char, replacement)` */
  method ApplyReplacementsLoop(s: string, table: seq<(char, string)>) returns (r: string)
    ensures r == ApplyReplacements(s, table)
  {
    r := s;
    var i := 0;
    while i < |table|
      invariant 0 <= i <= |table|
      invariant ApplyReplacements(r, table[i..]) == ApplyReplacements(s, table)
    {
      assert table[i..][1..] == table[i + 1..];
      r := Replace(r, [table[i].0], table[i].1);
      i := i + 1;
    }
  }

  /** No replacement text holds a character the table replaces. */
  ghost predicate ClosedTable(table: seq<(char, string)>) {
    forall i, j :: 0 <= i < |table| && 0 <= j < |table| ==> table[i].0 !in table[j].1
  }

  /** A table is closed when its replacement texts use only characters outside its keys. */
  lemma ClosedBy(table: seq<(char, string)>, allowed: set<char>)
    requires forall j :: 0 <= j < |table| ==> forall c :: c in table[j].1 ==> c in allowed
    requires forall i :: 0 <= i < |table| ==> table[i].0 !in allowed
    ensures ClosedTable(table)
  {
  }

  /** A character that neither `s` nor any replacement text holds is not introduced. */
  lemma {:induction false} ApplyKeepsAbsent(s: string, table: seq<(char, string)>, c: char)
    requires c !in s && forall j :: 0 <= j < |table| ==> c !in table[j].1
    ensures c !in ApplyReplacements(s, table)
    decreases |table|
  {
    if table != [] {
      ReplaceSubset(s, [table[0].0], table[0].1);
      ApplyKeepsAbsent(Replace(s, [table[0].0], table[0].1), table[1..], c);
    }
  }

  /** Every character the table replaces is gone afterwards. */
  lemma {:induction false} ApplyRemovesKeys(s: string, table: seq<(char, string)>)
    requires ClosedTable(table)
    ensures forall i :: 0 <= i < |table| ==> table[i].0 !in ApplyReplacements(s, table)
    decreases |table|
  {
    if table != [] {
      var t := Replace(s, [table[0].0], table[0].1);
      ReplaceCharRemoves(s, table[0].0, table[0].1);
      ApplyKeepsAbsent(t, table[1..], table[0].0);
      ApplyRemovesKeys(t, table[1..]);
    }
  }

  /** Characters that appear afterwards were in `s` or in some replacement text. */
  lemma {:induction false} ApplySubset(s: string, table: seq<(char, string)>)
    ensures forall x :: x in ApplyReplacements(s, table) ==> x in s || exists j :: 0 <= j < |table| && x in table[j].1
    decreases |table|
  {
    if table != [] {
      var t := Replace(s, [table[0].0], table[0].1);
      ReplaceSubset(s, [table[0].0], table[0].1);
      ApplySubset(t, table[1..]);
      forall x | x in ApplyReplacements(s, table)
        ensures x in s || exists j :: 0 <= j < |table| && x in table[j].1
      {
        if x !in t {
          var j :| 0 <= j < |table[1..]| && x in table[1..][j].1;
          assert x in table[j + 1].1;
        } else if x !in s {
          assert x in table[0].1;
        }
      }
    }
  }

  /** `sanitize_filename`: the replacements, whitespace runs collapsed to one space, the ends stripped. */
  function SanitizeWith(table: seq<(char, string)>, s: string): string {
    Strip(CollapseSpaces(ApplyReplacements(s, table)))
  }

  /**
   * When the table replaces no whitespace and never re-introduces a
   * character it replaces, the sanitised name holds none of those characters,
   * is single-spaced and has no whitespace at its ends.
   */
  lemma SanitizeWithSpec(table: seq<(char, string)>, s: string)
    requires ClosedTable(table)
    requires forall i :: 0 <= i < |table| ==> !IsSpace(table[i].0)
    ensures forall i :: 0 <= i < |table| ==> table[i].0 !in SanitizeWith(table, s)
    ensures SingleSpaced(SanitizeWith(table, s))
    ensures SanitizeWith(table, s) == Strip(SanitizeWith(table, s))
  {
    var a := ApplyReplacements(s, table);
    var c := CollapseSpaces(a);
    ApplyRemovesKeys(s, table);
    CollapseSpacesSpec(a);
    StripSubset(c);
    StripKeepsSingleSpaced(c);
    StripSpec(c);
    StripOfTrimmed(Strip(c));
  }

  /** With none of the replaced characters present, the replacements change nothing. */
  lemma {:induction false} ApplyAbsent(s: string, table: seq<(char, string)>)
    requires forall i :: 0 <= i < |table| ==> table[i].0 !in s
    ensures ApplyReplacements(s, table) == s
    decreases |table|
  {
    if table != [] {
      ContainsChar(s, table[0].0);
      ApplyAbsent(s, table[1..]);
    }
  }

  /** Sanitising a sanitised name changes nothing. */
  lemma SanitizeWithIdempotent(table: seq<(char, string)>, s: string)
    requires ClosedTable(table)
    requires forall i :: 0 <= i < |table| ==> !IsSpace(table[i].0)
    ensures SanitizeWith(table, SanitizeWith(table, s)) == SanitizeWith(table, s)
  {
    var t := SanitizeWith(table, s);
    SanitizeWithSpec(table, s);
    ApplyAbsent(t, table);
    CollapseSpacesFixed(t);
  }
}
