/**
 * String helpers with Python's `str` semantics, restricted to ASCII letter
 * case and to a fixed whitespace set.
 */
module Text {
  import opened Wrappers

  /**
   * Characters that `str.isspace`, `str.strip()`, `str.split()` and `\s`
   * treat as whitespace, among the ASCII ones: tab, line feed, vertical tab,
   * form feed and carriage return (9-13), the separators 28-31, and space.
   */
  predicate IsSpace(c: char) {
    9 <= c as int <= 13 || 28 <= c as int <= 32
  }

  predicate IsDigitChar(c: char) { '0' <= c <= '9' }
  predicate IsUpperChar(c: char) { 'A' <= c <= 'Z' }
  predicate IsLowerChar(c: char) { 'a' <= c <= 'z' }

  function ToUpperChar(c: char): (r: char)
    ensures IsLowerChar(c) ==> IsUpperChar(r)
    ensures !IsLowerChar(c) ==> r == c
  {
    if IsLowerChar(c) then (c as int - 32) as char else c
  }

  function ToLowerChar(c: char): (r: char)
    ensures IsUpperChar(c) ==> IsLowerChar(r)
    ensures !IsUpperChar(c) ==> r == c
  {
    if IsUpperChar(c) then (c as int + 32) as char else c
  }

  /** `s.upper()` */
  function Upper(s: string): (r: string)
    ensures |r| == |s|
    ensures forall i :: 0 <= i < |s| ==> r[i] == ToUpperChar(s[i])
  {
    if s == [] then [] else [ToUpperChar(s[0])] + Upper(s[1..])
  }

  /** `s.lower()` */
  function Lower(s: string): (r: string)
    ensures |r| == |s|
    ensures forall i :: 0 <= i < |s| ==> r[i] == ToLowerChar(s[i])
  {
    if s == [] then [] else [ToLowerChar(s[0])] + Lower(s[1..])
  }

  /** `s.capitalize()`: first character upper case, the rest lower case. */
  function Capitalize(s: string): (r: string)
    ensures |r| == |s|
    ensures |s| > 0 ==> r[0] == ToUpperChar(s[0]) && r[1..] == Lower(s[1..])
  {
    if s == [] then [] else [ToUpperChar(s[0])] + Lower(s[1..])
  }

  /** Upper-casing forgets an earlier lower-casing. */
  lemma UpperLower(s: string)
    ensures Upper(Lower(s)) == Upper(s)
  {
    assert forall i :: 0 <= i < |s| ==> ToUpperChar(ToLowerChar(s[i])) == ToUpperChar(s[i]);
  }

  /** `s.replace(a, b)` for single characters. */
  function ReplaceChar(s: string, a: char, b: char): string {
    if s == [] then [] else [if s[0] == a then b else s[0]] + ReplaceChar(s[1..], a, b)
  }

  /** Every occurrence of `a` becomes `b`; nothing else changes. */
  lemma {:induction false} ReplaceCharSpec(s: string, a: char, b: char)
    ensures |ReplaceChar(s, a, b)| == |s|
    ensures forall i :: 0 <= i < |s| ==> ReplaceChar(s, a, b)[i] == (if s[i] == a then b else s[i])
  {
    if s != [] {
      ReplaceCharSpec(s[1..], a, b);
    }
  }

  predicate IsLetter(c: char) { IsUpperChar(c) || IsLowerChar(c) }

  /** `s.title()`. */
  function Title(s: string): string {
    TitleFrom(s, false)
  }

  function TitleFrom(s: string, afterLetter: bool): string {
    if s == [] then []
    else
      var c := s[0];
      (if !IsLetter(c) then [c] else if afterLetter then [ToLowerChar(c)] else [ToUpperChar(c)])
      + TitleFrom(s[1..], IsLetter(c))
  }

  lemma {:induction false} TitleFromSpec(s: string, afterLetter: bool)
    ensures |TitleFrom(s, afterLetter)| == |s|
    ensures forall i :: 0 <= i < |s| && !IsLetter(s[i]) ==> TitleFrom(s, afterLetter)[i] == s[i]
    ensures forall i :: 0 <= i < |s| && IsLetter(s[i]) ==>
      TitleFrom(s, afterLetter)[i]
      == (if (if i == 0 then afterLetter else IsLetter(s[i - 1])) then ToLowerChar(s[i]) else ToUpperChar(s[i]))
  {
    if s != [] {
      TitleFromSpec(s[1..], IsLetter(s[0]));
    }
  }

  /**
   * A letter is upper-cased when the character before it is not a letter (or
   * it starts the string) and lower-cased otherwise; other characters stay.
   */
  lemma TitleSpec(s: string)
    ensures |Title(s)| == |s|
    ensures forall i :: 0 <= i < |s| && !IsLetter(s[i]) ==> Title(s)[i] == s[i]
    ensures forall i :: 0 <= i < |s| && IsLetter(s[i]) ==>
      Title(s)[i] == (if i > 0 && IsLetter(s[i - 1]) then ToLowerChar(s[i]) else ToUpperChar(s[i]))
  {
    TitleFromSpec(s, false);
  }

  /** `s.isdigit()` (ASCII digits): non-empty and every character a digit. */
  predicate IsDigits(s: string) {
    |s| > 0 && forall i :: 0 <= i < |s| ==> IsDigitChar(s[i])
  }

  /** Four digits, as a year is written. */
  predicate IsYear(p: string) {
    IsDigits(p) && |p| == 4
  }

  /** `s.isupper()`: at least one cased character and no lower-case one. */
  predicate IsUpperStr(s: string) {
    (exists i :: 0 <= i < |s| && IsUpperChar(s[i])) && forall i :: 0 <= i < |s| ==> !IsLowerChar(s[i])
  }

  /** The end of the run of whitespace that starts at index `i`. */
  function SpaceRunEnd(s: string, i: nat): (r: nat)
    requires i <= |s|
    ensures i <= r <= |s|
    decreases |s| - i
  {
    if i < |s| && IsSpace(s[i]) then SpaceRunEnd(s, i + 1) else i
  }

  /** The run is whitespace and it ends at the end of the text or before a character that is not. */
  lemma {:induction false} SpaceRunEndSpec(s: string, i: nat)
    requires i <= |s|
    ensures forall j :: i <= j < SpaceRunEnd(s, i) ==> IsSpace(s[j])
    ensures SpaceRunEnd(s, i) < |s| ==> !IsSpace(s[SpaceRunEnd(s, i)])
    decreases |s| - i
  {
    if i < |s| && IsSpace(s[i]) {
      SpaceRunEndSpec(s, i + 1);
    }
  }

  /** The end of the run of non-whitespace characters that starts at index `i`. */
  function WordRunEnd(s: string, i: nat): (r: nat)
    requires i <= |s|
    ensures i <= r <= |s|
    decreases |s| - i
  {
    if i < |s| && !IsSpace(s[i]) then WordRunEnd(s, i + 1) else i
  }

  /** The run holds no whitespace and it ends at the end of the text or before whitespace. */
  lemma {:induction false} WordRunEndSpec(s: string, i: nat)
    requires i <= |s|
    ensures forall j :: i <= j < WordRunEnd(s, i) ==> !IsSpace(s[j])
    ensures WordRunEnd(s, i) < |s| ==> IsSpace(s[WordRunEnd(s, i)])
    decreases |s| - i
  {
    if i < |s| && !IsSpace(s[i]) {
      WordRunEndSpec(s, i + 1);
    }
  }

  /** The start of the run of whitespace that ends just before index `j`. */
  function SpaceRunStart(s: string, j: nat): (r: nat)
    requires j <= |s|
    ensures r <= j
  {
    if j > 0 && IsSpace(s[j - 1]) then SpaceRunStart(s, j - 1) else j
  }

  /** The run holds only whitespace and it starts at the start of the text or after a non-space. */
  lemma {:induction false} SpaceRunStartSpec(s: string, j: nat)
    requires j <= |s|
    ensures forall k :: SpaceRunStart(s, j) <= k < j ==> IsSpace(s[k])
    ensures SpaceRunStart(s, j) > 0 ==> !IsSpace(s[SpaceRunStart(s, j) - 1])
  {
    if j > 0 && IsSpace(s[j - 1]) {
      SpaceRunStartSpec(s, j - 1);
    }
  }

  /** `s.lstrip()` */
  function LStrip(s: string): (r: string)
    ensures |r| <= |s|
  {
    s[SpaceRunEnd(s, 0)..]
  }

  /** Only whitespace is dropped, and all of it up to the first non-space. */
  lemma LStripSpec(s: string)
    ensures LStrip(s) == s[|s| - |LStrip(s)|..]
    ensures LStrip(s) == [] || !IsSpace(LStrip(s)[0])
    ensures forall i :: 0 <= i < |s| - |LStrip(s)| ==> IsSpace(s[i])
  {
    SpaceRunEndSpec(s, 0);
  }

  /** `s.rstrip()` */
  function RStrip(s: string): (r: string)
    ensures |r| <= |s|
  {
    s[..SpaceRunStart(s, |s|)]
  }

  /** Only whitespace is dropped, and all of it after the last non-space. */
  lemma RStripSpec(s: string)
    ensures RStrip(s) == s[..|RStrip(s)|]
    ensures RStrip(s) == [] || !IsSpace(RStrip(s)[|RStrip(s)| - 1])
    ensures forall i :: |RStrip(s)| <= i < |s| ==> IsSpace(s[i])
  {
    SpaceRunStartSpec(s, |s|);
  }

  /** `s.strip()` */
  function Strip(s: string): (r: string)
    ensures |r| <= |s|
  {
    RStrip(LStrip(s))
  }

  /** The stripped string is the inner slice between the leading and trailing whitespace. */
  lemma StripSpec(s: string)
    ensures |Strip(s)| <= |LStrip(s)|
    ensures Strip(s) == s[|s| - |LStrip(s)|..|s| - |LStrip(s)| + |Strip(s)|]
    ensures Strip(s) == [] || (!IsSpace(Strip(s)[0]) && !IsSpace(Strip(s)[|Strip(s)| - 1]))
    ensures Strip(s) == [] <==> forall i :: 0 <= i < |s| ==> IsSpace(s[i])
  {
    LStripSpec(s);
    RStripSpec(LStrip(s));
  }

  /** A string without surrounding whitespace is its own `strip()`. */
  /** Stripping twice is stripping once. */
  lemma StripTwice(s: string)
    ensures Strip(Strip(s)) == Strip(s)
  {
    StripSpec(s);
    StripOfTrimmed(Strip(s));
  }

  lemma StripOfTrimmed(s: string)
    requires s == [] || (!IsSpace(s[0]) && !IsSpace(s[|s| - 1]))
    ensures Strip(s) == s
  {
    StripSpec(s);
  }

  /** `s.rstrip(chars)` for an explicit set of characters. */
  function RStripChars(s: string, chars: set<char>): (r: string)
    ensures |r| <= |s| && r == s[..|r|]
    ensures r == [] || r[|r| - 1] !in chars
    ensures forall i :: |r| <= i < |s| ==> s[i] in chars
  {
    if s != [] && s[|s| - 1] in chars then RStripChars(s[..|s| - 1], chars) else s
  }

  /** `prefix` occurs at the start of `s` (`s.startswith(prefix)`). */
  predicate StartsWith(s: string, prefix: string) {
    |prefix| <= |s| && s[..|prefix|] == prefix
  }

  /** `sub` occurs in `s` at index `i`. */
  predicate OccursAt(s: string, sub: string, i: int) {
    0 <= i <= |s| - |sub| && s[i..i + |sub|] == sub
  }

  /** `sub in s` */
  predicate Contains(s: string, sub: string) {
    ContainsFrom(s, sub, 0)
  }

  /** `sub` occurs in `s` at some index from `i` on. */
  predicate ContainsFrom(s: string, sub: string, i: nat)
    decreases |s| - i
  {
    i + |sub| <= |s| && (s[i..i + |sub|] == sub || ContainsFrom(s, sub, i + 1))
  }

  lemma {:induction false} ContainsFromAt(s: string, sub: string, i: nat)
    ensures ContainsFrom(s, sub, i) <==> exists j :: i <= j && OccursAt(s, sub, j)
    decreases |s| - i
  {
    if i + |sub| <= |s| {
      ContainsFromAt(s, sub, i + 1);
      if s[i..i + |sub|] == sub {
        assert OccursAt(s, sub, i);
      }
      if exists j :: i <= j && OccursAt(s, sub, j) {
        var j :| i <= j && OccursAt(s, sub, j);
        if j > i {
          assert i + 1 <= j;
        }
      }
    }
  }

  /** `sub in s` holds exactly when `sub` occurs at some index. */
  lemma ContainsAt(s: string, sub: string)
    ensures Contains(s, sub) <==> exists i :: 0 <= i && OccursAt(s, sub, i)
  {
    ContainsFromAt(s, sub, 0);
  }

  /** A string containing `a + b` contains `b`. */
  lemma ContainsTail(s: string, a: string, b: string)
    requires Contains(s, a + b)
    ensures Contains(s, b)
  {
    ContainsAt(s, a + b);
    ContainsAt(s, b);
    var i :| 0 <= i && OccursAt(s, a + b, i);
    assert s[i + |a|..i + |a| + |b|] == (a + b)[|a|..];
    assert OccursAt(s, b, i + |a|);
  }

  /** `s.find(sub)`: the first index where `sub` occurs, else -1. */
  function Find(s: string, sub: string): (r: int)
    ensures r == -1 || 0 <= r <= |s| - |sub|
    ensures r >= 0 ==> OccursAt(s, sub, r)
    ensures r >= 0 ==> forall j :: 0 <= j < r ==> !OccursAt(s, sub, j)
    ensures r == -1 <==> !Contains(s, sub)
  {
    FindFrom(s, sub, 0)
  }

  function FindFrom(s: string, sub: string, from: nat): (r: int)
    ensures r == -1 || from <= r <= |s| - |sub|
    ensures r >= 0 ==> OccursAt(s, sub, r)
    ensures r >= 0 ==> forall j :: from <= j < r ==> !OccursAt(s, sub, j)
    ensures r == -1 <==> !ContainsFrom(s, sub, from)
    decreases |s| + 1 - from
  {
    if from + |sub| > |s| then -1
    else if s[from..from + |sub|] == sub then
      assert OccursAt(s, sub, from);
      from
    else FindFrom(s, sub, from + 1)
  }

  /** `c in s` for a single character. */
  lemma ContainsChar(s: string, c: char)
    ensures Contains(s, [c]) <==> c in s
  {
    ContainsAt(s, [c]);
    if c in s {
      var i :| 0 <= i < |s| && s[i] == c;
      assert OccursAt(s, [c], i);
    }
    if Contains(s, [c]) {
      var j :| 0 <= j <= |s| - 1 && OccursAt(s, [c], j);
      assert s[j..j + 1] == [c];
      assert s[j] == s[j..j + 1][0];
    }
  }

  /**
   * `s.replace(pat, rep)`: every leftmost non-overlapping occurrence of
   * `pat` replaced by `rep`.
   */
  function Replace(s: string, pat: string, rep: string): (r: string)
    requires |pat| > 0
    ensures !Contains(s, pat) ==> r == s
    decreases |s|
  {
    if |s| < |pat| then (
      assert !Contains(s, pat);
      s)
    else if s[..|pat|] == pat then
      assert OccursAt(s, pat, 0);
      rep + Replace(s[|pat|..], pat, rep)
    else (
      assert !Contains(s, pat) ==> !Contains(s[1..], pat) by {
        ContainsAt(s, pat);
        ContainsAt(s[1..], pat);
        if Contains(s[1..], pat) {
          var i :| 0 <= i && OccursAt(s[1..], pat, i);
          assert s[i + 1..i + 1 + |pat|] == s[1..][i..i + |pat|];
          assert OccursAt(s, pat, i + 1);
        }
      }
      [s[0]] + Replace(s[1..], pat, rep))
  }

  /** Replacing a character by a replacement that does not contain it removes every occurrence. */
  lemma ReplaceCharRemoves(s: string, c: char, rep: string)
    requires c !in rep
    ensures c !in Replace(s, [c], rep)
    ensures forall x :: x in Replace(s, [c], rep) ==> x in s || x in rep
    decreases |s|
  {
    if |s| >= 1 {
      ReplaceCharRemoves(s[1..], c, rep);
      assert s[..1] == [s[0]];
    }
  }

  /** `s.replace(pat, rep)` introduces no character that is in neither `s` nor `rep`. */
  lemma {:induction false} ReplaceSubset(s: string, pat: string, rep: string)
    requires |pat| > 0
    ensures forall x :: x in Replace(s, pat, rep) ==> x in s || x in rep
    decreases |s|
  {
    if |s| >= |pat| {
      if s[..|pat|] == pat {
        ReplaceSubset(s[|pat|..], pat, rep);
        assert forall x :: x in s[|pat|..] ==> x in s;
      } else {
        ReplaceSubset(s[1..], pat, rep);
      }
    }
  }

  /** `s.strip()` keeps only characters of `s`. */
  lemma StripSubset(s: string)
    ensures forall x :: x in Strip(s) ==> x in s
  {
    StripSpec(s);
  }

  /** A join of several strings starts with the first of them. */
  lemma JoinHead(xs: seq<string>, sep: string)
    requires xs != []
    ensures StartsWith(Join(xs, sep), xs[0])
  {
    if |xs| > 1 {
      assert Join(xs, sep)[..|xs[0]|] == xs[0];
    }
  }

  /** `''.join(xs)` with separator `sep` (`sep.join(xs)`). */
  function Join(xs: seq<string>, sep: string): (r: string)
    ensures xs == [] ==> r == []
    ensures |xs| == 1 ==> r == xs[0]
  {
    if xs == [] then [] else if |xs| == 1 then xs[0] else xs[0] + sep + Join(xs[1..], sep)
  }

  /** `s.split(sep)` for a one-character separator. */
  function Split(s: string, sep: char): (r: seq<string>)
    ensures |r| >= 1
    ensures forall i :: 0 <= i < |r| ==> sep !in r[i]
    decreases |s|
  {
    SplitAcc(s, sep, [])
  }

  function SplitAcc(s: string, sep: char, cur: string): (r: seq<string>)
    requires sep !in cur
    ensures |r| >= 1
    ensures forall i :: 0 <= i < |r| ==> sep !in r[i]
    decreases |s|
  {
    if s == [] then [cur]
    else if s[0] == sep then [cur] + SplitAcc(s[1..], sep, [])
    else SplitAcc(s[1..], sep, cur + [s[0]])
  }

  /** Splitting then joining with the same separator gives the string back. */
  lemma JoinSplit(s: string, sep: char)
    ensures Join(Split(s, sep), [sep]) == s
  {
    JoinSplitAcc(s, sep, []);
  }

  lemma {:induction false} JoinSplitAcc(s: string, sep: char, cur: string)
    requires sep !in cur
    ensures Join(SplitAcc(s, sep, cur), [sep]) == cur + s
    decreases |s|
  {
    if s == [] {
      assert cur + s == cur;
    } else if s[0] == sep {
      JoinSplitAcc(s[1..], sep, []);
      var rest := SplitAcc(s[1..], sep, []);
      assert SplitAcc(s, sep, cur) == [cur] + rest;
      assert ([cur] + rest)[1..] == rest;
      assert s == [sep] + s[1..];
    } else {
      JoinSplitAcc(s[1..], sep, cur + [s[0]]);
      assert cur + [s[0]] + s[1..] == cur + s;
    }
  }

  /** The text before the first separator is the first part. */
  lemma {:induction false} SplitAccCons(a: string, b: string, sep: char, cur: string)
    requires sep !in a && sep !in cur
    ensures SplitAcc(a + [sep] + b, sep, cur) == [cur + a] + Split(b, sep)
    decreases |a|
  {
    if a == [] {
      assert (a + [sep] + b)[1..] == b;
      assert cur + a == cur;
    } else {
      assert (a + [sep] + b)[1..] == a[1..] + [sep] + b;
      SplitAccCons(a[1..], b, sep, cur + [a[0]]);
      assert cur + [a[0]] + a[1..] == cur + a;
    }
  }

  lemma SplitCons(a: string, b: string, sep: char)
    requires sep !in a
    ensures Split(a + [sep] + b, sep) == [a] + Split(b, sep)
  {
    SplitAccCons(a, b, sep, []);
    assert [] + a == a;
  }

  /** `s.split(sep)` for a separator of one or more characters: a left-to-right scan. */
  function SplitStr(s: string, sep: string): (r: seq<string>)
    requires |sep| > 0
    ensures |r| >= 1
  {
    SplitStrAcc(s, sep, [])
  }

  function SplitStrAcc(s: string, sep: string, cur: string): (r: seq<string>)
    requires |sep| > 0
    ensures |r| >= 1
    decreases |s|
  {
    if |s| < |sep| then [cur + s]
    else if s[..|sep|] == sep then [cur] + SplitStrAcc(s[|sep|..], sep, [])
    else SplitStrAcc(s[1..], sep, cur + [s[0]])
  }

  /** Splitting on a separator, then joining by it, gives the string back. */
  lemma SplitStrJoin(s: string, sep: string)
    requires |sep| > 0
    ensures Join(SplitStr(s, sep), sep) == s
  {
    SplitStrAccJoin(s, sep, []);
    assert [] + s == s;
  }

  lemma {:induction false} SplitStrAccJoin(s: string, sep: string, cur: string)
    requires |sep| > 0
    ensures Join(SplitStrAcc(s, sep, cur), sep) == cur + s
    decreases |s|
  {
    if |s| < |sep| {
    } else if s[..|sep|] == sep {
      var t := s[|sep|..];
      SplitStrAccJoin(t, sep, []);
      SepStep(cur, s, sep, SplitStrAcc(t, sep, []));
    } else {
      SplitStrAccJoin(s[1..], sep, cur + [s[0]]);
      assert cur + [s[0]] + s[1..] == cur + s;
    }
  }

  lemma SepStep(cur: string, s: string, sep: string, rest: seq<string>)
    requires |s| >= |sep| && s[..|sep|] == sep && rest != []
    requires Join(rest, sep) == [] + s[|sep|..]
    ensures Join([cur] + rest, sep) == cur + s
  {
    var t := s[|sep|..];
    assert [] + t == t;
    calc {
      Join([cur] + rest, sep);
      { JoinCons(cur, rest, sep); }
      cur + sep + t;
      cur + (sep + t);
      { assert s == s[..|sep|] + t; }
      cur + s;
    }
  }

  lemma JoinCons(x: string, xs: seq<string>, sep: string)
    requires xs != []
    ensures Join([x] + xs, sep) == x + sep + Join(xs, sep)
  {
    assert ([x] + xs)[1..] == xs;
  }

  /** Joining parts free of the separator, then splitting, gives the parts back. */
  lemma {:induction false} SplitJoin(xs: seq<string>, sep: char)
    requires |xs| >= 1 && forall i :: 0 <= i < |xs| ==> sep !in xs[i]
    ensures Split(Join(xs, [sep]), sep) == xs
    decreases |xs|
  {
    if |xs| == 1 {
      SplitNoSep(xs[0], sep);
    } else {
      SplitCons(xs[0], Join(xs[1..], [sep]), sep);
      SplitJoin(xs[1..], sep);
      assert [xs[0]] + xs[1..] == xs;
    }
  }

  /** A string without the separator is a single part. */
  lemma SplitNoSep(s: string, sep: char)
    requires sep !in s
    ensures Split(s, sep) == [s]
  {
    SplitAccNoSep(s, sep, []);
    assert [] + s == s;
  }

  lemma {:induction false} SplitAccNoSep(s: string, sep: char, cur: string)
    requires sep !in s && sep !in cur
    ensures SplitAcc(s, sep, cur) == [cur + s]
    decreases |s|
  {
    if s == [] {
      assert cur + s == cur;
    } else {
      SplitAccNoSep(s[1..], sep, cur + [s[0]]);
      assert cur + [s[0]] + s[1..] == cur + s;
    }
  }

  /** Characters of a joined list come from the parts or the separator. */
  lemma JoinChars(xs: seq<string>, sep: string, c: char)
    requires c in Join(xs, sep)
    ensures c in sep || exists i :: 0 <= i < |xs| && c in xs[i]
  {
    if |xs| > 1 {
      if c !in xs[0] && c !in sep {
        JoinChars(xs[1..], sep, c);
        var i :| 0 <= i < |xs[1..]| && c in xs[1..][i];
        assert c in xs[i + 1];
      }
    }
  }

  /** A non-empty run of non-whitespace characters. */
  predicate IsWord(w: string) {
    w != [] && forall j :: 0 <= j < |w| ==> !IsSpace(w[j])
  }

  /** `s.split()`: the maximal runs of non-whitespace characters. */
  function SplitWs(s: string): seq<string> {
    SplitWsFrom(s, 0)
  }

  /** The maximal runs of non-whitespace characters from index `i` on. */
  function SplitWsFrom(s: string, i: nat): seq<string>
    requires i <= |s|
    decreases |s| - i
  {
    var a := SpaceRunEnd(s, i);
    if a == |s| then []
    else
      var b := WordRunEnd(s, a);
      [s[a..b]] + SplitWsFrom(s, b)
  }

  /** Every part `split()` returns is a word. */
  lemma {:induction false} SplitWsFromWords(s: string, i: nat)
    requires i <= |s|
    ensures forall k :: 0 <= k < |SplitWsFrom(s, i)| ==> IsWord(SplitWsFrom(s, i)[k])
    decreases |s| - i
  {
    var a := SpaceRunEnd(s, i);
    if a < |s| {
      SpaceRunEndSpec(s, i);
      WordRunEndSpec(s, a);
      SplitWsFromWords(s, WordRunEnd(s, a));
    }
  }

  lemma SplitWsWords(s: string)
    ensures forall k :: 0 <= k < |SplitWs(s)| ==> IsWord(SplitWs(s)[k])
  {
    SplitWsFromWords(s, 0);
  }

  /** Joining words (no whitespace in them) by single spaces, then splitting, gives the words back. */
  lemma {:induction false} SplitWsJoin(ws: seq<string>)
    requires forall i :: 0 <= i < |ws| ==> IsWord(ws[i])
    ensures SplitWs(Join(ws, " ")) == ws
    decreases |ws|
  {
    if ws == [] {
    } else if |ws| == 1 {
      var w := ws[0];
      assert w[0..|w|] == w;
      SplitWsFromWord(w, 0, w);
    } else {
      var t := Join(ws[1..], " ");
      assert Join(ws, " ") == ws[0] + " " + t;
      SplitWsCons(ws[0], t);
      SplitWsJoin(ws[1..]);
      assert [ws[0]] + ws[1..] == ws;
    }
  }

  /** A word, a space, then more text: the word is the first part and the text gives the rest. */
  lemma SplitWsCons(w: string, t: string)
    requires IsWord(w)
    ensures SplitWs(w + " " + t) == [w] + SplitWs(t)
  {
    var x := w + " " + t;
    assert x[0..|w|] == w;
    SplitWsFromWord(x, 0, w);
    SplitWsFromSpace(x, |w|);
    assert x == (w + " ") + t;
    SplitWsFromShift(w + " ", t, 0);
  }

  /** What `split()` finds after a prefix depends only on the text after it. */
  lemma {:induction false} SplitWsFromShift(p: string, t: string, j: nat)
    requires j <= |t|
    ensures SplitWsFrom(p + t, |p| + j) == SplitWsFrom(t, j)
    decreases |t| - j
  {
    var x := p + t;
    SpaceRunEndShift(p, t, j);
    var a := SpaceRunEnd(t, j);
    if a < |t| {
      WordRunEndShift(p, t, a);
      var b := WordRunEnd(t, a);
      assert x[|p| + a..|p| + b] == t[a..b];
      SplitWsFromShift(p, t, b);
    }
  }

  lemma {:induction false} SpaceRunEndShift(p: string, t: string, j: nat)
    requires j <= |t|
    ensures SpaceRunEnd(p + t, |p| + j) == |p| + SpaceRunEnd(t, j)
    decreases |t| - j
  {
    if j < |t| {
      assert (p + t)[|p| + j] == t[j];
      SpaceRunEndShift(p, t, j + 1);
    }
  }

  lemma {:induction false} WordRunEndShift(p: string, t: string, j: nat)
    requires j <= |t|
    ensures WordRunEnd(p + t, |p| + j) == |p| + WordRunEnd(t, j)
    decreases |t| - j
  {
    if j < |t| {
      assert (p + t)[|p| + j] == t[j];
      WordRunEndShift(p, t, j + 1);
    }
  }

  /** A word followed by whitespace or the end is the next part `split()` returns. */
  lemma SplitWsFromWord(x: string, i: nat, w: string)
    requires IsWord(w) && i + |w| <= |x| && x[i..i + |w|] == w
    requires i + |w| == |x| || IsSpace(x[i + |w|])
    ensures SplitWsFrom(x, i) == [w] + SplitWsFrom(x, i + |w|)
  {
    assert x[i] == w[0];
    assert SpaceRunEnd(x, i) == i;
    assert forall j :: i <= j < i + |w| ==> x[j] == w[j - i];
    WordRunEndAt(x, i, i + |w|);
  }

  /** A word followed by a space is the next part; `split()` goes on after the space. */
  lemma SplitWsFromCons(x: string, i: nat, w: string)
    requires IsWord(w) && i + |w| < |x| && x[i..i + |w|] == w && x[i + |w|] == ' '
    ensures SplitWsFrom(x, i) == [w] + SplitWsFrom(x, i + |w| + 1)
  {
    SplitWsFromWord(x, i, w);
    SplitWsFromSpace(x, i + |w|);
  }

  /** Leading whitespace does not change what `split()` returns. */
  lemma SplitWsFromSpace(x: string, e: nat)
    requires e < |x| && IsSpace(x[e])
    ensures SplitWsFrom(x, e) == SplitWsFrom(x, e + 1)
  {
    assert SpaceRunEnd(x, e) == SpaceRunEnd(x, e + 1);
  }

  /** The run end is the index that closes a run of non-whitespace characters. */
  lemma {:induction false} WordRunEndAt(s: string, i: nat, e: nat)
    requires i <= e <= |s|
    requires forall j :: i <= j < e ==> !IsSpace(s[j])
    requires e < |s| ==> IsSpace(s[e])
    ensures WordRunEnd(s, i) == e
    decreases e - i
  {
    if i < e {
      WordRunEndAt(s, i + 1, e);
    }
  }

  /** `re.sub(r'\s+', ' ', s)`: each run of whitespace becomes one space. */
  function CollapseSpaces(s: string): string {
    CollapseFrom(s, 0)
  }

  function CollapseFrom(s: string, i: nat): string
    requires i <= |s|
    decreases |s| - i
  {
    if i == |s| then []
    else if IsSpace(s[i]) then " " + CollapseFrom(s, SpaceRunEnd(s, i))
    else [s[i]] + CollapseFrom(s, i + 1)
  }

  /** The collapsed text is empty only at the end, and starts with a space exactly where a run of whitespace starts. */
  lemma CollapseFromHead(s: string, i: nat)
    requires i <= |s|
    ensures CollapseFrom(s, i) == [] <==> i == |s|
    ensures i < |s| && !IsSpace(s[i]) ==> CollapseFrom(s, i)[0] == s[i]
    ensures i < |s| && IsSpace(s[i]) ==> CollapseFrom(s, i)[0] == ' '
  {
  }

  /** Collapsing brings in no character but the space. */
  lemma {:induction false} CollapseFromChars(s: string, i: nat)
    requires i <= |s|
    ensures forall c :: c in CollapseFrom(s, i) ==> c in s[i..] || c == ' '
    decreases |s| - i
  {
    if i < |s| {
      var next := if IsSpace(s[i]) then SpaceRunEnd(s, i) else i + 1;
      CollapseFromChars(s, next);
      assert s[i..] == s[i..next] + s[next..];
    }
  }

  /** The collapsed text is single-spaced. */
  lemma {:induction false} CollapseFromSingle(s: string, i: nat)
    requires i <= |s|
    ensures SingleSpaced(CollapseFrom(s, i))
    decreases |s| - i
  {
    if i < |s| {
      var next := if IsSpace(s[i]) then SpaceRunEnd(s, i) else i + 1;
      SpaceRunEndSpec(s, i);
      CollapseFromSingle(s, next);
      CollapseFromHead(s, next);
      var t := CollapseFrom(s, next);
      var r := CollapseFrom(s, i);
      assert r == [if IsSpace(s[i]) then ' ' else s[i]] + t;
      forall k | 0 <= k < |r| - 1
        ensures !(IsSpace(r[k]) && IsSpace(r[k + 1]))
      {
        if k > 0 {
          assert r[k] == t[k - 1] && r[k + 1] == t[k];
        }
      }
    }
  }

  lemma CollapseSpacesSpec(s: string)
    ensures SingleSpaced(CollapseSpaces(s))
    ensures forall c :: c in CollapseSpaces(s) ==> c in s || c == ' '
    ensures CollapseSpaces(s) == [] <==> s == []
    ensures s != [] && !IsSpace(s[0]) ==> CollapseSpaces(s)[0] == s[0]
  {
    CollapseFromHead(s, 0);
    CollapseFromChars(s, 0);
    CollapseFromSingle(s, 0);
    assert s[0..] == s;
  }

  /** A string whose only whitespace is single, separated spaces is unchanged by collapsing. */
  lemma CollapseSpacesFixed(s: string)
    requires SingleSpaced(s)
    ensures CollapseSpaces(s) == s
  {
    CollapseFromFixed(s, 0);
    assert s[0..] == s;
  }

  lemma {:induction false} CollapseFromFixed(s: string, i: nat)
    requires SingleSpaced(s) && i <= |s|
    ensures CollapseFrom(s, i) == s[i..]
    decreases |s| - i
  {
    if i < |s| {
      if IsSpace(s[i]) {
        assert SpaceRunEnd(s, i) == i + 1 by {
          assert i + 1 < |s| ==> !IsSpace(s[i + 1]);
        }
      }
      CollapseFromFixed(s, i + 1);
      assert s[i..] == [s[i]] + s[i + 1..];
    }
  }

  /** Strip keeps the property of having only single-space runs. */
  lemma StripKeepsSingleSpaced(s: string)
    requires SingleSpaced(s)
    ensures SingleSpaced(Strip(s))
  {
    StripSpec(s);
    var k := |s| - |LStrip(s)|;
    SingleSpacedSlice(s, k, k + |Strip(s)|);
  }

  /** Whitespace occurs only as single spaces (the shape `re.sub(r'\s+', ' ', s)` leaves). */
  predicate SingleSpaced(s: string) {
    (forall i :: 0 <= i < |s| ==> IsSpace(s[i]) ==> s[i] == ' ')
    && (forall i :: 0 <= i < |s| - 1 ==> !(IsSpace(s[i]) && IsSpace(s[i + 1])))
  }

  lemma SingleSpacedSlice(s: string, a: int, b: int)
    requires SingleSpaced(s) && 0 <= a <= b <= |s|
    ensures SingleSpaced(s[a..b])
  {
    var t := s[a..b];
    assert forall i :: 0 <= i < |t| ==> t[i] == s[a + i];
  }

  /** The decimal digits of a natural number (`str(n)`). */
  function NatToString(n: nat): (r: string)
    ensures IsDigits(r)
    decreases n
  {
    if n < 10 then [DigitChar(n)] else NatToString(n / 10) + [DigitChar(n % 10)]
  }

  function DigitChar(d: nat): (c: char)
    requires d < 10
    ensures IsDigitChar(c)
  {
    ('0' as int + d) as char
  }

  /** `str(i)` for any integer. */
  function IntToString(i: int): (r: string)
    ensures i >= 0 ==> r == NatToString(i)
    ensures i < 0 ==> r == "-" + NatToString(-i)
  {
    if i >= 0 then NatToString(i) else "-" + NatToString(-i)
  }

  /** The value of a string of ASCII digits (`int(s)` on such a string). */
  function DigitsValue(s: string): (r: nat)
    requires forall i :: 0 <= i < |s| ==> IsDigitChar(s[i])
    decreases |s|
  {
    if s == [] then 0
    else
      assert IsDigitChar(s[|s| - 1]);
      DigitsValue(s[..|s| - 1]) * 10 + (s[|s| - 1] as int - '0' as int)
  }

  lemma {:induction false} DigitsValueOfNat(n: nat)
    ensures DigitsValue(NatToString(n)) == n
    decreases n
  {
    if n >= 10 {
      DigitsValueOfNat(n / 10);
      var s := NatToString(n);
      assert s[..|s| - 1] == NatToString(n / 10);
    }
  }

  /** `int(s)` where a non-digit string raises `ValueError` (modelled as `None`). */
  function ParseNat(s: string): (r: Option<nat>)
    ensures r.Some? <==> IsDigits(s)
    ensures r.Some? ==> r.value == DigitsValue(s)
  {
    if IsDigits(s) then Some(DigitsValue(s)) else None
  }

  lemma ParseNatToString(n: nat)
    ensures ParseNat(NatToString(n)) == Some(n)
  {
    DigitsValueOfNat(n);
  }

  /** No four consecutive digits occur in `s`. */
  predicate NoYearRun(s: string) {
    |s| < 4 || (!IsYear(s[..4]) && NoYearRun(s[1..]))
  }

  /** `re.search(r'(\d{4})', s)`: the leftmost four-digit run, or "" when there is none. */
  function FirstYearIn(s: string): string {
    if |s| < 4 then "" else if IsYear(s[..4]) then s[..4] else FirstYearIn(s[1..])
  }

  /** The year found is four digits occurring in `s`, and none is found exactly when `s` has no four-digit run. */
  lemma {:induction false} FirstYearInSpec(s: string)
    ensures FirstYearIn(s) == "" <==> NoYearRun(s)
    ensures FirstYearIn(s) != "" ==> IsYear(FirstYearIn(s)) && Contains(s, FirstYearIn(s))
  {
    if |s| >= 4 && !IsYear(s[..4]) {
      FirstYearInSpec(s[1..]);
      if FirstYearIn(s) != "" {
        var y := FirstYearIn(s);
        ContainsAt(s[1..], y);
        var k :| 0 <= k && OccursAt(s[1..], y, k);
        assert s[k + 1..k + 1 + |y|] == s[1..][k..k + |y|];
        assert OccursAt(s, y, k + 1);
        ContainsAt(s, y);
      }
    } else if |s| >= 4 {
      assert OccursAt(s, s[..4], 0);
      ContainsAt(s, s[..4]);
    }
  }
}
