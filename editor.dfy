/**
 * The editor side of the main window: the editor text is split into lines,
 * each non-blank line becomes a numbered paragraph, and sections are applied
 * by remembering, for each section, the paragraph number it starts at.
 *
 * The dialogs that ask for a section name become the `ok` and `name`
 * parameters; the widgets themselves are not part of this model.
 */
module Editor {
  import opened Wrappers
  import opened OrderedMap
  import opened Text
  import opened DocumentModel

  /** The section numerals handed out first, in order. */
  const RomanNumerals: seq<string> := ["I", "II", "III", "IV", "V", "VI", "VII", "VIII", "IX", "X",
    "XI", "XII", "XIII", "XIV", "XV", "XVI", "XVII", "XVIII", "XIX", "XX"]

  // ---------------------------------------------------------------------------
  // Parsing the editor text

  /** Every character is whitespace: the line strips to nothing. */
  predicate IsBlank(line: string) {
    line == [] || (IsSpace(line[0]) && IsBlank(line[1..]))
  }

  /** `not line.strip()` */
  lemma {:induction false} IsBlankStrip(line: string)
    ensures IsBlank(line) <==> Strip(line) == []
  {
    IsBlankAll(line);
    StripSpec(line);
  }

  lemma {:induction false} IsBlankAll(line: string)
    ensures IsBlank(line) <==> forall i :: 0 <= i < |line| ==> IsSpace(line[i])
  {
    if line != [] {
      IsBlankAll(line[1..]);
      assert forall i :: 1 <= i < |line| ==> line[i] == line[1..][i - 1];
    }
  }

  /** The indices of the first `n` lines that are not blank, in order. */
  function NonBlankUpTo(lines: seq<string>, n: nat): (r: seq<nat>)
    requires n <= |lines|
    ensures forall k :: 0 <= k < |r| ==> r[k] < n
  {
    if n == 0 then []
    else NonBlankUpTo(lines, n - 1) + (if IsBlank(lines[n - 1]) then [] else [n - 1])
  }

  function NonBlank(lines: seq<string>): seq<nat> {
    NonBlankUpTo(lines, |lines|)
  }

  /** The indices are increasing, and they are exactly the lines that are not blank. */
  lemma {:induction false} NonBlankUpToSpec(lines: seq<string>, n: nat)
    requires n <= |lines|
    ensures forall k, l :: 0 <= k < l < |NonBlankUpTo(lines, n)| ==> NonBlankUpTo(lines, n)[k] < NonBlankUpTo(lines, n)[l]
    ensures forall i :: 0 <= i < n ==> (i in NonBlankUpTo(lines, n) <==> !IsBlank(lines[i]))
  {
    if n > 0 {
      NonBlankUpToSpec(lines, n - 1);
    }
  }

  /** The paragraphs the first `n` lines give: the `k`-th non-blank line, stripped, is paragraph `k`, in no section yet. */
  function ParsedUpTo(lines: seq<string>, n: nat): (r: seq<Entry<int, Paragraph>>)
    requires n <= |lines|
  {
    if n == 0 then []
    else
      var prev := ParsedUpTo(lines, n - 1);
      prev + (if IsBlank(lines[n - 1]) then [] else [Entry(|prev| + 1, Paragraph(|prev| + 1, Strip(lines[n - 1]), "", None))])
  }

  /** The line map the first `n` lines give: paragraph `k` -> the index of its line. */
  function LineMapUpTo(lines: seq<string>, n: nat): (r: seq<Entry<int, nat>>)
    requires n <= |lines|
    ensures forall k :: 0 <= k < |r| ==> r[k].value < n
  {
    if n == 0 then []
    else
      var prev := LineMapUpTo(lines, n - 1);
      prev + (if IsBlank(lines[n - 1]) then [] else [Entry(|prev| + 1, n - 1)])
  }

  /** Paragraph `k` comes from the `k`-th non-blank line. */
  lemma {:induction false} ParsedIndex(lines: seq<string>, n: nat)
    requires n <= |lines|
    ensures var idx := NonBlankUpTo(lines, n);
      && |ParsedUpTo(lines, n)| == |idx|
      && forall k :: 0 <= k < |idx| ==>
           ParsedUpTo(lines, n)[k] == Entry(k + 1, Paragraph(k + 1, Strip(lines[idx[k]]), "", None))
  {
    if n > 0 {
      ParsedIndex(lines, n - 1);
      var prev := ParsedUpTo(lines, n - 1);
      var idx := NonBlankUpTo(lines, n);
      if !IsBlank(lines[n - 1]) {
        assert idx == NonBlankUpTo(lines, n - 1) + [n - 1];
        assert ParsedUpTo(lines, n) == prev + [Entry(|prev| + 1, Paragraph(|prev| + 1, Strip(lines[n - 1]), "", None))];
      }
    }
  }

  /** Line map entry `k` holds the index of the `k`-th non-blank line. */
  lemma {:induction false} LineMapIndex(lines: seq<string>, n: nat)
    requires n <= |lines|
    ensures var idx := NonBlankUpTo(lines, n);
      && |LineMapUpTo(lines, n)| == |idx|
      && forall k :: 0 <= k < |idx| ==> LineMapUpTo(lines, n)[k] == Entry(k + 1, idx[k])
  {
    if n > 0 {
      LineMapIndex(lines, n - 1);
    }
  }

  /** The line map's keys are 1, 2, ... in order. */
  lemma LineMapKeys(lines: seq<string>)
    ensures var lm := LineMapUpTo(lines, |lines|);
      forall k :: 0 <= k < |lm| ==> lm[k].key == k + 1
  {
    LineMapIndex(lines, |lines|);
  }

  /** Later paragraphs come from later lines. */
  lemma LineMapIncreasing(lines: seq<string>)
    ensures var lm := LineMapUpTo(lines, |lines|);
      forall k, l :: 0 <= k < l < |lm| ==> lm[k].value < lm[l].value
  {
    NonBlankUpToSpec(lines, |lines|);
    LineMapIndex(lines, |lines|);
  }

  /** Exactly the non-blank lines are some paragraph's line. */
  lemma LineMapOnto(lines: seq<string>)
    ensures var lm := LineMapUpTo(lines, |lines|);
      forall i :: 0 <= i < |lines| ==> (!IsBlank(lines[i]) <==> exists k :: 0 <= k < |lm| && lm[k].value == i)
  {
    var idx := NonBlank(lines);
    NonBlankUpToSpec(lines, |lines|);
    LineMapIndex(lines, |lines|);
    var lm := LineMapUpTo(lines, |lines|);
    forall i | 0 <= i < |lines| && !IsBlank(lines[i]) ensures exists k :: 0 <= k < |lm| && lm[k].value == i {
      var k :| 0 <= k < |idx| && idx[k] == i;
      assert lm[k].value == i;
    }
  }

  /** Paragraph `k` holds the stripped text of the line the line map gives for it, which is never empty. */
  lemma ParsedTextSpec(lines: seq<string>)
    ensures |LineMapUpTo(lines, |lines|)| == |ParsedUpTo(lines, |lines|)|
    ensures var ps := ParsedUpTo(lines, |lines|); var lm := LineMapUpTo(lines, |lines|);
      forall k :: 0 <= k < |ps| ==> ps[k].value.text == Strip(lines[lm[k].value]) && ps[k].value.text != []
  {
    var idx := NonBlank(lines);
    NonBlankUpToSpec(lines, |lines|);
    ParsedIndex(lines, |lines|);
    LineMapIndex(lines, |lines|);
    forall k | 0 <= k < |idx| ensures Strip(lines[idx[k]]) != [] {
      assert idx[k] in idx;
      IsBlankStrip(lines[idx[k]]);
    }
  }

  /**
   * `_parse_paragraphs`: the non-blank lines are numbered 1..n in order, each
   * paragraph's text is its line stripped (so never empty), and the line
   * map sends paragraph `k` to its line, with line indices strictly
   * increasing.
   */
  lemma ParseSpec(lines: seq<string>)
    ensures Continuous(ParsedUpTo(lines, |lines|))
    ensures |LineMapUpTo(lines, |lines|)| == |ParsedUpTo(lines, |lines|)|
    ensures var lm := LineMapUpTo(lines, |lines|);
      forall k :: 0 <= k < |lm| ==> lm[k].key == k + 1 && lm[k].value < |lines|
    ensures var ps := ParsedUpTo(lines, |lines|); var lm := LineMapUpTo(lines, |lines|);
      forall k :: 0 <= k < |ps| ==> ps[k].value.text == Strip(lines[lm[k].value]) && ps[k].value.text != []
    ensures var lm := LineMapUpTo(lines, |lines|);
      forall k, l :: 0 <= k < l < |lm| ==> lm[k].value < lm[l].value
    ensures var lm := LineMapUpTo(lines, |lines|);
      forall i :: 0 <= i < |lines| ==> (!IsBlank(lines[i]) <==> exists k :: 0 <= k < |lm| && lm[k].value == i)
  {
    ParsedIndex(lines, |lines|);
    LineMapKeys(lines);
    LineMapIncreasing(lines);
    LineMapOnto(lines);
    ParsedTextSpec(lines);
  }

  /** The section starts kept after parsing `n` paragraphs: those at a paragraph that still exists. */
  function KeepStarts(starts: seq<Entry<int, Section>>, n: int): seq<Entry<int, Section>> {
    if starts == [] then []
    else
      var last := starts[|starts| - 1];
      KeepStarts(starts[..|starts| - 1], n) + (if last.key <= n then [last] else [])
  }

  /** A section start survives exactly when its paragraph number is at most `n`, with its section. */
  lemma {:induction false} KeepStartsMembers(starts: seq<Entry<int, Section>>, n: int)
    ensures forall e :: e in KeepStarts(starts, n) <==> e in starts && e.key <= n
  {
    if starts != [] {
      var init := starts[..|starts| - 1];
      KeepStartsMembers(init, n);
      assert starts == init + [starts[|starts| - 1]];
    }
  }

  /** No paragraph number starts two kept sections. */
  lemma {:induction false} KeepStartsDistinct(starts: seq<Entry<int, Section>>, n: int)
    requires DistinctKeys(starts)
    ensures DistinctKeys(KeepStarts(starts, n))
  {
    if starts != [] {
      var init := starts[..|starts| - 1];
      var last := starts[|starts| - 1];
      assert DistinctKeys(init);
      KeepStartsDistinct(init, n);
      if last.key <= n {
        var kept := KeepStarts(init, n);
        KeepStartsMembers(init, n);
        forall t | 0 <= t < |kept| ensures kept[t].key != last.key {
          assert kept[t] in kept;
          var i :| 0 <= i < |init| && init[i] == kept[t];
          assert starts[i] == kept[t];
        }
        PutFresh(kept, last.key, last.value);
        PutDistinct(kept, last.key, last.value);
      }
    }
  }

  lemma KeepStartsSpec(starts: seq<Entry<int, Section>>, n: int)
    ensures forall e :: e in KeepStarts(starts, n) <==> e in starts && e.key <= n
    ensures DistinctKeys(starts) ==> DistinctKeys(KeepStarts(starts, n))
  {
    KeepStartsMembers(starts, n);
    if DistinctKeys(starts) {
      KeepStartsDistinct(starts, n);
    }
  }

  // ---------------------------------------------------------------------------
  // Section numerals

  /** The ids of the sections that start somewhere, in dictionary order. */
  function SectionIds(starts: seq<Entry<int, Section>>): (r: seq<string>)
    ensures |r| == |starts|
    ensures forall i :: 0 <= i < |starts| ==> r[i] == starts[i].value.id
  {
    if starts == [] then [] else SectionIds(starts[..|starts| - 1]) + [starts[|starts| - 1].value.id]
  }

  /** The first numeral not in use, else `S` and one more than the number of sections. */
  function ChooseNumeral(existing: seq<string>, count: nat): string {
    var i := FirstIndex(RomanNumerals, (r: string) => r !in existing);
    if i.Some? then RomanNumerals[i.value] else "S" + NatToString(count + 1)
  }

  /** The numeral is the first of I..XX not in use. */
  lemma ChooseNumeralFirst(existing: seq<string>, count: nat, i: nat)
    requires i < |RomanNumerals| && RomanNumerals[i] !in existing
    requires forall j :: 0 <= j < i ==> RomanNumerals[j] in existing
    ensures ChooseNumeral(existing, count) == RomanNumerals[i]
  {
    FirstIndexAt(RomanNumerals, (r: string) => r !in existing, i);
  }

  /** While a numeral is free, the one chosen is a numeral not in use. */
  lemma ChooseNumeralFree(existing: seq<string>, count: nat)
    requires exists i :: 0 <= i < |RomanNumerals| && RomanNumerals[i] !in existing
    ensures ChooseNumeral(existing, count) !in existing && ChooseNumeral(existing, count) in RomanNumerals
  {
    var i := FirstIndex(RomanNumerals, (r: string) => r !in existing);
    assert i.Some?;
  }

  /** Only when all twenty are used is it `S<count + 1>`. */
  lemma ChooseNumeralFallback(existing: seq<string>, count: nat)
    requires forall i :: 0 <= i < |RomanNumerals| ==> RomanNumerals[i] in existing
    ensures ChooseNumeral(existing, count) == "S" + NatToString(count + 1)
  {
    var i := FirstIndex(RomanNumerals, (r: string) => r !in existing);
    assert i.None?;
  }

  // ---------------------------------------------------------------------------
  // Moving a section

  /** The start of the first section with the id, if any. */
  function StartOf(starts: seq<Entry<int, Section>>, id: string): Option<int> {
    var i := FirstIndex(starts, (e: Entry<int, Section>) => e.value.id == id);
    if i.Some? then Some(starts[i.value].key) else None
  }

  /** `_assign_to_section`: the section's current start, if any, is deleted, then it starts at `paraNum`. */
  function Reassigned(starts: seq<Entry<int, Section>>, paraNum: int, section: Section): seq<Entry<int, Section>> {
    var cur := StartOf(starts, section.id);
    Put(if cur.Some? then Remove(starts, cur.value) else starts, paraNum, section)
  }

  /** No two section starts hold sections with the same id. */
  predicate UniqueIds(starts: seq<Entry<int, Section>>) {
    forall i, j :: 0 <= i < j < |starts| ==> starts[i].value.id != starts[j].value.id
  }

  /**
   * After moving, the section starts at `paraNum`; its old start is gone
   * (unless it was `paraNum`); every other start keeps its section; and
   * starts stay distinct, as do section ids when they were.
   */
  lemma ReassignedSpec(starts: seq<Entry<int, Section>>, paraNum: int, section: Section)
    requires DistinctKeys(starts)
    ensures var r := Reassigned(starts, paraNum, section);
      && Get(r, paraNum) == Some(section)
      && DistinctKeys(r)
      && (forall k :: k != paraNum && Some(k) != StartOf(starts, section.id) ==> Get(r, k) == Get(starts, k))
      && (StartOf(starts, section.id).Some? && StartOf(starts, section.id).value != paraNum ==>
            Get(r, StartOf(starts, section.id).value) == None)
      && (UniqueIds(starts) ==> UniqueIds(r))
  {
    var cur := StartOf(starts, section.id);
    var m := if cur.Some? then Remove(starts, cur.value) else starts;
    if cur.Some? {
      RemoveDistinct(starts, cur.value);
      forall k ensures Get(m, k) == if k == cur.value then None else Get(starts, k) {
        GetRemove(starts, cur.value, k);
      }
    }
    PutDistinct(m, paraNum, section);
    forall k ensures Get(Put(m, paraNum, section), k) == if k == paraNum then Some(section) else Get(m, k) {
      GetPut(m, paraNum, section, k);
    }
    if UniqueIds(starts) {
      ReassignedUnique(starts, section, m);
      PutUnique(m, paraNum, section);
    }
  }

  /** Once the section's start is deleted, and ids were unique, no start holds the section's id. */
  lemma ReassignedUnique(starts: seq<Entry<int, Section>>, section: Section, m: seq<Entry<int, Section>>)
    requires DistinctKeys(starts) && UniqueIds(starts)
    requires m == if StartOf(starts, section.id).Some? then Remove(starts, StartOf(starts, section.id).value) else starts
    ensures UniqueIds(m)
    ensures forall i :: 0 <= i < |m| ==> m[i].value.id != section.id
  {
    var p := (e: Entry<int, Section>) => e.value.id == section.id;
    var fi := FirstIndex(starts, p);
    if fi.Some? {
      var k := starts[fi.value].key;
      RemoveEntries(starts, k);
      RemoveSubsequence(starts, k);
      forall i | 0 <= i < |m| ensures m[i].value.id != section.id {
        assert m[i] in m;
        var j :| 0 <= j < |starts| && starts[j] == m[i];
        if j != fi.value {
          assert starts[j].value.id != starts[fi.value].value.id;
        }
      }
    }
  }

  /** Deleting a key keeps the remaining pairs in order, so unique ids stay unique. */
  lemma {:induction false} RemoveSubsequence(m: seq<Entry<int, Section>>, k: int)
    requires UniqueIds(m)
    ensures UniqueIds(Remove(m, k))
  {
    if m != [] {
      RemoveSubsequence(m[1..], k);
      if m[0].key != k {
        RemoveEntries(m[1..], k);
        var rest := Remove(m[1..], k);
        forall j | 0 <= j < |rest| ensures rest[j].value.id != m[0].value.id {
          assert rest[j] in rest;
          var t :| 0 <= t < |m[1..]| && m[1..][t] == rest[j];
          assert m[t + 1] == rest[j];
        }
        assert Remove(m, k) == [m[0]] + rest;
      }
    }
  }

  /** Storing a section whose id no start holds keeps ids unique. */
  lemma {:induction false} PutUnique(m: seq<Entry<int, Section>>, k: int, section: Section)
    requires UniqueIds(m) && forall i :: 0 <= i < |m| ==> m[i].value.id != section.id
    ensures UniqueIds(Put(m, k, section))
  {
    if m != [] {
      if m[0].key == k {
        assert Put(m, k, section) == [Entry(k, section)] + m[1..];
      } else {
        PutUnique(m[1..], k, section);
        PutEntries(m[1..], k, section);
        var rest := Put(m[1..], k, section);
        forall j | 0 <= j < |rest| ensures rest[j].value.id != m[0].value.id {
          assert rest[j] in rest;
          if rest[j] != Entry(k, section) {
            var t :| 0 <= t < |m[1..]| && m[1..][t] == rest[j];
            assert m[t + 1] == rest[j];
          }
        }
        assert Put(m, k, section) == [m[0]] + rest;
      }
    }
  }

  // ---------------------------------------------------------------------------
  // Looking up a paragraph's section

  /** The greatest start at or before `paraNum`, if any. */
  function LastStartAtMost(keys: seq<int>, paraNum: int): Option<int> {
    if keys == [] then None
    else
      var rest := LastStartAtMost(keys[1..], paraNum);
      if keys[0] > paraNum then rest
      else if rest.Some? && rest.value > keys[0] then rest
      else Some(keys[0])
  }

  lemma {:induction false} LastStartAtMostSpec(keys: seq<int>, paraNum: int)
    ensures LastStartAtMost(keys, paraNum).None? <==> forall i :: 0 <= i < |keys| ==> keys[i] > paraNum
    ensures LastStartAtMost(keys, paraNum).Some? ==>
      var r := LastStartAtMost(keys, paraNum).value;
      r in keys && r <= paraNum && forall i :: 0 <= i < |keys| && keys[i] <= paraNum ==> keys[i] <= r
  {
    if keys != [] {
      LastStartAtMostSpec(keys[1..], paraNum);
      assert keys == [keys[0]] + keys[1..];
    }
  }

  /** `_get_section_for_para`: the section whose start is the greatest one at or before the paragraph. */
  function SectionFor(starts: seq<Entry<int, Section>>, paraNum: int): Option<Section> {
    var k := LastStartAtMost(Keys(starts), paraNum);
    if k.None? then None else Get(starts, k.value)
  }

  /**
   * No section when every start is after the paragraph; otherwise the
   * section stored at the greatest start that is at or before it.
   */
  lemma SectionForSpec(starts: seq<Entry<int, Section>>, paraNum: int)
    requires DistinctKeys(starts)
    ensures SectionFor(starts, paraNum).None? <==> forall i :: 0 <= i < |starts| ==> starts[i].key > paraNum
    ensures SectionFor(starts, paraNum).Some? ==>
      exists i :: 0 <= i < |starts| && starts[i].key <= paraNum && SectionFor(starts, paraNum) == Some(starts[i].value)
        && forall j :: 0 <= j < |starts| && starts[j].key <= paraNum ==> starts[j].key <= starts[i].key
  {
    var keys := Keys(starts);
    LastStartAtMostSpec(keys, paraNum);
    var k := LastStartAtMost(keys, paraNum);
    if k.Some? {
      var i :| 0 <= i < |keys| && keys[i] == k.value;
      GetAt(starts, i);
    }
  }

  // ---------------------------------------------------------------------------
  // Selecting a clicked paragraph's line

  /** `sum(len(lines[i]) + 1 for i in range(idx))`: where line `idx` starts in the text. */
  function CharOffset(lines: seq<string>, idx: nat): nat
    requires idx <= |lines|
  {
    if idx == 0 then 0 else |lines[0]| + 1 + CharOffset(lines[1..], idx - 1)
  }

  /** In the lines joined by line feeds, line `idx` starts at its offset. */
  lemma {:induction false} CharOffsetLine(lines: seq<string>, idx: nat)
    requires idx < |lines|
    ensures CharOffset(lines, idx) + |lines[idx]| <= |Join(lines, "\n")|
    ensures Join(lines, "\n")[CharOffset(lines, idx)..CharOffset(lines, idx) + |lines[idx]|] == lines[idx]
  {
    var j := Join(lines, "\n");
    if |lines| > 1 {
      var t := Join(lines[1..], "\n");
      assert j == lines[0] + "\n" + t;
      if idx > 0 {
        CharOffsetLine(lines[1..], idx - 1);
        var a := CharOffset(lines[1..], idx - 1);
        assert lines[1..][idx - 1] == lines[idx];
        assert j[|lines[0]| + 1 + a..|lines[0]| + 1 + a + |lines[idx]|] == t[a..a + |lines[idx]|];
      } else {
        assert j[..|lines[0]|] == lines[0];
      }
    } else {
      assert j == lines[0];
    }
  }

  /**
   * The selection a click on a paragraph makes: the paragraph's line, from
   * its offset to its end, or nothing when the paragraph has no line or the
   * line is gone from the text.
   */
  function ClickSelection(lineMap: seq<Entry<int, nat>>, text: string, paraNum: int): Option<(nat, nat)> {
    var li := Get<int, nat>(lineMap, paraNum);
    var lines := Split(text, '\n');
    if li.None? || li.value >= |lines| then None
    else Some((CharOffset(lines, li.value), CharOffset(lines, li.value) + |lines[li.value]|))
  }

  /** A selection covers exactly the paragraph's line of the text. */
  lemma ClickSelectionSpec(lineMap: seq<Entry<int, nat>>, text: string, paraNum: int)
    ensures ClickSelection(lineMap, text, paraNum).None? <==>
      Get<int, nat>(lineMap, paraNum).None? || Get<int, nat>(lineMap, paraNum).value >= |Split(text, '\n')|
    ensures ClickSelection(lineMap, text, paraNum).Some? ==>
      var (a, b) := ClickSelection(lineMap, text, paraNum).value;
      a <= b <= |text| && text[a..b] == Split(text, '\n')[Get<int, nat>(lineMap, paraNum).value]
  {
    var li := Get<int, nat>(lineMap, paraNum);
    var lines := Split(text, '\n');
    if li.Some? && li.value < |lines| {
      JoinSplit(text, '\n');
      CharOffsetLine(lines, li.value);
    }
  }

  // ---------------------------------------------------------------------------
  // The window's document state

  class MainWindow {
    const document: Document
    /** `_para_line_map`: paragraph number -> line index. */
    var paraLineMap: seq<Entry<int, nat>>
    /** `_section_starts`: paragraph number -> the section that starts there. */
    var sectionStarts: seq<Entry<int, Section>>

    constructor()
      ensures fresh(document) && document.title == "New Document"
      ensures document.sections == [] && document.paragraphs == []
      ensures paraLineMap == [] && sectionStarts == []
    {
      document := new Document("New Document");
      paraLineMap := [];
      sectionStarts := [];
    }

    /** The loop of `_parse_paragraphs` over the lines: each non-blank line, stripped, is the next paragraph. */
    static method ParseLines(lines: seq<string>) returns (paragraphs: seq<Entry<int, Paragraph>>, lineMap: seq<Entry<int, nat>>)
      ensures paragraphs == ParsedUpTo(lines, |lines|)
      ensures lineMap == LineMapUpTo(lines, |lines|)
    {
      paragraphs := [];
      lineMap := [];
      var paraNum := 1;
      var lineIdx := 0;
      while lineIdx < |lines|
        invariant 0 <= lineIdx <= |lines|
        invariant paragraphs == ParsedUpTo(lines, lineIdx)
        invariant lineMap == LineMapUpTo(lines, lineIdx)
        invariant paraNum == |paragraphs| + 1
      {
        var cleaned := Strip(lines[lineIdx]);
        IsBlankStrip(lines[lineIdx]);
        if cleaned != [] {
          var para := Paragraph(paraNum, cleaned, "", None);
          ParseStep(lines, lineIdx);
          paragraphs := Put(paragraphs, paraNum, para);
          lineMap := Put(lineMap, paraNum, lineIdx);
          paraNum := paraNum + 1;
        } else {
          ParseSkip(lines, lineIdx);
        }
        lineIdx := lineIdx + 1;
      }
    }

    /** The loop of `_parse_paragraphs` over the old section starts: those within the first `count` paragraphs survive. */
    static method KeptStarts(oldSections: seq<Entry<int, Section>>, count: int) returns (kept: seq<Entry<int, Section>>)
      requires DistinctKeys(oldSections)
      ensures kept == KeepStarts(oldSections, count)
    {
      kept := [];
      var i := 0;
      while i < |oldSections|
        invariant 0 <= i <= |oldSections|
        invariant kept == KeepStarts(oldSections[..i], count)
      {
        assert oldSections[..i + 1][..i] == oldSections[..i];
        if oldSections[i].key <= count {
          KeepStartsFresh(oldSections, i, count, kept);
          kept := Put(kept, oldSections[i].key, oldSections[i].value);
        }
        i := i + 1;
      }
      assert oldSections[..i] == oldSections;
    }

    /**
     * `_parse_paragraphs`: the paragraphs and the line map are rebuilt from
     * the text's lines, and the section starts past the last paragraph are
     * dropped.
     */
    method ParseParagraphs(text: string)
      requires DistinctKeys(sectionStarts)
      modifies this, document
      ensures DistinctKeys(sectionStarts)
      ensures document.paragraphs == ParsedUpTo(Split(text, '\n'), |Split(text, '\n')|)
      ensures paraLineMap == LineMapUpTo(Split(text, '\n'), |Split(text, '\n')|)
      ensures sectionStarts == KeepStarts(old(sectionStarts), |ParsedUpTo(Split(text, '\n'), |Split(text, '\n')|)|)
      ensures document.sections == old(document.sections) && document.title == old(document.title)
      ensures document.caption == old(document.caption) && document.signature == old(document.signature)
    {
      var lines := Split(text, '\n');
      var paragraphs, lineMap := ParseLines(lines);
      var kept := KeptStarts(sectionStarts, |paragraphs|);
      KeepStartsSpec(sectionStarts, |paragraphs|);
      document.paragraphs := paragraphs;
      paraLineMap := lineMap;
      sectionStarts := kept;
    }

    /** The position of the first name not in `existing`, or `|names|` when all are used. */
    static method FirstUnused(names: seq<string>, existing: seq<string>) returns (i: nat)
      ensures i <= |names| && forall j :: 0 <= j < i ==> names[j] in existing
      ensures i < |names| ==> names[i] !in existing
    {
      i := 0;
      while i < |names| && names[i] in existing
        invariant i <= |names| && forall j :: 0 <= j < i ==> names[j] in existing
      {
        i := i + 1;
      }
    }

    /** The scan for the first free numeral, falling back to `S<count + 1>`. */
    static method FirstFreeNumeral(existing: seq<string>, count: nat) returns (numeral: string)
      ensures numeral == ChooseNumeral(existing, count)
    {
      var i := FirstUnused(RomanNumerals, existing);
      if i < |RomanNumerals| {
        ChooseNumeralFirst(existing, count, i);
        numeral := RomanNumerals[i];
      } else {
        ChooseNumeralFallback(existing, count);
        numeral := "S" + NatToString(count + 1);
      }
    }

    /**
     * `_create_section_at`: a blank name (or a cancelled dialog) changes
     * nothing; otherwise the section, named in capitals and given the next
     * free numeral, starts at `paraNum`.
     */
    method CreateSectionAt(paraNum: int, ok: bool, name: string)
      modifies this
      ensures !ok || Strip(name) == [] ==> sectionStarts == old(sectionStarts)
      ensures ok && Strip(name) != [] ==> sectionStarts == Put(old(sectionStarts), paraNum,
        Section(ChooseNumeral(SectionIds(old(sectionStarts)), |old(sectionStarts)|), Upper(Strip(name)), [], [], None))
      ensures paraLineMap == old(paraLineMap)
    {
      if !ok || Strip(name) == [] {
        return;
      }
      var title := Upper(Strip(name));
      var numeral := FirstFreeNumeral(SectionIds(sectionStarts), |sectionStarts|);
      sectionStarts := Put(sectionStarts, paraNum, Section(numeral, title, [], [], None));
    }

    /** `_assign_to_section`: the section moves to start at `paraNum`. */
    method AssignToSection(paraNum: int, section: Section)
      modifies this
      ensures sectionStarts == Reassigned(old(sectionStarts), paraNum, section)
      ensures paraLineMap == old(paraLineMap)
    {
      ghost var same := (e: Entry<int, Section>) => e.value.id == section.id;
      var current: Option<int> := None;
      var i := 0;
      while i < |sectionStarts|
        invariant 0 <= i <= |sectionStarts|
        invariant forall j :: 0 <= j < i ==> sectionStarts[j].value.id != section.id
      {
        if sectionStarts[i].value.id == section.id {
          FirstIndexAt(sectionStarts, same, i);
          current := Some(sectionStarts[i].key);
          break;
        }
        i := i + 1;
      }
      if current.Some? {
        sectionStarts := Remove(sectionStarts, current.value);
      }
      sectionStarts := Put(sectionStarts, paraNum, section);
    }

    /** `_remove_section`: the section starting at the paragraph is deleted, if there is one. */
    method RemoveSection(start: int)
      modifies this
      ensures sectionStarts == Remove(old(sectionStarts), start)
      ensures paraLineMap == old(paraLineMap)
    {
      if Get(sectionStarts, start).Some? {
        sectionStarts := Remove(sectionStarts, start);
      } else {
        GetNone(sectionStarts, start);
        RemoveAbsent(sectionStarts, start);
      }
    }

    /** `_remove_from_section`: the same deletion, from the paragraph's context menu. */
    method RemoveFromSection(paraNum: int)
      modifies this
      ensures sectionStarts == Remove(old(sectionStarts), paraNum)
      ensures paraLineMap == old(paraLineMap)
    {
      RemoveSection(paraNum);
    }
  }

  /** A non-blank line's paragraph and line index go in under a new key. */
  lemma ParseStep(lines: seq<string>, lineIdx: nat)
    requires lineIdx < |lines| && !IsBlank(lines[lineIdx])
    ensures var ps := ParsedUpTo(lines, lineIdx); var n := |ps| + 1;
      Put(ps, n, Paragraph(n, Strip(lines[lineIdx]), "", None)) == ParsedUpTo(lines, lineIdx + 1)
    ensures var lm := LineMapUpTo(lines, lineIdx); var n := |ParsedUpTo(lines, lineIdx)| + 1;
      Put(lm, n, lineIdx) == LineMapUpTo(lines, lineIdx + 1)
  {
    ParsedIndex(lines, lineIdx);
    LineMapIndex(lines, lineIdx);
    var ps := ParsedUpTo(lines, lineIdx);
    var n := |ps| + 1;
    PutFresh(ps, n, Paragraph(n, Strip(lines[lineIdx]), "", None));
    PutFresh(LineMapUpTo(lines, lineIdx), n, lineIdx);
  }

  /** A blank line adds nothing. */
  lemma ParseSkip(lines: seq<string>, lineIdx: nat)
    requires lineIdx < |lines| && IsBlank(lines[lineIdx])
    ensures ParsedUpTo(lines, lineIdx + 1) == ParsedUpTo(lines, lineIdx)
    ensures LineMapUpTo(lines, lineIdx + 1) == LineMapUpTo(lines, lineIdx)
  {
    assert ParsedUpTo(lines, lineIdx) + [] == ParsedUpTo(lines, lineIdx);
    assert LineMapUpTo(lines, lineIdx) + [] == LineMapUpTo(lines, lineIdx);
  }

  /** A kept start goes at the end, under a key not kept before. */
  lemma KeepStartsFresh(starts: seq<Entry<int, Section>>, i: nat, n: int, kept: seq<Entry<int, Section>>)
    requires i < |starts| && starts[i].key <= n && kept == KeepStarts(starts[..i], n)
    requires DistinctKeys(starts)
    ensures Put(kept, starts[i].key, starts[i].value) == KeepStarts(starts[..i + 1], n)
  {
    KeepStartsSpec(starts[..i], n);
    forall t | 0 <= t < |kept| ensures kept[t].key != starts[i].key {
      assert kept[t] in kept;
      var j :| 0 <= j < i && starts[..i][j] == kept[t];
    }
    PutFresh(kept, starts[i].key, starts[i].value);
    assert starts[..i + 1][..i] == starts[..i];
  }
}
