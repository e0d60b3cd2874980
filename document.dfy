/**
 * The document of a federal court filing: sections (I, II, ...) that may
 * hold sub-items (a, b, ...), and paragraphs numbered continuously through
 * the whole document.  Sections and sub-items refer to paragraphs by number;
 * the document keeps the paragraphs in a dictionary keyed by number.
 */
module DocumentModel {
  import opened Wrappers
  import opened OrderedMap
  import opened Sorting

  datatype CaseCaption = CaseCaption(court: string, plaintiff: string, defendant: string, caseNumber: string)

  /** The caption a new document starts with. */
  const DefaultCaption := CaseCaption("IN THE UNITED STATES DISTRICT COURT\nFOR THE SOUTHERN DISTRICT OF MISSISSIPPI", "", "", "")

  datatype SignatureBlock = SignatureBlock(
    attorneyName: string, barNumber: string, firmName: string, address: string, phone: string, email: string)

  const EmptySignature := SignatureBlock("", "", "", "", "", "")

  datatype CaseProfile = CaseProfile(name: string, caption: CaseCaption, signature: SignatureBlock)

  /** Blank lines before a section header, after it, and between paragraphs. */
  datatype SpacingSettings = SpacingSettings(beforeSection: int, afterSection: int, betweenParagraphs: int)

  const DefaultSpacing := SpacingSettings(1, 1, 1)

  const DefaultTitle := "Untitled Document"

  datatype Paragraph = Paragraph(number: int, text: string, sectionId: string, subitemId: Option<string>)

  datatype SubItem = SubItem(id: string, title: Option<string>, paragraphIds: seq<int>)

  datatype Section = Section(
    id: string, title: string, subitems: seq<SubItem>, paragraphIds: seq<int>, customSpacing: Option<SpacingSettings>)

  // ---------------------------------------------------------------------------
  // Display text

  /** Python's `s[:n]`, where a negative `n` counts from the end. */
  function Prefix(s: string, n: int): string {
    if n >= |s| then s
    else if n >= 0 then s[..n]
    else if |s| + n >= 0 then s[..|s| + n]
    else []
  }

  /** `get_display_text`: the text, cut to `maxLength` characters and marked with "..." when longer. */
  function DisplayText(p: Paragraph, maxLength: int): string {
    if |p.text| > maxLength then Prefix(p.text, maxLength) + "..." else p.text
  }

  /**
   * A text no longer than the limit is shown whole; a longer one is shown as
   * a proper prefix of it followed by "...", and for a limit of zero or more
   * that prefix has exactly `maxLength` characters.
   */
  lemma DisplayTextSpec(p: Paragraph, maxLength: int)
    ensures |p.text| <= maxLength ==> DisplayText(p, maxLength) == p.text
    ensures |p.text| > maxLength ==>
      exists k :: 0 <= k <= |p.text| && DisplayText(p, maxLength) == p.text[..k] + "..."
    ensures 0 <= maxLength < |p.text| ==>
      DisplayText(p, maxLength) == p.text[..maxLength] + "..." && |DisplayText(p, maxLength)| == maxLength + 3
  {
    if |p.text| > maxLength {
      var k := if maxLength >= 0 then maxLength else if |p.text| + maxLength >= 0 then |p.text| + maxLength else 0;
      assert p.text[..0] == [];
      assert DisplayText(p, maxLength) == p.text[..k] + "...";
    }
  }

  // ---------------------------------------------------------------------------
  // Paragraph references

  /** The ids the sub-items list, one sub-item after the other. */
  function SubitemIds(subs: seq<SubItem>): seq<int> {
    if subs == [] then [] else subs[0].paragraphIds + SubitemIds(subs[1..])
  }

  /** A section's references: its own list, then each sub-item's. */
  function SectionRefs(sec: Section): seq<int> {
    sec.paragraphIds + SubitemIds(sec.subitems)
  }

  /** Every reference in the document, section by section, in the order renumbering visits them. */
  function Refs(secs: seq<Section>): seq<int> {
    if secs == [] then [] else SectionRefs(secs[0]) + Refs(secs[1..])
  }

  lemma {:induction false} RefsConcat(a: seq<Section>, b: seq<Section>)
    ensures Refs(a + b) == Refs(a) + Refs(b)
  {
    if a != [] {
      assert (a + b)[1..] == a[1..] + b;
      RefsConcat(a[1..], b);
    } else {
      assert a + b == b;
    }
  }

  lemma {:induction false} SubitemIdsConcat(a: seq<SubItem>, b: seq<SubItem>)
    ensures SubitemIds(a + b) == SubitemIds(a) + SubitemIds(b)
  {
    if a != [] {
      assert (a + b)[1..] == a[1..] + b;
      SubitemIdsConcat(a[1..], b);
    } else {
      assert a + b == b;
    }
  }

  /** Replacing one section changes the references only in its stretch. */
  lemma RefsUpdate(secs: seq<Section>, i: nat, sec: Section)
    requires i < |secs|
    ensures Refs(secs) == Refs(secs[..i]) + SectionRefs(secs[i]) + Refs(secs[i + 1..])
    ensures Refs(secs[i := sec]) == Refs(secs[..i]) + SectionRefs(sec) + Refs(secs[i + 1..])
  {
    assert secs == secs[..i] + [secs[i]] + secs[i + 1..];
    RefsConcat(secs[..i] + [secs[i]], secs[i + 1..]);
    RefsConcat(secs[..i], [secs[i]]);
    var t := secs[i := sec];
    assert t == secs[..i] + [sec] + secs[i + 1..];
    RefsConcat(secs[..i] + [sec], secs[i + 1..]);
    RefsConcat(secs[..i], [sec]);
  }

  lemma SubitemIdsUpdate(subs: seq<SubItem>, j: nat, s: SubItem)
    requires j < |subs|
    ensures SubitemIds(subs) == SubitemIds(subs[..j]) + subs[j].paragraphIds + SubitemIds(subs[j + 1..])
    ensures SubitemIds(subs[j := s]) == SubitemIds(subs[..j]) + s.paragraphIds + SubitemIds(subs[j + 1..])
  {
    assert subs == subs[..j] + [subs[j]] + subs[j + 1..];
    SubitemIdsConcat(subs[..j] + [subs[j]], subs[j + 1..]);
    SubitemIdsConcat(subs[..j], [subs[j]]);
    var t := subs[j := s];
    assert t == subs[..j] + [s] + subs[j + 1..];
    SubitemIdsConcat(subs[..j] + [s], subs[j + 1..]);
    SubitemIdsConcat(subs[..j], [s]);
  }

  /** `get_all_paragraph_ids`: the section's own ids and its sub-items' ids, sorted. */
  function AllParagraphIds(sec: Section): seq<int> {
    SortInts(SectionRefs(sec))
  }

  /** The ids are in ascending order and are exactly the section's references, each as often. */
  lemma AllParagraphIdsSpec(sec: Section)
    ensures forall i, j :: 0 <= i < j < |AllParagraphIds(sec)| ==> AllParagraphIds(sec)[i] <= AllParagraphIds(sec)[j]
    ensures multiset(AllParagraphIds(sec)) == multiset(sec.paragraphIds) + multiset(SubitemIds(sec.subitems))
  {
    SortIntsSpec(SectionRefs(sec));
  }

  // ---------------------------------------------------------------------------
  // Filing a new paragraph

  /** Python's truthiness of the optional sub-item id. */
  predicate HasSubitem(sub: Option<string>) {
    sub.Some? && sub.value != ""
  }

  /** The section after number `n` is filed in it: under the first sub-item named `sub`, or directly. */
  function FileInSection(sec: Section, sub: Option<string>, n: int): Section {
    if HasSubitem(sub) then
      var j := FirstIndex(sec.subitems, (si: SubItem) => si.id == sub.value);
      if j.None? then sec
      else sec.(subitems := sec.subitems[j.value := sec.subitems[j.value].(paragraphIds := sec.subitems[j.value].paragraphIds + [n])])
    else sec.(paragraphIds := sec.paragraphIds + [n])
  }

  /** The sections after number `n` is filed in the first section with id `sid`. */
  function FileUnder(secs: seq<Section>, sid: string, sub: Option<string>, n: int): seq<Section> {
    var i := FirstIndex(secs, (s: Section) => s.id == sid);
    if i.None? then secs else secs[i.value := FileInSection(secs[i.value], sub, n)]
  }

  /** Section `i` is the first one with id `sid`. */
  predicate FirstSection(secs: seq<Section>, sid: string, i: int) {
    0 <= i < |secs| && secs[i].id == sid && forall k :: 0 <= k < i ==> secs[k].id != sid
  }

  /** The paragraph finds a list to go in: a section with the id, and the sub-item if one is named. */
  predicate Filed(secs: seq<Section>, sid: string, sub: Option<string>) {
    exists i :: 0 <= i < |secs| && FirstSection(secs, sid, i) &&
      (!HasSubitem(sub) || HasSubitemNamed(secs[i], sub.value))
  }

  /** The same id, title, spacing and sub-item names: only paragraph lists differ. */
  predicate SameSectionShape(a: Section, b: Section) {
    a.id == b.id && a.title == b.title && a.customSpacing == b.customSpacing &&
    |a.subitems| == |b.subitems| &&
    forall k :: 0 <= k < |a.subitems| ==> a.subitems[k].id == b.subitems[k].id && a.subitems[k].title == b.subitems[k].title
  }

  /** Section by section the same shape. */
  predicate SameShape(a: seq<Section>, b: seq<Section>) {
    |a| == |b| && forall i :: 0 <= i < |a| ==> SameSectionShape(a[i], b[i])
  }

  predicate HasSubitemNamed(sec: Section, name: string) {
    exists k :: 0 <= k < |sec.subitems| && sec.subitems[k].id == name
  }

  lemma FileInSectionSpec(sec: Section, sub: Option<string>, n: int)
    ensures SameSectionShape(FileInSection(sec, sub, n), sec)
    ensures !HasSubitem(sub) || HasSubitemNamed(sec, sub.value) ==>
      multiset(SectionRefs(FileInSection(sec, sub, n))) == multiset(SectionRefs(sec)) + multiset{n}
    ensures HasSubitem(sub) && !HasSubitemNamed(sec, sub.value) ==> FileInSection(sec, sub, n) == sec
  {
    if HasSubitem(sub) {
      var j := FirstIndex(sec.subitems, (si: SubItem) => si.id == sub.value);
      if j.Some? {
        FileInSubitem(sec, j.value, n);
      }
    }
  }

  /** Appending to sub-item `j`'s list adds the one reference and keeps the shape. */
  lemma FileInSubitem(sec: Section, j: int, n: int)
    requires 0 <= j < |sec.subitems|
    ensures var s := sec.subitems[j]; var r := sec.(subitems := sec.subitems[j := s.(paragraphIds := s.paragraphIds + [n])]);
      SameSectionShape(r, sec) && multiset(SectionRefs(r)) == multiset(SectionRefs(sec)) + multiset{n}
  {
    var s := sec.subitems[j];
    SubitemIdsUpdate(sec.subitems, j, s.(paragraphIds := s.paragraphIds + [n]));
  }

  /** The first section with the id is the one `FileUnder` finds. */
  lemma FirstSectionIndex(secs: seq<Section>, sid: string, sub: Option<string>, n: int, i: int)
    requires FirstSection(secs, sid, i)
    ensures FirstIndex(secs, (s: Section) => s.id == sid) == Some(i)
    ensures FileUnder(secs, sid, sub, n) == secs[i := FileInSection(secs[i], sub, n)]
  {
    FirstIndexAt(secs, (s: Section) => s.id == sid, i);
  }

  /**
   * `add_paragraph`'s filing: the number is appended to exactly one list,
   * that of the first section with the id (or of its first sub-item with the
   * name), when there is one; otherwise nothing changes.  No section or
   * sub-item is renamed, added or lost, and every other section is unchanged.
   */
  lemma FileUnderSpec(secs: seq<Section>, sid: string, sub: Option<string>, n: int)
    ensures SameShape(FileUnder(secs, sid, sub, n), secs)
    ensures Filed(secs, sid, sub) ==> multiset(Refs(FileUnder(secs, sid, sub, n))) == multiset(Refs(secs)) + multiset{n}
    ensures !Filed(secs, sid, sub) ==> FileUnder(secs, sid, sub, n) == secs
    ensures forall i, k :: FirstSection(secs, sid, i) && 0 <= k < |secs| && k != i ==> FileUnder(secs, sid, sub, n)[k] == secs[k]
  {
    var i := FirstIndex(secs, (s: Section) => s.id == sid);
    if i.Some? {
      FileUnderAt(secs, sid, sub, n, i.value);
    } else {
      assert !Filed(secs, sid, sub);
    }
  }

  lemma FileUnderAt(secs: seq<Section>, sid: string, sub: Option<string>, n: int, i: int)
    requires FirstSection(secs, sid, i)
    ensures SameShape(FileUnder(secs, sid, sub, n), secs)
    ensures Filed(secs, sid, sub) ==> multiset(Refs(FileUnder(secs, sid, sub, n))) == multiset(Refs(secs)) + multiset{n}
    ensures !Filed(secs, sid, sub) ==> FileUnder(secs, sid, sub, n) == secs
    ensures forall i', k :: FirstSection(secs, sid, i') && 0 <= k < |secs| && k != i' ==> FileUnder(secs, sid, sub, n)[k] == secs[k]
  {
    FirstSectionIndex(secs, sid, sub, n, i);
    var sec := FileInSection(secs[i], sub, n);
    FileInSectionSpec(secs[i], sub, n);
    FirstSectionUnique(secs, sid, i);
    FiledAt(secs, sid, sub, i);
    SameShapeUpdate(secs, i, sec);
    if Filed(secs, sid, sub) {
      RefsMultisetUpdate(secs, i, sec, n);
    }
  }

  lemma FiledAt(secs: seq<Section>, sid: string, sub: Option<string>, i: int)
    requires FirstSection(secs, sid, i)
    ensures Filed(secs, sid, sub) <==> !HasSubitem(sub) || HasSubitemNamed(secs[i], sub.value)
  {
    FirstSectionUnique(secs, sid, i);
  }

  lemma SameShapeUpdate(secs: seq<Section>, i: int, sec: Section)
    requires 0 <= i < |secs| && SameSectionShape(sec, secs[i])
    ensures SameShape(secs[i := sec], secs)
  {
  }

  lemma RefsMultisetUpdate(secs: seq<Section>, i: int, sec: Section, n: int)
    requires 0 <= i < |secs|
    requires multiset(SectionRefs(sec)) == multiset(SectionRefs(secs[i])) + multiset{n}
    ensures multiset(Refs(secs[i := sec])) == multiset(Refs(secs)) + multiset{n}
  {
    RefsUpdate(secs, i, sec);
  }

  lemma FirstSectionUnique(secs: seq<Section>, sid: string, i: int)
    requires FirstSection(secs, sid, i)
    ensures forall i' :: FirstSection(secs, sid, i') ==> i' == i
  {
  }

  // ---------------------------------------------------------------------------
  // Continuous numbering

  /** The paragraphs are keyed 1, 2, ..., in order, and each carries its key as its number. */
  predicate Continuous(m: seq<Entry<int, Paragraph>>) {
    forall i :: 0 <= i < |m| ==> m[i].key == i + 1 && m[i].value.number == i + 1
  }

  /** Storing paragraph `|m| + 1` under its number keeps the numbering continuous. */
  lemma PutNextContinuous(m: seq<Entry<int, Paragraph>>, p: Paragraph)
    requires Continuous(m) && p.number == |m| + 1
    ensures Put(m, |m| + 1, p) == m + [Entry(|m| + 1, p)]
    ensures Continuous(Put(m, |m| + 1, p))
  {
    assert forall i :: 0 <= i < |m| ==> m[i].key != |m| + 1;
    KeysPut(m, |m| + 1, p);
  }

  /** Continuously numbered paragraphs have distinct keys, and paragraph `n` is stored under `n`. */
  lemma ContinuousGet(m: seq<Entry<int, Paragraph>>, n: int)
    requires Continuous(m)
    ensures DistinctKeys(m)
    ensures 1 <= n <= |m| ==> Get(m, n) == Some(m[n - 1].value) && Get(m, n).value.number == n
    ensures !(1 <= n <= |m|) ==> Get(m, n) == None
  {
    if 1 <= n <= |m| {
      GetAt(m, n - 1);
    } else {
      GetNone(m, n);
    }
  }

  // ---------------------------------------------------------------------------
  // Renumbering, as `renumber_paragraphs` does it

  predicate Resolves(paras: seq<Entry<int, Paragraph>>, id: int) {
    Get(paras, id).Some?
  }

  /** The references that name a stored paragraph, in order (`if para_id in self.paragraphs`). */
  function Resolved(xs: seq<int>, paras: seq<Entry<int, Paragraph>>): seq<int> {
    if xs == [] then [] else (if Resolves(paras, xs[0]) then [xs[0]] else []) + Resolved(xs[1..], paras)
  }

  lemma {:induction false} ResolvedConcat(a: seq<int>, b: seq<int>, paras: seq<Entry<int, Paragraph>>)
    ensures Resolved(a + b, paras) == Resolved(a, paras) + Resolved(b, paras)
  {
    if a != [] {
      assert (a + b)[1..] == a[1..] + b;
      ResolvedConcat(a[1..], b, paras);
    } else {
      assert a + b == b;
    }
  }

  /** The resolved references are the references that resolve. */
  lemma {:induction false} ResolvedMembers(xs: seq<int>, paras: seq<Entry<int, Paragraph>>)
    ensures forall id :: id in Resolved(xs, paras) <==> id in xs && Resolves(paras, id)
  {
    if xs != [] {
      ResolvedMembers(xs[1..], paras);
      assert xs == [xs[0]] + xs[1..];
    }
  }

  /** Keeping only the resolving references adds no repeats. */
  lemma {:induction false} ResolvedDistinct(xs: seq<int>, paras: seq<Entry<int, Paragraph>>)
    requires Distinct(xs)
    ensures Distinct(Resolved(xs, paras))
  {
    if xs != [] {
      ResolvedDistinct(xs[1..], paras);
      ResolvedMembers(xs[1..], paras);
      assert xs[0] !in xs[1..];
    }
  }

  /** When every reference resolves, none is dropped. */
  lemma {:induction false} ResolvedAll(xs: seq<int>, paras: seq<Entry<int, Paragraph>>)
    requires forall k :: 0 <= k < |xs| ==> Resolves(paras, xs[k])
    ensures Resolved(xs, paras) == xs
  {
    if xs != [] {
      ResolvedAll(xs[1..], paras);
    }
  }

  predicate Distinct(xs: seq<int>) {
    forall i, j :: 0 <= i < j < |xs| ==> xs[i] != xs[j]
  }

  /** The stored paragraph with the id (only asked of ids that resolve). */
  function ParaOf(paras: seq<Entry<int, Paragraph>>, id: int): Paragraph {
    Get(paras, id).GetOr(Paragraph(0, "", "", None))
  }

  /** `para.number` during the loop: reassigned numbers are in `nums`, keyed by the paragraph's old key. */
  function NumberOf(paras: seq<Entry<int, Paragraph>>, nums: map<int, int>, id: int): int {
    if id in nums then nums[id] else ParaOf(paras, id).number
  }

  /** `xs[xs.index(a)] = b` when `a in xs`: the first occurrence of `a` becomes `b`. */
  function ReplaceFirst(xs: seq<int>, a: int, b: int): seq<int> {
    if xs == [] then []
    else if xs[0] == a then [b] + xs[1..]
    else [xs[0]] + ReplaceFirst(xs[1..], a, b)
  }

  /** Only the first occurrence changes; a list without `a` is unchanged. */
  lemma {:induction false} ReplaceFirstSpec(xs: seq<int>, a: int, b: int, i: int)
    requires 0 <= i <= |xs| && (forall k :: 0 <= k < i ==> xs[k] != a) && (i == |xs| || xs[i] == a)
    ensures i < |xs| ==> ReplaceFirst(xs, a, b) == xs[i := b]
    ensures i == |xs| ==> ReplaceFirst(xs, a, b) == xs
  {
    if xs != [] && xs[0] != a {
      ReplaceFirstSpec(xs[1..], a, b, i - 1);
      assert xs == [xs[0]] + xs[1..];
      if i < |xs| {
        assert [xs[0]] + xs[1..][i - 1 := b] == xs[i := b];
      }
    }
  }

  function PatchSubitems(subs: seq<SubItem>, a: int, b: int): (r: seq<SubItem>)
    ensures |r| == |subs|
  {
    if subs == [] then []
    else
      var last := subs[|subs| - 1];
      PatchSubitems(subs[..|subs| - 1], a, b) + [last.(paragraphIds := ReplaceFirst(last.paragraphIds, a, b))]
  }

  /** One section after the inner loop: the first `a` in its own list and in each sub-item's list becomes `b`. */
  function PatchSection(sec: Section, a: int, b: int): Section {
    sec.(paragraphIds := ReplaceFirst(sec.paragraphIds, a, b), subitems := PatchSubitems(sec.subitems, a, b))
  }

  function PatchAll(secs: seq<Section>, a: int, b: int): (r: seq<Section>)
    ensures |r| == |secs|
  {
    if secs == [] then [] else PatchAll(secs[..|secs| - 1], a, b) + [PatchSection(secs[|secs| - 1], a, b)]
  }

  /**
   * The sections and the reassigned numbers after the first `|ordered|`
   * turns of the renumbering loop: turn `i` gives paragraph `ordered[i - 1]`
   * number `i` and rewrites the first reference to its previous number, in
   * every list, to `i`.
   */
  function RenumberSteps(secs: seq<Section>, paras: seq<Entry<int, Paragraph>>, ordered: seq<int>): (seq<Section>, map<int, int>)
    decreases |ordered|
  {
    if ordered == [] then (secs, map[])
    else
      var prev := RenumberSteps(secs, paras, ordered[..|ordered| - 1]);
      var id := ordered[|ordered| - 1];
      (PatchAll(prev.0, NumberOf(paras, prev.1, id), |ordered|), prev.1[id := |ordered|])
  }

  /** Turn `i + 1` of the loop, on top of the first `i` turns. */
  lemma RenumberStepsSnoc(secs: seq<Section>, paras: seq<Entry<int, Paragraph>>, ordered: seq<int>, i: int)
    requires 0 <= i < |ordered|
    ensures var prev := RenumberSteps(secs, paras, ordered[..i]);
      RenumberSteps(secs, paras, ordered[..i + 1])
        == (PatchAll(prev.0, NumberOf(paras, prev.1, ordered[i]), i + 1), prev.1[ordered[i] := i + 1])
  {
    assert ordered[..i + 1][..i] == ordered[..i];
  }

  /** The new dictionary: key `i` holds the paragraph of `ordered[i - 1]`, with the number it was given last. */
  function Rebuild(paras: seq<Entry<int, Paragraph>>, nums: map<int, int>, ordered: seq<int>): (r: seq<Entry<int, Paragraph>>)
    ensures |r| == |ordered|
  {
    if ordered == [] then []
    else
      var id := ordered[|ordered| - 1];
      Rebuild(paras, nums, ordered[..|ordered| - 1]) + [Entry(|ordered|, ParaOf(paras, id).(number := NumberOf(paras, nums, id)))]
  }

  lemma {:induction false} RebuildIndex(paras: seq<Entry<int, Paragraph>>, nums: map<int, int>, ordered: seq<int>)
    ensures forall k :: 0 <= k < |ordered| ==>
      Rebuild(paras, nums, ordered)[k] == Entry(k + 1, ParaOf(paras, ordered[k]).(number := NumberOf(paras, nums, ordered[k])))
  {
    if ordered != [] {
      var init := ordered[..|ordered| - 1];
      RebuildIndex(paras, nums, init);
      forall k | 0 <= k < |init| ensures ordered[k] == init[k] { }
    }
  }

  /** Every paragraph visited is given a number from 1 to `|ordered|`; with no repeats, its position. */
  lemma {:induction false} RenumberStepsNums(secs: seq<Section>, paras: seq<Entry<int, Paragraph>>, ordered: seq<int>)
    ensures var nums := RenumberSteps(secs, paras, ordered).1;
      forall k :: 0 <= k < |ordered| ==> ordered[k] in nums && 1 <= nums[ordered[k]] <= |ordered|
    ensures Distinct(ordered) ==> var nums := RenumberSteps(secs, paras, ordered).1;
      forall k :: 0 <= k < |ordered| ==> nums[ordered[k]] == k + 1
    decreases |ordered|
  {
    if ordered != [] {
      var init := ordered[..|ordered| - 1];
      RenumberStepsNums(secs, paras, init);
      forall k | 0 <= k < |init| ensures ordered[k] == init[k] { }
    }
  }

  /** The order the first loop of `renumber_paragraphs` collects: every reference that resolves. */
  function RenumberOrder(secs: seq<Section>, paras: seq<Entry<int, Paragraph>>): seq<int> {
    Resolved(Refs(secs), paras)
  }

  function AsWrittenSections(secs: seq<Section>, paras: seq<Entry<int, Paragraph>>): seq<Section> {
    RenumberSteps(secs, paras, RenumberOrder(secs, paras)).0
  }

  function AsWrittenParagraphs(secs: seq<Section>, paras: seq<Entry<int, Paragraph>>): seq<Entry<int, Paragraph>> {
    var ordered := RenumberOrder(secs, paras);
    Rebuild(paras, RenumberSteps(secs, paras, ordered).1, ordered)
  }

  /**
   * When no paragraph is referenced twice, `renumber_paragraphs` leaves the
   * paragraphs keyed 1..k, each numbered with its key, where k is the number
   * of references that resolve: key `i` holds the paragraph of the `i`-th
   * such reference, so paragraphs no section refers to are dropped.
   */
  lemma RenumberNumbering(secs: seq<Section>, paras: seq<Entry<int, Paragraph>>)
    requires Distinct(Refs(secs))
    ensures var r := AsWrittenParagraphs(secs, paras); var ordered := RenumberOrder(secs, paras);
      && Continuous(r) && |r| == |ordered|
      && (forall k :: 0 <= k < |r| ==> r[k].value == ParaOf(paras, ordered[k]).(number := k + 1))
      && (forall id :: id in ordered <==> id in Refs(secs) && Resolves(paras, id))
  {
    var ordered := RenumberOrder(secs, paras);
    ResolvedMembers(Refs(secs), paras);
    ResolvedDistinct(Refs(secs), paras);
    RenumberStepsNums(secs, paras, ordered);
    RebuildIndex(paras, RenumberSteps(secs, paras, ordered).1, ordered);
  }

  /**
   * The first loop's rewriting collides: two sections referring to paragraphs
   * 2 and 1, in that order, end up both referring to 2.  The paragraph the
   * first section showed, "B", is no longer referred to, and the first
   * section now shows "A".
   */
  lemma RenumberCollision()
    ensures var paras := [Entry(1, Paragraph(1, "A", "I", None)), Entry(2, Paragraph(2, "B", "II", None))];
      var secs := [Section("I", "", [], [2], None), Section("II", "", [], [1], None)];
      && ParaOf(paras, Refs(secs)[0]).text == "B"
      && Refs(AsWrittenSections(secs, paras)) == [2, 2]
      && ParaOf(AsWrittenParagraphs(secs, paras), Refs(AsWrittenSections(secs, paras))[0]).text == "A"
  {
    var paras := [Entry(1, Paragraph(1, "A", "I", None)), Entry(2, Paragraph(2, "B", "II", None))];
    var secs := [Section("I", "", [], [2], None), Section("II", "", [], [1], None)];
    assert Refs(secs) == [2, 1];
    assert RenumberOrder(secs, paras) == [2, 1];
    var s1 := RenumberSteps(secs, paras, [2]);
    assert [2, 1][..1] == [2];
    assert s1.0 == [Section("I", "", [], [1], None), Section("II", "", [], [1], None)];
    assert s1.1 == map[2 := 1];
    assert Get(paras, 1) == Some(Paragraph(1, "A", "I", None));
    assert NumberOf(paras, s1.1, 1) == 1;
    assert ReplaceFirst([1], 1, 2) == [2];
    assert PatchSection(s1.0[0], 1, 2) == Section("I", "", [], [2], None);
    assert PatchSection(s1.0[1], 1, 2) == Section("II", "", [], [2], None);
    assert s1.0[..1] == [s1.0[0]];
    assert PatchAll(s1.0, 1, 2) == PatchAll(s1.0[..1], 1, 2) + [PatchSection(s1.0[1], 1, 2)];
    var s2 := RenumberSteps(secs, paras, [2, 1]);
    assert s2.0 == [Section("I", "", [], [2], None), Section("II", "", [], [2], None)];
    var t := s2.0;
    assert SectionRefs(t[0]) == [2] && SectionRefs(t[1]) == [2];
    assert t[1..][1..] == [];
    assert Refs(t[1..]) == [2];
    assert Refs(t) == [2, 2];
  }

  // ---------------------------------------------------------------------------
  // Renumbering by position (the evident intent)

  /** Each resolving reference, in turn, takes the next number from `next`; the others stay. */
  function RelabelList(xs: seq<int>, paras: seq<Entry<int, Paragraph>>, next: int): (r: seq<int>)
    ensures |r| == |xs|
  {
    if xs == [] then []
    else if Resolves(paras, xs[0]) then [next] + RelabelList(xs[1..], paras, next + 1)
    else [xs[0]] + RelabelList(xs[1..], paras, next)
  }

  lemma {:induction false} RelabelListConcat(a: seq<int>, b: seq<int>, paras: seq<Entry<int, Paragraph>>, next: int)
    ensures RelabelList(a + b, paras, next) == RelabelList(a, paras, next) + RelabelList(b, paras, next + |Resolved(a, paras)|)
  {
    if a != [] {
      assert (a + b)[1..] == a[1..] + b;
      RelabelListConcat(a[1..], b, paras, if Resolves(paras, a[0]) then next + 1 else next);
    } else {
      assert a + b == b;
    }
  }

  /** When every reference resolves, they are relabelled `next`, `next + 1`, ... */
  lemma {:induction false} RelabelListAll(xs: seq<int>, paras: seq<Entry<int, Paragraph>>, next: int)
    requires forall k :: 0 <= k < |xs| ==> Resolves(paras, xs[k])
    ensures forall k :: 0 <= k < |xs| ==> RelabelList(xs, paras, next)[k] == next + k
  {
    if xs != [] {
      RelabelListAll(xs[1..], paras, next + 1);
      forall k | 0 < k < |xs| ensures RelabelList(xs, paras, next)[k] == next + k {
        assert xs[1..][k - 1] == xs[k];
      }
    }
  }

  function RelabelSubitems(subs: seq<SubItem>, paras: seq<Entry<int, Paragraph>>, next: int): (r: seq<SubItem>)
    ensures |r| == |subs|
  {
    if subs == [] then []
    else
      [subs[0].(paragraphIds := RelabelList(subs[0].paragraphIds, paras, next))]
      + RelabelSubitems(subs[1..], paras, next + |Resolved(subs[0].paragraphIds, paras)|)
  }

  function RelabelSection(sec: Section, paras: seq<Entry<int, Paragraph>>, next: int): Section {
    sec.(paragraphIds := RelabelList(sec.paragraphIds, paras, next),
         subitems := RelabelSubitems(sec.subitems, paras, next + |Resolved(sec.paragraphIds, paras)|))
  }

  function RelabelSections(secs: seq<Section>, paras: seq<Entry<int, Paragraph>>, next: int): (r: seq<Section>)
    ensures |r| == |secs|
  {
    if secs == [] then []
    else [RelabelSection(secs[0], paras, next)] + RelabelSections(secs[1..], paras, next + |Resolved(SectionRefs(secs[0]), paras)|)
  }

  lemma {:induction false} RelabelSubitemsRefs(subs: seq<SubItem>, paras: seq<Entry<int, Paragraph>>, next: int)
    ensures SubitemIds(RelabelSubitems(subs, paras, next)) == RelabelList(SubitemIds(subs), paras, next)
    ensures forall k :: 0 <= k < |subs| ==>
      RelabelSubitems(subs, paras, next)[k].id == subs[k].id && RelabelSubitems(subs, paras, next)[k].title == subs[k].title
  {
    if subs != [] {
      var n := next + |Resolved(subs[0].paragraphIds, paras)|;
      RelabelSubitemsRefs(subs[1..], paras, n);
      RelabelListConcat(subs[0].paragraphIds, SubitemIds(subs[1..]), paras, next);
      var r := RelabelSubitems(subs, paras, next);
      assert r[1..] == RelabelSubitems(subs[1..], paras, n);
      forall k | 0 < k < |subs| ensures r[k].id == subs[k].id && r[k].title == subs[k].title {
        assert r[k] == r[1..][k - 1] && subs[k] == subs[1..][k - 1];
      }
    }
  }

  lemma RelabelSectionRefs(sec: Section, paras: seq<Entry<int, Paragraph>>, next: int)
    ensures SectionRefs(RelabelSection(sec, paras, next)) == RelabelList(SectionRefs(sec), paras, next)
    ensures SameSectionShape(RelabelSection(sec, paras, next), sec)
  {
    RelabelSubitemsRefs(sec.subitems, paras, next + |Resolved(sec.paragraphIds, paras)|);
    RelabelListConcat(sec.paragraphIds, SubitemIds(sec.subitems), paras, next);
  }

  lemma {:induction false} RelabelSectionsRefs(secs: seq<Section>, paras: seq<Entry<int, Paragraph>>, next: int)
    ensures Refs(RelabelSections(secs, paras, next)) == RelabelList(Refs(secs), paras, next)
    ensures SameShape(RelabelSections(secs, paras, next), secs)
  {
    if secs != [] {
      var n := next + |Resolved(SectionRefs(secs[0]), paras)|;
      RelabelSectionsRefs(secs[1..], paras, n);
      RelabelSectionRefs(secs[0], paras, next);
      RelabelListConcat(SectionRefs(secs[0]), Refs(secs[1..]), paras, next);
      var r := RelabelSections(secs, paras, next);
      assert r[1..] == RelabelSections(secs[1..], paras, n);
      assert r[0] == RelabelSection(secs[0], paras, next);
      forall i | 0 < i < |secs| ensures r[i] == r[1..][i - 1] && secs[i] == secs[1..][i - 1] { }
    }
  }

  /** The new dictionary: key `i` holds the paragraph of the `i`-th resolving reference, numbered `i`. */
  function Renumbered(paras: seq<Entry<int, Paragraph>>, ordered: seq<int>): (r: seq<Entry<int, Paragraph>>)
    ensures |r| == |ordered|
  {
    if ordered == [] then []
    else Renumbered(paras, ordered[..|ordered| - 1]) + [Entry(|ordered|, ParaOf(paras, ordered[|ordered| - 1]).(number := |ordered|))]
  }

  lemma {:induction false} RenumberedIndex(paras: seq<Entry<int, Paragraph>>, ordered: seq<int>)
    ensures forall k :: 0 <= k < |ordered| ==> Renumbered(paras, ordered)[k] == Entry(k + 1, ParaOf(paras, ordered[k]).(number := k + 1))
  {
    if ordered != [] {
      var init := ordered[..|ordered| - 1];
      RenumberedIndex(paras, init);
      forall k | 0 <= k < |init| ensures ordered[k] == init[k] { }
    }
  }

  /** Renumbering by position: every resolving reference is rewritten to its place in the visiting order. */
  function RenumberByPosition(secs: seq<Section>, paras: seq<Entry<int, Paragraph>>): (seq<Section>, seq<Entry<int, Paragraph>>) {
    (RelabelSections(secs, paras, 1), Renumbered(paras, RenumberOrder(secs, paras)))
  }

  /**
   * When every reference resolves, renumbering by position keeps the layout,
   * numbers the references 1, 2, ... in visiting order, numbers the
   * paragraphs continuously, and each reference still shows the paragraph it
   * showed before.
   */
  lemma RenumberByPositionSpec(secs: seq<Section>, paras: seq<Entry<int, Paragraph>>)
    requires forall k :: 0 <= k < |Refs(secs)| ==> Resolves(paras, Refs(secs)[k])
    ensures var (s, p) := RenumberByPosition(secs, paras);
      && SameShape(s, secs)
      && |Refs(s)| == |Refs(secs)| && (forall k :: 0 <= k < |Refs(s)| ==> Refs(s)[k] == k + 1)
      && Continuous(p) && |p| == |Refs(secs)|
      && (forall k :: 0 <= k < |Refs(secs)| ==> Get(p, Refs(s)[k]) == Some(ParaOf(paras, Refs(secs)[k]).(number := k + 1)))
  {
    var refs := Refs(secs);
    RelabelSectionsRefs(secs, paras, 1);
    RelabelListAll(refs, paras, 1);
    ResolvedAll(refs, paras);
    RenumberedContinuous(paras, refs);
    RenumberedGet(paras, refs, Refs(RelabelSections(secs, paras, 1)));
  }

  lemma RenumberedContinuous(paras: seq<Entry<int, Paragraph>>, ordered: seq<int>)
    ensures Continuous(Renumbered(paras, ordered))
    ensures forall k :: 0 <= k < |ordered| ==> Renumbered(paras, ordered)[k].value == ParaOf(paras, ordered[k]).(number := k + 1)
  {
    RenumberedIndex(paras, ordered);
  }

  lemma RenumberedGet(paras: seq<Entry<int, Paragraph>>, ordered: seq<int>, labels: seq<int>)
    requires |labels| == |ordered| && forall k :: 0 <= k < |labels| ==> labels[k] == k + 1
    ensures forall k :: 0 <= k < |ordered| ==>
      Get(Renumbered(paras, ordered), labels[k]) == Some(ParaOf(paras, ordered[k]).(number := k + 1))
  {
    var p := Renumbered(paras, ordered);
    RenumberedContinuous(paras, ordered);
    forall k | 0 <= k < |ordered| ensures Get(p, labels[k]) == Some(ParaOf(paras, ordered[k]).(number := k + 1)) {
      ContinuousGet(p, k + 1);
    }
  }

  lemma SubitemIdsStep(sec: Section, j: int, paras: seq<Entry<int, Paragraph>>)
    requires 0 <= j < |sec.subitems|
    ensures Resolved(sec.paragraphIds + SubitemIds(sec.subitems[..j + 1]), paras)
      == Resolved(sec.paragraphIds + SubitemIds(sec.subitems[..j]), paras) + Resolved(sec.subitems[j].paragraphIds, paras)
  {
    var subs := sec.subitems;
    SubitemIdsConcat(subs[..j], [subs[j]]);
    assert subs[..j + 1] == subs[..j] + [subs[j]];
    assert [subs[j]][1..] == [];
    assert SubitemIds([subs[j]]) == subs[j].paragraphIds;
    ResolvedConcat(sec.paragraphIds + SubitemIds(subs[..j]), subs[j].paragraphIds, paras);
    assert sec.paragraphIds + SubitemIds(subs[..j + 1]) == (sec.paragraphIds + SubitemIds(subs[..j])) + subs[j].paragraphIds;
  }

  lemma RefsStep(secs: seq<Section>, k: int, paras: seq<Entry<int, Paragraph>>)
    requires 0 <= k < |secs|
    ensures Resolved(Refs(secs[..k + 1]), paras) == Resolved(Refs(secs[..k]), paras) + Resolved(SectionRefs(secs[k]), paras)
  {
    RefsConcat(secs[..k], [secs[k]]);
    assert [secs[k]][1..] == [];
    assert Refs([secs[k]]) == SectionRefs(secs[k]);
    assert secs[..k + 1] == secs[..k] + [secs[k]];
    ResolvedConcat(Refs(secs[..k]), SectionRefs(secs[k]), paras);
  }

  lemma PatchSubitemsStep(subs: seq<SubItem>, j: int, a: int, b: int)
    requires 0 <= j < |subs|
    ensures var x := subs[j].(paragraphIds := ReplaceFirst(subs[j].paragraphIds, a, b));
      (PatchSubitems(subs[..j], a, b) + subs[j..])[j := x] == PatchSubitems(subs[..j + 1], a, b) + subs[j + 1..]
      && (PatchSubitems(subs[..j], a, b) + subs[j..])[j] == subs[j]
  {
    assert subs[..j + 1][..j] == subs[..j];
  }

  lemma PatchAllStep(secs: seq<Section>, k: int, a: int, b: int)
    requires 0 <= k < |secs|
    ensures (PatchAll(secs[..k], a, b) + secs[k..])[k := PatchSection(secs[k], a, b)] == PatchAll(secs[..k + 1], a, b) + secs[k + 1..]
    ensures (PatchAll(secs[..k], a, b) + secs[k..])[k] == secs[k]
  {
    assert secs[..k + 1][..k] == secs[..k];
  }

  // ---------------------------------------------------------------------------
  // The document

  class Document {
    var title: string
    var sections: seq<Section>
    /** `self.paragraphs`: number -> paragraph, in insertion order. */
    var paragraphs: seq<Entry<int, Paragraph>>
    var caption: CaseCaption
    var signature: SignatureBlock

    /** A new, empty document with the default caption (the title defaults to `DefaultTitle`). */
    constructor(title: string)
      ensures this.title == title && sections == [] && paragraphs == []
      ensures caption == DefaultCaption && signature == EmptySignature
    {
      this.title := title;
      sections := [];
      paragraphs := [];
      caption := DefaultCaption;
      signature := EmptySignature;
    }

    /** `add_section`: a new empty section goes at the end. */
    method AddSection(sectionId: string, sectionTitle: string) returns (s: Section)
      modifies this
      ensures s == Section(sectionId, sectionTitle, [], [], None)
      ensures sections == old(sections) + [s]
      ensures paragraphs == old(paragraphs) && title == old(title)
      ensures caption == old(caption) && signature == old(signature)
    {
      s := Section(sectionId, sectionTitle, [], [], None);
      sections := sections + [s];
    }

    /**
     * `add_paragraph`: the paragraph takes the next number, `len(paragraphs) + 1`,
     * is stored under it and is filed in its section.  Continuous numbering
     * is kept.
     */
    method AddParagraph(text: string, sectionId: string, subitemId: Option<string>) returns (p: Paragraph)
      requires DistinctKeys(paragraphs)
      modifies this
      ensures p == Paragraph(|old(paragraphs)| + 1, text, sectionId, subitemId)
      ensures paragraphs == Put(old(paragraphs), p.number, p) && DistinctKeys(paragraphs)
      ensures sections == FileUnder(old(sections), sectionId, subitemId, p.number)
      ensures Continuous(old(paragraphs)) ==> paragraphs == old(paragraphs) + [Entry(p.number, p)] && Continuous(paragraphs)
      ensures title == old(title) && caption == old(caption) && signature == old(signature)
    {
      var next := |paragraphs| + 1;
      p := Paragraph(next, text, sectionId, subitemId);
      if Continuous(paragraphs) {
        PutNextContinuous(paragraphs, p);
      }
      PutDistinct(paragraphs, next, p);
      paragraphs := Put(paragraphs, next, p);

      ghost var isSection := (s: Section) => s.id == sectionId;
      var i := 0;
      while i < |sections|
        invariant 0 <= i <= |sections|
        invariant sections == old(sections)
        invariant forall k :: 0 <= k < i ==> sections[k].id != sectionId
      {
        if sections[i].id == sectionId {
          FirstIndexAt(sections, isSection, i);
          var sec := sections[i];
          if subitemId.Some? && subitemId.value != "" {
            ghost var isSub := (si: SubItem) => si.id == subitemId.value;
            var j := 0;
            while j < |sec.subitems|
              invariant 0 <= j <= |sec.subitems|
              invariant sec == sections[i]
              invariant forall k :: 0 <= k < j ==> sec.subitems[k].id != subitemId.value
            {
              if sec.subitems[j].id == subitemId.value {
                FirstIndexAt(sec.subitems, isSub, j);
                var si := sec.subitems[j];
                sec := sec.(subitems := sec.subitems[j := si.(paragraphIds := si.paragraphIds + [next])]);
                break;
              }
              j := j + 1;
            }
          } else {
            sec := sec.(paragraphIds := sec.paragraphIds + [next]);
          }
          sections := sections[i := sec];
          return;
        }
        i := i + 1;
      }
    }
    /** The ids of `xs` that name a stored paragraph, appended to `acc`. */
    method CollectResolved(acc: seq<int>, xs: seq<int>) returns (r: seq<int>)
      ensures r == acc + Resolved(xs, paragraphs)
    {
      r := acc;
      var j := 0;
      while j < |xs|
        invariant 0 <= j <= |xs|
        invariant r == acc + Resolved(xs[..j], paragraphs)
      {
        ResolvedConcat(xs[..j], [xs[j]], paragraphs);
        assert xs[..j + 1] == xs[..j] + [xs[j]];
        if Get(paragraphs, xs[j]).Some? {
          r := r + [xs[j]];
        }
        j := j + 1;
      }
      assert xs[..j] == xs;
    }

    /** One section's turn in the first loop: its own list, then each sub-item's. */
    method CollectSection(acc: seq<int>, sec: Section) returns (r: seq<int>)
      ensures r == acc + Resolved(SectionRefs(sec), paragraphs)
    {
      r := CollectResolved(acc, sec.paragraphIds);
      assert sec.paragraphIds + SubitemIds(sec.subitems[..0]) == sec.paragraphIds;
      var j := 0;
      while j < |sec.subitems|
        invariant 0 <= j <= |sec.subitems|
        invariant r == acc + Resolved(sec.paragraphIds + SubitemIds(sec.subitems[..j]), paragraphs)
      {
        r := CollectResolved(r, sec.subitems[j].paragraphIds);
        SubitemIdsStep(sec, j, paragraphs);
        j := j + 1;
      }
      assert sec.subitems[..j] == sec.subitems;
    }

    /** The first loop of `renumber_paragraphs`: every resolving reference, section by section. */
    method CollectOrder() returns (ordered: seq<int>)
      ensures ordered == RenumberOrder(sections, paragraphs)
    {
      ordered := [];
      var k := 0;
      while k < |sections|
        invariant 0 <= k <= |sections|
        invariant ordered == Resolved(Refs(sections[..k]), paragraphs)
      {
        ordered := CollectSection(ordered, sections[k]);
        RefsStep(sections, k, paragraphs);
        k := k + 1;
      }
      assert sections[..k] == sections;
    }

    /** `if old_num in ids: ids[ids.index(old_num)] = i` */
    static method ReplaceFirstIn(xs: seq<int>, a: int, b: int) returns (r: seq<int>)
      ensures r == ReplaceFirst(xs, a, b)
    {
      var i := 0;
      while i < |xs| && xs[i] != a
        invariant 0 <= i <= |xs|
        invariant forall k :: 0 <= k < i ==> xs[k] != a
      {
        i := i + 1;
      }
      ReplaceFirstSpec(xs, a, b, i);
      if i < |xs| {
        r := xs[i := b];
      } else {
        r := xs;
      }
    }

    /** The sub-item part of the inner loop: in every sub-item, the first `a` becomes `b`. */
    static method PatchSubitemsIn(subs: seq<SubItem>, a: int, b: int) returns (r: seq<SubItem>)
      ensures r == PatchSubitems(subs, a, b)
    {
      r := subs;
      var j := 0;
      while j < |r|
        invariant 0 <= j <= |r| && |r| == |subs|
        invariant r == PatchSubitems(subs[..j], a, b) + subs[j..]
      {
        var p := ReplaceFirstIn(r[j].paragraphIds, a, b);
        PatchSubitemsStep(subs, j, a, b);
        r := r[j := r[j].(paragraphIds := p)];
        j := j + 1;
      }
      assert subs[..j] == subs;
    }

    /** The inner loop of the second pass: in every section and sub-item, the first `a` becomes `b`. */
    method PatchReferences(a: int, b: int)
      modifies this
      ensures sections == PatchAll(old(sections), a, b)
      ensures paragraphs == old(paragraphs) && title == old(title)
      ensures caption == old(caption) && signature == old(signature)
    {
      var k := 0;
      while k < |sections|
        invariant 0 <= k <= |sections| && |sections| == |old(sections)|
        invariant sections == PatchAll(old(sections)[..k], a, b) + old(sections)[k..]
        invariant paragraphs == old(paragraphs) && title == old(title)
        invariant caption == old(caption) && signature == old(signature)
      {
        var sec := sections[k];
        var ids := ReplaceFirstIn(sec.paragraphIds, a, b);
        var subs := PatchSubitemsIn(sec.subitems, a, b);
        PatchAllStep(old(sections), k, a, b);
        sections := sections[k := sec.(paragraphIds := ids, subitems := subs)];
        k := k + 1;
      }
      assert old(sections)[..k] == old(sections);
    }

    /**
     * `renumber_paragraphs` as written: collect the referenced paragraphs in
     * section order, give each its position as its number while rewriting
     * the first reference to its old number in every list, then keep only
     * the renumbered paragraphs, keyed by their positions.
     */
    method RenumberParagraphs()
      modifies this
      ensures sections == AsWrittenSections(old(sections), old(paragraphs))
      ensures paragraphs == AsWrittenParagraphs(old(sections), old(paragraphs))
      ensures title == old(title) && caption == old(caption) && signature == old(signature)
      ensures DistinctKeys(paragraphs)
      ensures Distinct(Refs(old(sections))) ==> Continuous(paragraphs)
    {
      var ordered := CollectOrder();
      var nums: map<int, int> := map[];
      var i := 0;
      while i < |ordered|
        invariant 0 <= i <= |ordered|
        invariant sections == RenumberSteps(old(sections), old(paragraphs), ordered[..i]).0
        invariant nums == RenumberSteps(old(sections), old(paragraphs), ordered[..i]).1
        invariant paragraphs == old(paragraphs) && title == old(title)
        invariant caption == old(caption) && signature == old(signature)
      {
        var id := ordered[i];
        var oldNum := NumberOf(paragraphs, nums, id);
        RenumberStepsSnoc(old(sections), old(paragraphs), ordered, i);
        nums := nums[id := i + 1];
        PatchReferences(oldNum, i + 1);
        i := i + 1;
      }
      assert ordered[..i] == ordered;
      paragraphs := Rebuild(paragraphs, nums, ordered);
      RebuildIndex(old(paragraphs), nums, ordered);
      if Distinct(Refs(old(sections))) {
        RenumberNumbering(old(sections), old(paragraphs));
      }
    }
  }

  /** From an empty document, adding paragraphs one after another numbers them 1..n, each under its own number. */
  lemma AddParagraphsContinuous(texts: seq<string>)
    ensures Continuous(NumberedFrom([], texts))
    ensures |NumberedFrom([], texts)| == |texts|
    ensures forall i :: 0 <= i < |texts| ==> NumberedFrom([], texts)[i].value.text == texts[i]
  {
    NumberedFromSpec([], texts);
  }

  /** The paragraph store after `add_paragraph` has stored each text in turn (sections are not involved). */
  function NumberedFrom(m: seq<Entry<int, Paragraph>>, texts: seq<string>): seq<Entry<int, Paragraph>>
    decreases |texts|
  {
    if texts == [] then m
    else NumberedFrom(Put(m, |m| + 1, Paragraph(|m| + 1, texts[0], "", None)), texts[1..])
  }

  lemma {:induction false} NumberedFromSpec(m: seq<Entry<int, Paragraph>>, texts: seq<string>)
    requires Continuous(m)
    ensures Continuous(NumberedFrom(m, texts))
    ensures |NumberedFrom(m, texts)| == |m| + |texts|
    ensures NumberedFrom(m, texts)[..|m|] == m
    ensures forall i :: 0 <= i < |texts| ==> NumberedFrom(m, texts)[|m| + i].value.text == texts[i]
    decreases |texts|
  {
    if texts != [] {
      var p := Paragraph(|m| + 1, texts[0], "", None);
      PutNextContinuous(m, p);
      var m' := m + [Entry(|m| + 1, p)];
      NumberedFromSpec(m', texts[1..]);
      var r := NumberedFrom(m', texts[1..]);
      assert r[..|m'|] == m';
      assert r[..|m|] == m' [..|m|] == m;
      forall i | 0 <= i < |texts| ensures r[|m| + i].value.text == texts[i] {
        if i == 0 {
          assert r[|m|] == r[..|m'|][|m|];
        } else {
          assert r[|m'| + (i - 1)].value.text == texts[1..][i - 1];
        }
      }
    }
  }
}
