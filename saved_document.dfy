/**
 * A saved editor document: its text, section assignments, case and
 * document-type choices, spacing settings, annotations and timestamps, and
 * the dictionary form in which the document store keeps it.  The ids and
 * timestamps that the source draws from `uuid4` and the clock are
 * parameters.
 */
module SavedDocumentModel {
  import opened Wrappers
  import opened JsonValue

  // ---------------------------------------------------------------------------
  // Annotations

  const DefaultHighlight: string := "#FFFF00"

  /** A note attached to the highlighted text between two character positions. */
  datatype Annotation = Annotation(
    id: string, startPos: int, endPos: int, highlightedText: string, note: string, color: string, createdAt: string)

  function AnnotationToDict(a: Annotation): (j: Json)
    ensures j.JObj?
  {
    JObj(map[
      "id" := JStr(a.id),
      "start_pos" := JInt(a.startPos),
      "end_pos" := JInt(a.endPos),
      "highlighted_text" := JStr(a.highlightedText),
      "note" := JStr(a.note),
      "color" := JStr(a.color),
      "created_at" := JStr(a.createdAt)])
  }

  /** `Annotation.from_dict`: positions 0, empty texts, yellow and now for missing fields. */
  function AnnotationFromDict(j: Json, freshId: string, now: string): Option<Annotation> {
    if !j.JObj? then None
    else
      var o := j.o;
      var id, start, end, text := OptStr(o, "id", freshId), OptInt(o, "start_pos", 0), OptInt(o, "end_pos", 0), OptStr(o, "highlighted_text", "");
      var note, color, created := OptStr(o, "note", ""), OptStr(o, "color", DefaultHighlight), OptStr(o, "created_at", now);
      if id.Some? && start.Some? && end.Some? && text.Some? && note.Some? && color.Some? && created.Some? then
        Some(Annotation(id.value, start.value, end.value, text.value, note.value, color.value, created.value))
      else None
  }

  lemma AnnotationRoundTrip(a: Annotation, freshId: string, now: string)
    ensures AnnotationFromDict(AnnotationToDict(a), freshId, now) == Some(a)
  {
    var o := AnnotationToDict(a).o;
    assert OptStr(o, "id", freshId) == Some(a.id);
    assert OptInt(o, "start_pos", 0) == Some(a.startPos) && OptInt(o, "end_pos", 0) == Some(a.endPos);
    assert OptStr(o, "highlighted_text", "") == Some(a.highlightedText) && OptStr(o, "note", "") == Some(a.note);
    assert OptStr(o, "color", DefaultHighlight) == Some(a.color) && OptStr(o, "created_at", now) == Some(a.createdAt);
  }

  /** An empty dict gives a yellow annotation of nothing at position 0, created now. */
  lemma AnnotationDefaults(freshId: string, now: string)
    ensures AnnotationFromDict(JObj(map[]), freshId, now) == Some(Annotation(freshId, 0, 0, "", "", DefaultHighlight, now))
  {
  }

  /**
   * An entry of a document's annotation list: an `Annotation` object, or a
   * value that is not a dict, which the source passes through unchanged.
   */
  datatype AnnotationItem = Note(annotation: Annotation) | Raw(value: Json)

  /** `a.to_dict() if isinstance(a, Annotation) else a` */
  function ItemToJson(item: AnnotationItem): Json {
    match item
    case Note(a) => AnnotationToDict(a)
    case Raw(v) => v
  }

  /** `Annotation.from_dict(a) if isinstance(a, dict) else a` */
  function ItemFromJson(j: Json, freshId: string, now: string): Option<AnnotationItem> {
    if j.JObj? then
      match AnnotationFromDict(j, freshId, now)
      case Some(a) => Some(Note(a))
      case None => None
    else Some(Raw(j))
  }

  function EncodeItems(items: seq<AnnotationItem>): (r: seq<Json>)
    ensures |r| == |items|
  {
    if items == [] then [] else EncodeItems(items[..|items| - 1]) + [ItemToJson(items[|items| - 1])]
  }

  function DecodeItems(js: seq<Json>, freshId: string, now: string): (r: Option<seq<AnnotationItem>>)
    ensures r.Some? ==> |r.value| == |js|
  {
    if js == [] then Some([])
    else
      match (DecodeItems(js[..|js| - 1], freshId, now), ItemFromJson(js[|js| - 1], freshId, now))
      case (Some(init), Some(last)) => Some(init + [last])
      case _ => None
  }

  /** Annotation lists survive the dict form unless a passed-through value is itself a dict. */
  predicate PlainItems(items: seq<AnnotationItem>) {
    forall i :: 0 <= i < |items| ==> items[i].Raw? ==> !items[i].value.JObj?
  }

  lemma {:induction false} ItemsRoundTrip(items: seq<AnnotationItem>, freshId: string, now: string)
    requires PlainItems(items)
    ensures DecodeItems(EncodeItems(items), freshId, now) == Some(items)
  {
    if items != [] {
      var n := |items| - 1;
      var js := EncodeItems(items);
      assert js[..n] == EncodeItems(items[..n]);
      ItemsRoundTrip(items[..n], freshId, now);
      if items[n].Note? {
        AnnotationRoundTrip(items[n].annotation, freshId, now);
      }
      assert items[..n] + [items[n]] == items;
    }
  }

  // ---------------------------------------------------------------------------
  // Documents

  const DefaultName: string := "Untitled Document"

  datatype SavedDocument = SavedDocument(
    id: string, name: string, createdAt: string, modifiedAt: string, textContent: string,
    sections: seq<Json>, caseProfileIndex: int, caseId: Option<string>, documentTypeIndex: int,
    customTitle: string, spacingBeforeSection: int, spacingAfterSection: int, spacingBetweenParagraphs: int,
    filingDate: string, pdfFilename: Option<string>, annotations: seq<AnnotationItem>)

  /** `SavedDocument(name=name)`: the dataclass defaults, with the given id and creation time. */
  function NewDocument(id: string, now: string, name: string): (d: SavedDocument)
    ensures d.id == id && d.name == name && d.createdAt == now && d.modifiedAt == now
  {
    SavedDocument(id, name, now, now, "", [], 1, None, 1, "", 1, 1, 1, "", None, [])
  }

  function DocumentToDict(d: SavedDocument): (j: Json)
    ensures j.JObj? && "id" in j.o && j.o["id"] == JStr(d.id)
  {
    JObj(map[
      "id" := JStr(d.id),
      "name" := JStr(d.name),
      "created_at" := JStr(d.createdAt),
      "modified_at" := JStr(d.modifiedAt),
      "text_content" := JStr(d.textContent),
      "sections" := JArr(d.sections),
      "case_profile_index" := JInt(d.caseProfileIndex),
      "case_id" := EncodeOptStr(d.caseId),
      "document_type_index" := JInt(d.documentTypeIndex),
      "custom_title" := JStr(d.customTitle),
      "spacing_before_section" := JInt(d.spacingBeforeSection),
      "spacing_after_section" := JInt(d.spacingAfterSection),
      "spacing_between_paragraphs" := JInt(d.spacingBetweenParagraphs),
      "filing_date" := JStr(d.filingDate),
      "pdf_filename" := EncodeOptStr(d.pdfFilename),
      "annotations" := JArr(EncodeItems(d.annotations))])
  }

  /** `SavedDocument.from_dict`; every annotation dict becomes an `Annotation`. */
  function DocumentFromDict(j: Json, freshId: string, now: string): Option<SavedDocument> {
    if !j.JObj? then None
    else
      var o := j.o;
      var id, name, created, modified := OptStr(o, "id", freshId), OptStr(o, "name", DefaultName), OptStr(o, "created_at", now), OptStr(o, "modified_at", now);
      var text, sections, profile, caseId := OptStr(o, "text_content", ""), OptArr(o, "sections"), OptInt(o, "case_profile_index", 1), GetOptStr(o, "case_id");
      var docType, title, before := OptInt(o, "document_type_index", 1), OptStr(o, "custom_title", ""), OptInt(o, "spacing_before_section", 1);
      var after, between, filing := OptInt(o, "spacing_after_section", 1), OptInt(o, "spacing_between_paragraphs", 1), OptStr(o, "filing_date", "");
      var pdf, items := GetOptStr(o, "pdf_filename"), OptArr(o, "annotations");
      if id.Some? && name.Some? && created.Some? && modified.Some? && text.Some? && sections.Some? && profile.Some?
        && caseId.Some? && docType.Some? && title.Some? && before.Some? && after.Some? && between.Some? && filing.Some?
        && pdf.Some? && items.Some? then
        match DecodeItems(items.value, freshId, now)
        case Some(annotations) =>
          Some(SavedDocument(id.value, name.value, created.value, modified.value, text.value, sections.value, profile.value,
            caseId.value, docType.value, title.value, before.value, after.value, between.value, filing.value, pdf.value, annotations))
        case None => None
      else None
  }

  lemma DocumentRoundTripHead(d: SavedDocument, freshId: string, now: string)
    ensures var o := DocumentToDict(d).o;
      && OptStr(o, "id", freshId) == Some(d.id) && OptStr(o, "name", DefaultName) == Some(d.name)
      && OptStr(o, "created_at", now) == Some(d.createdAt) && OptStr(o, "modified_at", now) == Some(d.modifiedAt)
      && OptStr(o, "text_content", "") == Some(d.textContent) && OptArr(o, "sections") == Some(d.sections)
      && OptInt(o, "case_profile_index", 1) == Some(d.caseProfileIndex)
  {
  }

  lemma DocumentRoundTripTail(d: SavedDocument)
    ensures var o := DocumentToDict(d).o;
      && GetOptStr(o, "case_id") == Some(d.caseId) && OptInt(o, "document_type_index", 1) == Some(d.documentTypeIndex)
      && OptStr(o, "custom_title", "") == Some(d.customTitle) && OptInt(o, "spacing_before_section", 1) == Some(d.spacingBeforeSection)
      && OptInt(o, "spacing_after_section", 1) == Some(d.spacingAfterSection)
      && OptInt(o, "spacing_between_paragraphs", 1) == Some(d.spacingBetweenParagraphs)
      && OptStr(o, "filing_date", "") == Some(d.filingDate) && GetOptStr(o, "pdf_filename") == Some(d.pdfFilename)
      && OptArr(o, "annotations") == Some(EncodeItems(d.annotations))
  {
  }

  /** A document whose annotations are `Annotation` objects (or non-dict values) survives its dict form. */
  lemma DocumentRoundTrip(d: SavedDocument, freshId: string, now: string)
    requires PlainItems(d.annotations)
    ensures DocumentFromDict(DocumentToDict(d), freshId, now) == Some(d)
  {
    DocumentRoundTripHead(d, freshId, now);
    DocumentRoundTripTail(d);
    ItemsRoundTrip(d.annotations, freshId, now);
  }

  /**
   * An empty dict gives an untitled document for the default case profile
   * and document type, single spacing everywhere, no case id and no PDF;
   * it is the document `SavedDocument()` creates.
   */
  lemma DocumentDefaults(freshId: string, now: string)
    ensures DocumentFromDict(JObj(map[]), freshId, now) == Some(NewDocument(freshId, now, DefaultName))
    ensures var d := NewDocument(freshId, now, DefaultName);
      && d.name == "Untitled Document" && d.caseProfileIndex == 1 && d.documentTypeIndex == 1
      && d.spacingBeforeSection == 1 && d.spacingAfterSection == 1 && d.spacingBetweenParagraphs == 1
      && d.pdfFilename.None? && d.caseId.None?
  {
  }

  /** `update_modified`: the modification time is now and nothing else changes. */
  function UpdateModified(d: SavedDocument, now: string): (r: SavedDocument)
    ensures r.modifiedAt == now
    ensures r.(modifiedAt := d.modifiedAt) == d
  {
    d.(modifiedAt := now)
  }
}
