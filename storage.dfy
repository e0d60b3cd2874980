/**
 * The document store: the list of document dicts held in `documents.json`,
 * with the lookups, the upsert, the deletion, renaming, duplication and the
 * newest-first listing the editor uses.  The list of the file is the
 * store's field; reading the file again gives the same list, and the PDF
 * files beside it are left out.
 */
module DocumentStore {
  import opened Wrappers
  import opened JsonValue
  import opened Sorting
  import opened SavedDocumentModel

  /** `doc_dict.get("id") == doc_id` */
  function HasId(docId: string): Json -> bool {
    (j: Json) => j.JObj? && "id" in j.o && j.o["id"] == JStr(docId)
  }

  /** What `get_by_id` finds: the first dict with the id, as a document. */
  function Lookup(documents: seq<Json>, docId: string, freshId: string, now: string): Option<SavedDocument> {
    match FirstIndex(documents, HasId(docId))
    case Some(i) => DocumentFromDict(documents[i], freshId, now)
    case None => None
  }

  /** The list after `save`: the dict replaces the first one with its id, or is appended. */
  function Upserted(documents: seq<Json>, docId: string, j: Json): seq<Json> {
    match FirstIndex(documents, HasId(docId))
    case Some(i) => documents[i := j]
    case None => documents + [j]
  }

  /**
   * The upsert grows the list by at most one dict and changes no dict but
   * the replaced one; the list grows exactly when no dict had the id.
   */
  lemma UpsertedSpec(documents: seq<Json>, docId: string, j: Json)
    ensures var r := Upserted(documents, docId, j);
      && |documents| <= |r| <= |documents| + 1
      && (|r| == |documents| + 1 <==> forall i :: 0 <= i < |documents| ==> !HasId(docId)(documents[i]))
      && j in r
      && forall i :: 0 <= i < |documents| && r[i] != documents[i] ==> r[i] == j && HasId(docId)(documents[i])
  {
  }

  /** After a save, looking the document up by its id gives the saved document back. */
  lemma SaveThenLookup(documents: seq<Json>, d: SavedDocument, freshId: string, now: string)
    requires PlainItems(d.annotations)
    ensures Lookup(Upserted(documents, d.id, DocumentToDict(d)), d.id, freshId, now) == Some(d)
  {
    var j := DocumentToDict(d);
    var r := Upserted(documents, d.id, j);
    DocumentRoundTrip(d, freshId, now);
    match FirstIndex(documents, HasId(d.id))
    case Some(i) =>
      assert forall k :: 0 <= k < i ==> r[k] == documents[k];
      FirstIndexAt(r, HasId(d.id), i);
    case None =>
      assert forall k :: 0 <= k < |documents| ==> r[k] == documents[k];
      FirstIndexAt(r, HasId(d.id), |documents|);
  }

  /** A save leaves what every other id looks up to as it was. */
  lemma SaveKeepsOthers(documents: seq<Json>, d: SavedDocument, other: string, freshId: string, now: string)
    requires other != d.id
    ensures Lookup(Upserted(documents, d.id, DocumentToDict(d)), other, freshId, now) == Lookup(documents, other, freshId, now)
  {
    var j := DocumentToDict(d);
    var r := Upserted(documents, d.id, j);
    assert !HasId(other)(j);
    assert forall k :: 0 <= k < |documents| ==> (HasId(other)(r[k]) <==> HasId(other)(documents[k]));
    assert forall k :: 0 <= k < |documents| && HasId(other)(r[k]) ==> r[k] == documents[k];
    match FirstIndex(documents, HasId(other))
    case Some(i) =>
      FirstIndexAt(r, HasId(other), i);
    case None =>
      assert forall k :: 0 <= k < |r| ==> !HasId(other)(r[k]);
  }

  /** `documents.sort(key=lambda d: d.modified_at, reverse=True)`: newest first, ties in stored order. */
  function NewestFirst(): (SavedDocument, SavedDocument) -> bool {
    (a: SavedDocument, b: SavedDocument) => StrLeP(b.modifiedAt, a.modifiedAt)
  }

  lemma NewestFirstTotal()
    ensures Total(NewestFirst())
  {
    forall a: SavedDocument, b: SavedDocument
      ensures NewestFirst()(a, b) || NewestFirst()(b, a)
    {
      StrLeTotalAt(a.modifiedAt, b.modifiedAt);
    }
  }

  /** `[SavedDocument.from_dict(d) for d in data.get("documents", [])]` */
  function DecodeAll(documents: seq<Json>, freshId: string, now: string): (r: Option<seq<SavedDocument>>)
    ensures r.Some? ==> |r.value| == |documents|
  {
    if documents == [] then Some([])
    else
      match (DecodeAll(documents[..|documents| - 1], freshId, now), DocumentFromDict(documents[|documents| - 1], freshId, now))
      case (Some(init), Some(last)) => Some(init + [last])
      case _ => None
  }

  /** `list_all` */
  function ListAllOf(documents: seq<Json>, freshId: string, now: string): Option<seq<SavedDocument>> {
    match DecodeAll(documents, freshId, now)
    case Some(ds) => Some(Sort(ds, NewestFirst()))
    case None => None
  }

  lemma {:induction false} SortedNewestFirst(s: seq<SavedDocument>)
    requires Sorted(s, NewestFirst())
    ensures forall i, j :: 0 <= i < j < |s| ==> StrLeP(s[j].modifiedAt, s[i].modifiedAt)
  {
    if |s| > 1 {
      var t := s[1..];
      assert Sorted(t, NewestFirst()) by {
        forall i | 0 <= i < |t| - 1
          ensures NewestFirst()(t[i], t[i + 1])
        {
          assert t[i] == s[i + 1] && t[i + 1] == s[i + 2];
        }
      }
      SortedNewestFirst(t);
      forall i, j | 0 <= i < j < |s|
        ensures StrLeP(s[j].modifiedAt, s[i].modifiedAt)
      {
        if i == 0 {
          assert NewestFirst()(s[0], s[1]);
          if j > 1 {
            assert StrLeP(t[j - 1].modifiedAt, t[0].modifiedAt);
            StrLeTransitive(s[j].modifiedAt, s[1].modifiedAt, s[0].modifiedAt);
          }
        } else {
          assert StrLeP(t[j - 1].modifiedAt, t[i - 1].modifiedAt);
        }
      }
    }
  }

  /** The listing holds the stored documents, each as often as stored, newest first. */
  lemma ListAllSpec(documents: seq<Json>, freshId: string, now: string)
    requires DecodeAll(documents, freshId, now).Some?
    ensures var r := ListAllOf(documents, freshId, now);
      && r.Some? && multiset(r.value) == multiset(DecodeAll(documents, freshId, now).value)
      && forall i, j :: 0 <= i < j < |r.value| ==> StrLeP(r.value[j].modifiedAt, r.value[i].modifiedAt)
  {
    var ds := DecodeAll(documents, freshId, now).value;
    NewestFirstTotal();
    SortSpec(ds, NewestFirst());
    SortedNewestFirst(Sort(ds, NewestFirst()));
  }

  /** The name of a duplicate: `new_name or f"Copy of {original.name}"`. */
  function CopyName(original: SavedDocument, newName: string): string {
    if newName != "" then newName else "Copy of " + original.name
  }

  /** The copy `duplicate` builds before saving it: a fresh document carrying the original's content. */
  function CopyOf(original: SavedDocument, copyId: string, now: string, newName: string): (c: SavedDocument)
    ensures c.id == copyId && c.createdAt == now && c.modifiedAt == now
    ensures c.name == (if newName != "" then newName else "Copy of " + original.name)
    ensures c.textContent == original.textContent && c.sections == original.sections
    ensures c.caseProfileIndex == original.caseProfileIndex && c.documentTypeIndex == original.documentTypeIndex
    ensures c.customTitle == original.customTitle && c.filingDate == original.filingDate
    ensures c.spacingBeforeSection == original.spacingBeforeSection && c.spacingAfterSection == original.spacingAfterSection
    ensures c.spacingBetweenParagraphs == original.spacingBetweenParagraphs
    ensures c.caseId.None? && c.pdfFilename.None? && c.annotations == []
  {
    NewDocument(copyId, now, CopyName(original, newName)).(
      textContent := original.textContent, sections := original.sections,
      caseProfileIndex := original.caseProfileIndex, documentTypeIndex := original.documentTypeIndex,
      customTitle := original.customTitle, spacingBeforeSection := original.spacingBeforeSection,
      spacingAfterSection := original.spacingAfterSection, spacingBetweenParagraphs := original.spacingBetweenParagraphs,
      filingDate := original.filingDate)
  }

  class DocumentStorage {
    /** The `documents` list of `documents.json`, or `[]` when the file is missing or corrupt. */
    var documents: seq<Json>

    constructor (documents: seq<Json>)
      ensures this.documents == documents
    {
      this.documents := documents;
    }

    /** The scan for the first dict with the id. */
    method IndexOf(docId: string) returns (r: Option<nat>)
      ensures r == FirstIndex(documents, HasId(docId))
    {
      var i := 0;
      while i < |documents|
        invariant 0 <= i <= |documents|
        invariant forall j :: 0 <= j < i ==> !HasId(docId)(documents[j])
      {
        if HasId(docId)(documents[i]) {
          FirstIndexAt(documents, HasId(docId), i);
          return Some(i);
        }
        i := i + 1;
      }
      r := None;
    }

    /** `get_by_id` */
    method GetById(docId: string, freshId: string, now: string) returns (r: Option<SavedDocument>)
      ensures r == Lookup(documents, docId, freshId, now)
    {
      var k := IndexOf(docId);
      r := if k.Some? then DocumentFromDict(documents[k.value], freshId, now) else None;
    }

    /** `save`: the document, modified now, replaces the stored dict with its id or is appended. */
    method Save(document: SavedDocument, now: string) returns (saved: SavedDocument)
      modifies this
      ensures saved == UpdateModified(document, now)
      ensures documents == Upserted(old(documents), saved.id, DocumentToDict(saved))
    {
      saved := UpdateModified(document, now);
      var k := IndexOf(saved.id);
      if k.Some? {
        documents := documents[k.value := DocumentToDict(saved)];
      } else {
        documents := documents + [DocumentToDict(saved)];
      }
    }

    /** `delete`: the first dict with the id is popped. */
    method Delete(docId: string) returns (deleted: bool)
      modifies this
      ensures FirstIndex(old(documents), HasId(docId)).None? ==> !deleted && documents == old(documents)
      ensures FirstIndex(old(documents), HasId(docId)).Some? ==>
        deleted && documents == RemoveAt(old(documents), FirstIndex(old(documents), HasId(docId)).value)
    {
      var i := 0;
      while i < |documents|
        invariant 0 <= i <= |documents|
        invariant documents == old(documents)
        invariant forall j :: 0 <= j < i ==> !HasId(docId)(documents[j])
      {
        if HasId(docId)(documents[i]) {
          FirstIndexAt(documents, HasId(docId), i);
          documents := RemoveAt(documents, i);
          return true;
        }
        i := i + 1;
      }
      deleted := false;
    }

    /** `rename`: the found document takes the new name and is saved. */
    method Rename(docId: string, newName: string, freshId: string, now: string) returns (r: Option<SavedDocument>)
      modifies this
      ensures Lookup(old(documents), docId, freshId, now).None? ==> r.None? && documents == old(documents)
      ensures Lookup(old(documents), docId, freshId, now).Some? ==>
        var d := Lookup(old(documents), docId, freshId, now).value;
        r == Some(UpdateModified(d.(name := newName), now))
        && documents == Upserted(old(documents), d.id, DocumentToDict(r.value))
    {
      var document := GetById(docId, freshId, now);
      if document.None? {
        return None;
      }
      var saved := Save(document.value.(name := newName), now);
      r := Some(saved);
    }

    /** `duplicate`: a copy of the found document under a fresh id, saved. */
    method Duplicate(docId: string, newName: string, copyId: string, freshId: string, now: string) returns (r: Option<SavedDocument>)
      modifies this
      ensures Lookup(old(documents), docId, freshId, now).None? ==> r.None? && documents == old(documents)
      ensures Lookup(old(documents), docId, freshId, now).Some? ==>
        r == Some(CopyOf(Lookup(old(documents), docId, freshId, now).value, copyId, now, newName))
        && documents == Upserted(old(documents), copyId, DocumentToDict(r.value))
    {
      var original := GetById(docId, freshId, now);
      if original.None? {
        return None;
      }
      var copy := CopyOf(original.value, copyId, now, newName);
      var saved := Save(copy, now);
      r := Some(saved);
    }

    /** `create_new`: an empty document with the name, saved. */
    method CreateNew(name: string, id: string, now: string) returns (d: SavedDocument)
      modifies this
      ensures d == NewDocument(id, now, name)
      ensures documents == Upserted(old(documents), id, DocumentToDict(d))
    {
      d := Save(NewDocument(id, now, name), now);
    }

    /** `list_all` */
    function ListAll(freshId: string, now: string): (r: Option<seq<SavedDocument>>)
      reads this
      ensures r == ListAllOf(documents, freshId, now)
    {
      ListAllOf(documents, freshId, now)
    }
  }
}
