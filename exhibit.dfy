/**
 * The records of the exhibit bank: folders, exhibits with their derived
 * storage names, tags, and the mapping from a file's extension to its kind.
 * Fresh ids and the clock reading are parameters.
 */
module ExhibitModel {
  import opened Wrappers
  import opened Text
  import opened JsonValue

  /** The blue that folders and tags get when no colour is given. */
  const DefaultColor: string := "#3498db"

  // ---------------------------------------------------------------------------
  // Folders

  /** A folder for organising exhibits; `parentId` is "" for the root. */
  datatype ExhibitFolder = ExhibitFolder(id: string, name: string, parentId: string, color: string,
                                         dateCreated: string, dateModified: string)

  /** `ExhibitFolder.create` */
  function CreateFolder(id: string, now: string, name: string, parentId: string, color: string): (f: ExhibitFolder)
    ensures f.id == id && f.name == name && f.parentId == parentId && f.color == color
    ensures f.dateCreated == f.dateModified == now
  {
    ExhibitFolder(id, name, parentId, color, now, now)
  }

  function FolderToDict(f: ExhibitFolder): (j: Json)
    ensures j.JObj? && j.o.Keys == {"id", "name", "parent_id", "color", "date_created", "date_modified"}
  {
    JObj(map[
      "id" := JStr(f.id), "name" := JStr(f.name), "parent_id" := JStr(f.parentId), "color" := JStr(f.color),
      "date_created" := JStr(f.dateCreated), "date_modified" := JStr(f.dateModified)])
  }

  /** `ExhibitFolder.from_dict`: every field has a default; a fresh id and the time now for the missing ones. */
  function FolderFromDict(j: Json, freshId: string, now: string): Option<ExhibitFolder> {
    if !j.JObj? then None
    else
      var o := j.o;
      var id, name, parent, color := OptStr(o, "id", freshId), OptStr(o, "name", "Untitled"), OptStr(o, "parent_id", ""), OptStr(o, "color", DefaultColor);
      var created, modified := OptStr(o, "date_created", now), OptStr(o, "date_modified", now);
      if id.Some? && name.Some? && parent.Some? && color.Some? && created.Some? && modified.Some? then
        Some(ExhibitFolder(id.value, name.value, parent.value, color.value, created.value, modified.value))
      else None
  }

  lemma FolderRoundTrip(f: ExhibitFolder, freshId: string, now: string)
    ensures FolderFromDict(FolderToDict(f), freshId, now) == Some(f)
  {
    var o := FolderToDict(f).o;
    assert OptStr(o, "id", freshId) == Some(f.id);
    assert OptStr(o, "name", "Untitled") == Some(f.name);
    assert OptStr(o, "parent_id", "") == Some(f.parentId);
    assert OptStr(o, "color", DefaultColor) == Some(f.color);
    assert OptStr(o, "date_created", now) == Some(f.dateCreated);
    assert OptStr(o, "date_modified", now) == Some(f.dateModified);
  }

  /** An empty dict gives an untitled root folder of the default colour, created now. */
  lemma FolderDefaults(freshId: string, now: string)
    ensures FolderFromDict(JObj(map[]), freshId, now) == Some(ExhibitFolder(freshId, "Untitled", "", DefaultColor, now, now))
  {
  }

  // ---------------------------------------------------------------------------
  // Exhibits

  /** One exhibit: its metadata, its file names in storage and what is known of the file. */
  datatype Exhibit = Exhibit(
    id: string, title: string, description: string, fileType: string,
    originalFilename: string, storedFilename: string, thumbnailFilename: string,
    tags: seq<string>, folderId: string, dateAdded: string, dateModified: string,
    fileSize: int, pageCount: int, hasRedactedVersion: bool, redactedFilename: string,
    notes: string, source: string)

  function IsDot(c: char): bool {
    c == '.'
  }

  /** `name.split('.')[-1] if '.' in name else ''`: the text after the last dot. */
  function Extension(name: string): string {
    match LastIndex(name, IsDot)
    case Some(i) => name[i + 1..]
    case None => ""
  }

  /** The extension holds no dot; with a dot in the name, the name is what precedes the last dot, the dot and the extension. */
  lemma ExtensionSpec(name: string)
    ensures '.' !in Extension(name)
    ensures '.' !in name ==> Extension(name) == ""
    ensures '.' in name ==> exists stem :: name == stem + "." + Extension(name)
  {
    match LastIndex(name, IsDot)
    case Some(i) =>
      var e := name[i + 1..];
      forall k | 0 <= k < |e|
        ensures e[k] != '.'
      {
        assert e[k] == name[i + 1 + k];
        assert !IsDot(name[i + 1 + k]);
      }
      assert name == name[..i] + "." + e;
    case None =>
      if '.' in name {
        var k :| 0 <= k < |name| && name[k] == '.';
        assert IsDot(name[k]);
      }
  }

  /** The stored file name: the id and the original extension, or the bare id. */
  function StoredFilename(id: string, originalFilename: string): string {
    var ext := Extension(originalFilename);
    if ext != "" then id + "." + ext else id
  }

  /**
   * `Exhibit.create`: a stored name and thumbnail name derived from the id,
   * no size, pages or redacted version yet, added and modified now.
   */
  function CreateExhibit(id: string, now: string, title: string, originalFilename: string, fileType: string,
                         tags: Option<seq<string>>, folderId: string, description: string, notes: string, source: string): (e: Exhibit)
    ensures e.id == id && e.title == title && e.originalFilename == originalFilename && e.fileType == fileType
    ensures e.tags == tags.GetOr([]) && e.folderId == folderId && e.description == description && e.notes == notes && e.source == source
    ensures e.thumbnailFilename == id + "_thumb.png"
    ensures e.fileSize == 0 && e.pageCount == 0 && !e.hasRedactedVersion && e.redactedFilename == ""
    ensures e.dateAdded == e.dateModified == now
  {
    Exhibit(id, title, description, fileType, originalFilename, StoredFilename(id, originalFilename), id + "_thumb.png",
      tags.GetOr([]), folderId, now, now, 0, 0, false, "", notes, source)
  }

  /** The stored name is the id followed by "." and the extension as written, or just the id when there is none. */
  lemma StoredFilenameSpec(id: string, originalFilename: string)
    ensures '.' !in originalFilename ==> StoredFilename(id, originalFilename) == id
    ensures Extension(originalFilename) != "" ==>
      StoredFilename(id, originalFilename) == id + "." + Extension(originalFilename)
      && exists stem :: originalFilename == stem + "." + Extension(originalFilename)
  {
    ExtensionSpec(originalFilename);
  }

  function ExhibitToDict(e: Exhibit): (j: Json)
    ensures j.JObj? && "id" in j.o && j.o["id"] == JStr(e.id)
  {
    JObj(map[
      "id" := JStr(e.id),
      "title" := JStr(e.title),
      "description" := JStr(e.description),
      "file_type" := JStr(e.fileType),
      "original_filename" := JStr(e.originalFilename),
      "stored_filename" := JStr(e.storedFilename),
      "thumbnail_filename" := JStr(e.thumbnailFilename),
      "tags" := EncodeStrs(e.tags),
      "folder_id" := JStr(e.folderId),
      "date_added" := JStr(e.dateAdded),
      "date_modified" := JStr(e.dateModified),
      "file_size" := JInt(e.fileSize),
      "page_count" := JInt(e.pageCount),
      "has_redacted_version" := JBool(e.hasRedactedVersion),
      "redacted_filename" := JStr(e.redactedFilename),
      "notes" := JStr(e.notes),
      "source" := JStr(e.source)])
  }

  /** `Exhibit.from_dict`: every field has a default; a value of the wrong JSON type is a failure. */
  function ExhibitFromDict(j: Json, freshId: string, now: string): Option<Exhibit> {
    if !j.JObj? then None
    else
      var o := j.o;
      var id, title, desc, ftype := OptStr(o, "id", freshId), OptStr(o, "title", ""), OptStr(o, "description", ""), OptStr(o, "file_type", "unknown");
      var orig, stored, thumb := OptStr(o, "original_filename", ""), OptStr(o, "stored_filename", ""), OptStr(o, "thumbnail_filename", "");
      var tags, folder, added, modified := OptStrs(o, "tags"), OptStr(o, "folder_id", ""), OptStr(o, "date_added", now), OptStr(o, "date_modified", now);
      var size, pages, red := OptInt(o, "file_size", 0), OptInt(o, "page_count", 0), OptBool(o, "has_redacted_version", false);
      var redName, notes, source := OptStr(o, "redacted_filename", ""), OptStr(o, "notes", ""), OptStr(o, "source", "");
      if id.Some? && title.Some? && desc.Some? && ftype.Some? && orig.Some? && stored.Some? && thumb.Some?
        && tags.Some? && folder.Some? && added.Some? && modified.Some? && size.Some? && pages.Some? && red.Some?
        && redName.Some? && notes.Some? && source.Some? then
        Some(Exhibit(id.value, title.value, desc.value, ftype.value, orig.value, stored.value, thumb.value,
          tags.value, folder.value, added.value, modified.value, size.value, pages.value, red.value,
          redName.value, notes.value, source.value))
      else None
  }

  lemma ExhibitRoundTripNames(e: Exhibit, freshId: string)
    ensures var o := ExhibitToDict(e).o;
      && OptStr(o, "id", freshId) == Some(e.id) && OptStr(o, "title", "") == Some(e.title)
      && OptStr(o, "description", "") == Some(e.description) && OptStr(o, "file_type", "unknown") == Some(e.fileType)
      && OptStr(o, "original_filename", "") == Some(e.originalFilename) && OptStr(o, "stored_filename", "") == Some(e.storedFilename)
  {
  }

  lemma ExhibitRoundTripFiles(e: Exhibit, now: string)
    ensures var o := ExhibitToDict(e).o;
      && OptStr(o, "thumbnail_filename", "") == Some(e.thumbnailFilename) && OptStrs(o, "tags") == Some(e.tags)
      && OptStr(o, "folder_id", "") == Some(e.folderId) && OptStr(o, "date_added", now) == Some(e.dateAdded)
      && OptStr(o, "date_modified", now) == Some(e.dateModified)
  {
    DecodeEncodeStrs(e.tags);
  }

  lemma ExhibitRoundTripRest(e: Exhibit)
    ensures var o := ExhibitToDict(e).o;
      && OptInt(o, "file_size", 0) == Some(e.fileSize) && OptInt(o, "page_count", 0) == Some(e.pageCount)
      && OptBool(o, "has_redacted_version", false) == Some(e.hasRedactedVersion)
      && OptStr(o, "redacted_filename", "") == Some(e.redactedFilename)
      && OptStr(o, "notes", "") == Some(e.notes) && OptStr(o, "source", "") == Some(e.source)
  {
  }

  lemma ExhibitRoundTrip(e: Exhibit, freshId: string, now: string)
    ensures ExhibitFromDict(ExhibitToDict(e), freshId, now) == Some(e)
  {
    ExhibitRoundTripNames(e, freshId);
    ExhibitRoundTripFiles(e, now);
    ExhibitRoundTripRest(e);
  }

  /** An empty dict gives an untitled exhibit of unknown type with no files, tags or redaction. */
  lemma ExhibitDefaults(freshId: string, now: string)
    ensures ExhibitFromDict(JObj(map[]), freshId, now) ==
      Some(Exhibit(freshId, "", "", "unknown", "", "", "", [], "", now, now, 0, 0, false, "", "", ""))
  {
  }

  // ---------------------------------------------------------------------------
  // Tags

  datatype ExhibitTag = ExhibitTag(id: string, name: string, color: string)

  function TagToDict(t: ExhibitTag): (j: Json)
    ensures j.JObj? && j.o.Keys == {"id", "name", "color"}
  {
    JObj(map["id" := JStr(t.id), "name" := JStr(t.name), "color" := JStr(t.color)])
  }

  /** `ExhibitTag.from_dict`: a fresh id, no name and the default colour for missing fields. */
  function TagFromDict(j: Json, freshId: string): Option<ExhibitTag> {
    if !j.JObj? then None
    else
      var id, name, color := OptStr(j.o, "id", freshId), OptStr(j.o, "name", ""), OptStr(j.o, "color", DefaultColor);
      if id.Some? && name.Some? && color.Some? then Some(ExhibitTag(id.value, name.value, color.value)) else None
  }

  lemma TagRoundTrip(t: ExhibitTag, freshId: string)
    ensures TagFromDict(TagToDict(t), freshId) == Some(t)
  {
    var o := TagToDict(t).o;
    assert OptStr(o, "id", freshId) == Some(t.id);
    assert OptStr(o, "name", "") == Some(t.name);
    assert OptStr(o, "color", DefaultColor) == Some(t.color);
  }

  /** The names and colours of `DEFAULT_TAGS`, in order. */
  const DefaultTagSpecs: seq<(string, string)> := [
    ("Contract", "#2ecc71"), ("Invoice", "#e74c3c"), ("Photo", "#9b59b6"), ("Email", "#3498db"),
    ("Medical", "#1abc9c"), ("Financial", "#f39c12"), ("Government", "#34495e"), ("Correspondence", "#95a5a6")]

  /** `DEFAULT_TAGS`, one fresh id per tag. */
  function DefaultTags(ids: seq<string>): (r: seq<ExhibitTag>)
    requires |ids| == |DefaultTagSpecs|
    ensures |r| == |DefaultTagSpecs|
    ensures forall i :: 0 <= i < |r| ==> r[i] == ExhibitTag(ids[i], DefaultTagSpecs[i].0, DefaultTagSpecs[i].1)
  {
    seq(|ids|, i requires 0 <= i < |ids| => ExhibitTag(ids[i], DefaultTagSpecs[i].0, DefaultTagSpecs[i].1))
  }

  // ---------------------------------------------------------------------------
  // File kinds

  /** `FILE_TYPE_EXTENSIONS`, in its insertion order. */
  const FileTypeExtensions: seq<(string, seq<string>)> := [
    ("pdf", ["pdf"]),
    ("image", ["jpg", "jpeg", "png", "gif", "bmp", "tiff", "tif", "webp"]),
    ("document", ["doc", "docx", "txt", "rtf", "odt"]),
    ("spreadsheet", ["xls", "xlsx", "csv", "ods"]),
    ("presentation", ["ppt", "pptx", "odp"]),
    ("video", ["mp4", "avi", "mov", "mkv", "wmv"]),
    ("audio", ["mp3", "wav", "aac", "flac", "m4a"])]

  function Lists(ext: string): ((string, seq<string>)) -> bool {
    (entry: (string, seq<string>)) => ext in entry.1
  }

  /** The kind whose extension list holds `ext`, first in table order, else "other". */
  function KindOf(table: seq<(string, seq<string>)>, ext: string): string {
    match FirstIndex(table, Lists(ext))
    case Some(i) => table[i].0
    case None => "other"
  }

  /** `get_file_type`: the kind of the lower-cased extension. */
  function GetFileType(filename: string): string {
    KindOf(FileTypeExtensions, Extension(Lower(filename)))
  }

  /** No extension is listed under two kinds. */
  predicate DisjointKinds(table: seq<(string, seq<string>)>) {
    forall i, j, x :: 0 <= i < j < |table| && x in table[i].1 ==> x !in table[j].1
  }

  /** With disjoint lists the kind is the one listing the extension, whatever the table order, and "other" when none does. */
  lemma KindOfSpec(table: seq<(string, seq<string>)>, ext: string)
    requires DisjointKinds(table)
    ensures forall i :: 0 <= i < |table| && ext in table[i].1 ==> KindOf(table, ext) == table[i].0
    ensures (forall i :: 0 <= i < |table| ==> ext !in table[i].1) ==> KindOf(table, ext) == "other"
  {
    var r := FirstIndex(table, Lists(ext));
    forall i | 0 <= i < |table| && ext in table[i].1
      ensures KindOf(table, ext) == table[i].0
    {
      assert Lists(ext)(table[i]);
      var k := r.value;
      assert Lists(ext)(table[k]);
      if k < i {
        assert false;
      }
    }
    if forall i :: 0 <= i < |table| ==> ext !in table[i].1 {
      forall i | 0 <= i < |table|
        ensures !Lists(ext)(table[i])
      {
      }
    }
  }

  /** No element of `xs` from index `k` on is in `ys`, checked element by element. */
  predicate NoCommonFrom(xs: seq<string>, k: nat, ys: seq<string>)
    decreases |xs| - k
  {
    k >= |xs| || (xs[k] !in ys && NoCommonFrom(xs, k + 1, ys))
  }

  lemma {:induction false} NoCommonFromSpec(xs: seq<string>, k: nat, ys: seq<string>)
    requires NoCommonFrom(xs, k, ys)
    ensures forall m :: k <= m < |xs| ==> xs[m] !in ys
    decreases |xs| - k
  {
    if k < |xs| {
      NoCommonFromSpec(xs, k + 1, ys);
    }
  }

  /** The list `xs` shares nothing with the lists of `table` from index `j` on. */
  predicate NoCommonWithFrom(xs: seq<string>, table: seq<(string, seq<string>)>, j: nat)
    decreases |table| - j
  {
    j >= |table| || (NoCommonFrom(xs, 0, table[j].1) && NoCommonWithFrom(xs, table, j + 1))
  }

  lemma {:induction false} NoCommonWithFromSpec(xs: seq<string>, table: seq<(string, seq<string>)>, j: nat, m: nat)
    requires NoCommonWithFrom(xs, table, j) && j <= m < |table|
    ensures forall x :: x in xs ==> x !in table[m].1
    decreases m - j
  {
    if j == m {
      NoCommonFromSpec(xs, 0, table[m].1);
    } else {
      NoCommonWithFromSpec(xs, table, j + 1, m);
    }
  }

  /** The lists of `table` from index `i` on are pairwise disjoint, checked pair by pair. */
  predicate PairwiseFrom(table: seq<(string, seq<string>)>, i: nat)
    decreases |table| - i
  {
    i >= |table| || (NoCommonWithFrom(table[i].1, table, i + 1) && PairwiseFrom(table, i + 1))
  }

  lemma {:induction false} PairwiseFromSpec(table: seq<(string, seq<string>)>, i: nat, a: nat, b: nat)
    requires PairwiseFrom(table, i) && i <= a < b < |table|
    ensures forall x :: x in table[a].1 ==> x !in table[b].1
    decreases a - i
  {
    if i == a {
      NoCommonWithFromSpec(table[a].1, table, a + 1, b);
    } else {
      PairwiseFromSpec(table, i + 1, a, b);
    }
  }

  lemma PairwiseSpec(table: seq<(string, seq<string>)>)
    requires PairwiseFrom(table, 0)
    ensures DisjointKinds(table)
  {
    forall a, b, x | 0 <= a < b < |table| && x in table[a].1
      ensures x !in table[b].1
    {
      PairwiseFromSpec(table, 0, a, b);
    }
  }

  // The table is checked one row at a time: row `a` against every later row.

  lemma Row0()
    ensures NoCommonWithFrom(FileTypeExtensions[0].1, FileTypeExtensions, 1)
  {
    var t := FileTypeExtensions;
    assert NoCommonFrom(t[0].1, 0, t[6].1);
    assert NoCommonWithFrom(t[0].1, t, 6);
    assert NoCommonFrom(t[0].1, 0, t[5].1);
    assert NoCommonWithFrom(t[0].1, t, 5);
    assert NoCommonFrom(t[0].1, 0, t[4].1);
    assert NoCommonWithFrom(t[0].1, t, 4);
    assert NoCommonFrom(t[0].1, 0, t[3].1);
    assert NoCommonWithFrom(t[0].1, t, 3);
    assert NoCommonFrom(t[0].1, 0, t[2].1);
    assert NoCommonWithFrom(t[0].1, t, 2);
    assert NoCommonFrom(t[0].1, 0, t[1].1);
  }

  lemma Row1Far()
    ensures NoCommonWithFrom(FileTypeExtensions[1].1, FileTypeExtensions, 4)
  {
    var t := FileTypeExtensions;
    assert NoCommonFrom(t[1].1, 0, t[6].1);
    assert NoCommonWithFrom(t[1].1, t, 6);
    assert NoCommonFrom(t[1].1, 0, t[5].1);
    assert NoCommonWithFrom(t[1].1, t, 5);
    assert NoCommonFrom(t[1].1, 0, t[4].1);
  }

  lemma Row1()
    ensures NoCommonWithFrom(FileTypeExtensions[1].1, FileTypeExtensions, 2)
  {
    var t := FileTypeExtensions;
    Row1Far();
    assert NoCommonFrom(t[1].1, 0, t[3].1);
    assert NoCommonWithFrom(t[1].1, t, 3);
    assert NoCommonFrom(t[1].1, 0, t[2].1);
  }

  lemma Row2()
    ensures NoCommonWithFrom(FileTypeExtensions[2].1, FileTypeExtensions, 3)
  {
    var t := FileTypeExtensions;
    assert NoCommonFrom(t[2].1, 0, t[6].1);
    assert NoCommonWithFrom(t[2].1, t, 6);
    assert NoCommonFrom(t[2].1, 0, t[5].1);
    assert NoCommonWithFrom(t[2].1, t, 5);
    assert NoCommonFrom(t[2].1, 0, t[4].1);
    assert NoCommonWithFrom(t[2].1, t, 4);
    assert NoCommonFrom(t[2].1, 0, t[3].1);
  }

  lemma Row3()
    ensures NoCommonWithFrom(FileTypeExtensions[3].1, FileTypeExtensions, 4)
  {
    var t := FileTypeExtensions;
    assert NoCommonFrom(t[3].1, 0, t[6].1);
    assert NoCommonWithFrom(t[3].1, t, 6);
    assert NoCommonFrom(t[3].1, 0, t[5].1);
    assert NoCommonWithFrom(t[3].1, t, 5);
    assert NoCommonFrom(t[3].1, 0, t[4].1);
  }

  lemma Row4()
    ensures NoCommonWithFrom(FileTypeExtensions[4].1, FileTypeExtensions, 5)
  {
    var t := FileTypeExtensions;
    assert NoCommonFrom(t[4].1, 0, t[6].1);
    assert NoCommonWithFrom(t[4].1, t, 6);
    assert NoCommonFrom(t[4].1, 0, t[5].1);
  }

  lemma Row5()
    ensures NoCommonWithFrom(FileTypeExtensions[5].1, FileTypeExtensions, 6)
  {
    var t := FileTypeExtensions;
    assert NoCommonFrom(t[5].1, 0, t[6].1);
  }

  /** No extension of the file-type table is listed under two kinds. */
  lemma FileTypesDisjoint()
    ensures DisjointKinds(FileTypeExtensions)
  {
    var t := FileTypeExtensions;
    Row0(); Row1(); Row2(); Row3(); Row4(); Row5();
    assert PairwiseFrom(t, 6);
    assert PairwiseFrom(t, 5);
    assert PairwiseFrom(t, 4);
    assert PairwiseFrom(t, 3);
    assert PairwiseFrom(t, 2);
    assert PairwiseFrom(t, 1);
    assert PairwiseFrom(t, 0);
    PairwiseSpec(t);
  }

  /** The kind of a file is the one whose list holds its lower-cased extension, else "other" (also with no dot). */
  lemma GetFileTypeSpec(filename: string)
    ensures forall i :: 0 <= i < |FileTypeExtensions| && Extension(Lower(filename)) in FileTypeExtensions[i].1 ==>
      GetFileType(filename) == FileTypeExtensions[i].0
    ensures (forall i :: 0 <= i < |FileTypeExtensions| ==> Extension(Lower(filename)) !in FileTypeExtensions[i].1) ==>
      GetFileType(filename) == "other"
    ensures '.' !in filename ==> GetFileType(filename) == "other"
  {
    FileTypesDisjoint();
    KindOfSpec(FileTypeExtensions, Extension(Lower(filename)));
    if '.' !in filename {
      LowerKeepsDot(filename);
      ExtensionSpec(Lower(filename));
      EmptyNotListed();
    }
  }

  /** No kind lists the empty extension. */
  lemma EmptyNotListed()
    ensures forall i :: 0 <= i < |FileTypeExtensions| ==> "" !in FileTypeExtensions[i].1
  {
    var t := FileTypeExtensions;
    assert NoCommonFrom([""], 0, t[0].1) && NoCommonFrom([""], 0, t[1].1) && NoCommonFrom([""], 0, t[2].1);
    assert NoCommonFrom([""], 0, t[3].1) && NoCommonFrom([""], 0, t[4].1) && NoCommonFrom([""], 0, t[5].1);
    assert NoCommonFrom([""], 0, t[6].1);
    forall i | 0 <= i < |t|
      ensures "" !in t[i].1
    {
      NoCommonFromSpec([""], 0, t[i].1);
    }
  }

  /** Lower-casing neither adds nor removes dots. */
  lemma LowerKeepsDot(s: string)
    ensures '.' in Lower(s) <==> '.' in s
  {
    if '.' in Lower(s) {
      var k :| 0 <= k < |s| && Lower(s)[k] == '.';
      assert s[k] == '.';
    }
    if '.' in s {
      var k :| 0 <= k < |s| && s[k] == '.';
      assert Lower(s)[k] == '.';
    }
  }
}
