/**
 * The records of the bookmark store: bookmarks and folders kept as two flat
 * sequences, linked only by back-references (`folderId`, `parentId`).
 * Dates are milliseconds since the epoch.
 */
module Model {
  import opened Wrappers

  type Id = string
  type Millis = int

  /** The distinguished folder that stands for "All Bookmarks". */
  const ROOT: Id := "root"
  const ROOT_NAME: string := "All Bookmarks"

  datatype Bookmark = Bookmark(
    id: Id,
    title: string,
    url: string,
    description: Option<string>,
    thumbnail: Option<string>,
    favicon: Option<string>,
    folderId: Id,
    createdAt: Millis,
    lastVisited: Option<Millis>,
    notes: Option<string>)

  datatype Folder = Folder(
    id: Id,
    name: string,
    parentId: Option<Id>,
    color: Option<string>,
    createdAt: Millis)

  /** Summary totals; declared by the type module, computed nowhere in the core. */
  datatype BookmarkStats = BookmarkStats(
    totalBookmarks: int,
    totalFolders: int,
    recentlyAdded: seq<Bookmark>,
    mostVisited: seq<Bookmark>)

  /** Both collections, in store (insertion) order. */
  datatype Store = Store(bookmarks: seq<Bookmark>, folders: seq<Folder>)

  /** A bookmark without its store-assigned `id` and `createdAt`. */
  datatype BookmarkDraft = BookmarkDraft(
    title: string,
    url: string,
    description: Option<string>,
    thumbnail: Option<string>,
    favicon: Option<string>,
    folderId: Id,
    lastVisited: Option<Millis>,
    notes: Option<string>)

  /** A folder without its store-assigned `id` and `createdAt`. */
  datatype FolderDraft = FolderDraft(name: string, parentId: Option<Id>, color: Option<string>)

  /**
   * `Partial<Bookmark>`: `None` means the key is absent. An optional field has
   * two levels, because a key that is present with the value `undefined`
   * overwrites the field when spread.
   */
  datatype BookmarkPatch = BookmarkPatch(
    id: Option<Id>,
    title: Option<string>,
    url: Option<string>,
    description: Option<Option<string>>,
    thumbnail: Option<Option<string>>,
    favicon: Option<Option<string>>,
    folderId: Option<Id>,
    createdAt: Option<Millis>,
    lastVisited: Option<Option<Millis>>,
    notes: Option<Option<string>>)

  /** `Partial<Folder>`, with the same two-level encoding of optional fields. */
  datatype FolderPatch = FolderPatch(
    id: Option<Id>,
    name: Option<string>,
    parentId: Option<Option<Id>>,
    color: Option<Option<string>>,
    createdAt: Option<Millis>)

  const NoBookmarkChange: BookmarkPatch :=
    BookmarkPatch(None, None, None, None, None, None, None, None, None, None)

  const NoFolderChange: FolderPatch := FolderPatch(None, None, None, None, None)

  /** The patch `{ folderId: target }`. */
  function FolderIdPatch(target: Id): BookmarkPatch {
    NoBookmarkChange.(folderId := Some(target))
  }

  /** JavaScript's `x || d` on an optional string: the empty string counts as absent. */
  function OrElse(x: Option<string>, d: string): string {
    if x.None? || x.value == "" then d else x.value
  }

  /** `{ ...draft, id, createdAt }`. */
  function NewBookmark(d: BookmarkDraft, id: Id, now: Millis): Bookmark {
    Bookmark(id, d.title, d.url, d.description, d.thumbnail, d.favicon, d.folderId, now,
             d.lastVisited, d.notes)
  }

  function NewFolder(d: FolderDraft, id: Id, now: Millis): Folder {
    Folder(id, d.name, d.parentId, d.color, now)
  }

  /** The record carries exactly the draft's fields. */
  predicate CarriesDraft(b: Bookmark, d: BookmarkDraft) {
    b.title == d.title && b.url == d.url && b.description == d.description &&
    b.thumbnail == d.thumbnail && b.favicon == d.favicon && b.folderId == d.folderId &&
    b.lastVisited == d.lastVisited && b.notes == d.notes
  }

  predicate CarriesFolderDraft(f: Folder, d: FolderDraft) {
    f.name == d.name && f.parentId == d.parentId && f.color == d.color
  }

  /** `{ ...b, ...u }`: every key present in the patch wins, every other field is kept. */
  function MergeBookmark(b: Bookmark, u: BookmarkPatch): Bookmark {
    Bookmark(
      u.id.GetOr(b.id), u.title.GetOr(b.title), u.url.GetOr(b.url),
      u.description.GetOr(b.description), u.thumbnail.GetOr(b.thumbnail),
      u.favicon.GetOr(b.favicon), u.folderId.GetOr(b.folderId), u.createdAt.GetOr(b.createdAt),
      u.lastVisited.GetOr(b.lastVisited), u.notes.GetOr(b.notes))
  }

  /** `{ ...f, ...u }`. */
  function MergeFolder(f: Folder, u: FolderPatch): Folder {
    Folder(u.id.GetOr(f.id), u.name.GetOr(f.name), u.parentId.GetOr(f.parentId),
           u.color.GetOr(f.color), u.createdAt.GetOr(f.createdAt))
  }

  /** `{ ...u, ...v }` for patches: the later patch wins where it has the key. */
  function ThenBookmarkPatch(u: BookmarkPatch, v: BookmarkPatch): BookmarkPatch {
    BookmarkPatch(
      if v.id.Some? then v.id else u.id,
      if v.title.Some? then v.title else u.title,
      if v.url.Some? then v.url else u.url,
      if v.description.Some? then v.description else u.description,
      if v.thumbnail.Some? then v.thumbnail else u.thumbnail,
      if v.favicon.Some? then v.favicon else u.favicon,
      if v.folderId.Some? then v.folderId else u.folderId,
      if v.createdAt.Some? then v.createdAt else u.createdAt,
      if v.lastVisited.Some? then v.lastVisited else u.lastVisited,
      if v.notes.Some? then v.notes else u.notes)
  }

  /** Spreading is associative: two merges in a row are one merge of the combined patch. */
  lemma MergeBookmarkTwice(b: Bookmark, u: BookmarkPatch, v: BookmarkPatch)
    ensures MergeBookmark(MergeBookmark(b, u), v) == MergeBookmark(b, ThenBookmarkPatch(u, v))
  {
  }

  /** Merging the same patch again changes nothing. */
  lemma MergeBookmarkIdempotent(b: Bookmark, u: BookmarkPatch)
    ensures MergeBookmark(MergeBookmark(b, u), u) == MergeBookmark(b, u)
  {
  }

  /** The first folder with the given id (`folders.find(f => f.id === id)`). */
  function Find(fs: seq<Folder>, id: Id): (r: Option<Folder>)
    ensures r.Some? ==> r.value in fs && r.value.id == id
    ensures r.None? <==> forall i | 0 <= i < |fs| :: fs[i].id != id
  {
    if |fs| == 0 then None
    else if fs[0].id == id then Some(fs[0])
    else Find(fs[1..], id)
  }

  /** `find` returns the first record with the id: every earlier record has another id. */
  lemma {:induction false} FindFirst(fs: seq<Folder>, id: Id)
    requires Find(fs, id).Some?
    ensures exists i | 0 <= i < |fs| :: fs[i] == Find(fs, id).value && forall j | 0 <= j < i :: fs[j].id != id
  {
    if fs[0].id != id {
      FindFirst(fs[1..], id);
      var i :| 0 <= i < |fs[1..]| && fs[1..][i] == Find(fs, id).value && forall j | 0 <= j < i :: fs[1..][j].id != id;
      assert fs[i + 1] == Find(fs, id).value;
    } else {
      assert fs[0] == Find(fs, id).value;
    }
  }

  /** The converse: a record with the id that no earlier record shares is what `find` returns. */
  lemma {:induction false} FindAt(fs: seq<Folder>, id: Id, k: nat)
    requires k < |fs| && fs[k].id == id
    requires forall j | 0 <= j < k :: fs[j].id != id
    ensures Find(fs, id) == Some(fs[k])
    decreases k
  {
    if k > 0 {
      assert fs[0].id != id;
      FindAt(fs[1..], id, k - 1);
    }
  }

  /** Some folder record carries this id. */
  predicate FolderExists(fs: seq<Folder>, id: Id) {
    exists i | 0 <= i < |fs| :: fs[i].id == id
  }

  /** `!folder.parentId || folder.parentId === 'root'`: the folder hangs directly under "All Bookmarks". */
  predicate IsTop(f: Folder) {
    f.parentId.None? || f.parentId.value == "" || f.parentId.value == ROOT
  }
}
