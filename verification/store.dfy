/**
 * The client-side store hook: every mutation is a pure `previous -> next`
 * transition over the two sequences, and every query reads them.
 * `Date.now()` and `new Date()` arrive as the `freshId` and `now` parameters.
 */
module BookmarkStore {
  import opened Wrappers
  import opened Seqs
  import opened Text
  import opened Model

  /**
   * The development data the hook starts from. The folders are stamped with the
   * start-up time `now`; `new Date('2024-01-15')` and its siblings are UTC midnights.
   */
  function InitialStore(now: Millis): Store {
    Store(InitialBookmarks(), InitialFolders(now))
  }

  /** The four sample bookmarks. */
  function InitialBookmarks(): seq<Bookmark> {
    [ Bookmark("1", "React Documentation", "https://react.dev", Some("The official React documentation"),
               Some("https://react.dev/images/home/conf2021/cover.svg"), None, "dev", 1705276800000, None, None),
      Bookmark("2", "Figma", "https://figma.com", Some("Collaborative design tool"),
               Some("https://cdn.worldvectorlogo.com/logos/figma-5.svg"), None, "design", 1704844800000, None, None),
      Bookmark("3", "GitHub", "https://github.com", Some("Code repository and collaboration platform"),
               Some("https://github.githubassets.com/images/modules/logos_page/GitHub-Mark.png"), None, "dev",
               1705708800000, None, None),
      Bookmark("4", "YouTube", "https://youtube.com", Some("Video sharing platform"),
               Some("https://www.youtube.com/s/desktop/12345678/img/favicon_144.png"), None, "personal",
               1705017600000, None, None) ]
  }

  /** "All Bookmarks" and four folders under it, two of them one level deeper. */
  function InitialFolders(now: Millis): seq<Folder> {
    [ Folder(ROOT, ROOT_NAME, None, None, now),
      Folder("work", "Work", Some(ROOT), Some("blue"), now),
      Folder("personal", "Personal", Some(ROOT), Some("green"), now),
      Folder("dev", "Development", Some("work"), Some("purple"), now),
      Folder("design", "Design", Some("work"), Some("pink"), now) ]
  }

  /** `addBookmark`: appends one record carrying the draft plus the new id and creation time. */
  function AddBookmark(s: Store, d: BookmarkDraft, freshId: Id, now: Millis): (r: Store)
    ensures r.folders == s.folders
    ensures |r.bookmarks| == |s.bookmarks| + 1
    ensures r.bookmarks[..|s.bookmarks|] == s.bookmarks
    ensures r.bookmarks[|s.bookmarks|].id == freshId
    ensures r.bookmarks[|s.bookmarks|].createdAt == now
    ensures CarriesDraft(r.bookmarks[|s.bookmarks|], d)
  {
    s.(bookmarks := s.bookmarks + [NewBookmark(d, freshId, now)])
  }

  /** `updateBookmark`: every record with the id is merged with the patch, the others are untouched. */
  function UpdateBookmark(s: Store, id: Id, u: BookmarkPatch): (r: Store)
    ensures r.folders == s.folders
    ensures |r.bookmarks| == |s.bookmarks|
    ensures forall i | 0 <= i < |s.bookmarks| && s.bookmarks[i].id != id :: r.bookmarks[i] == s.bookmarks[i]
    ensures forall i | 0 <= i < |s.bookmarks| && s.bookmarks[i].id == id ::
              r.bookmarks[i] == MergeBookmark(s.bookmarks[i], u)
    ensures u.createdAt.None? ==>
              forall i | 0 <= i < |s.bookmarks| :: r.bookmarks[i].createdAt == s.bookmarks[i].createdAt
    ensures u.id.None? ==> forall i | 0 <= i < |s.bookmarks| :: r.bookmarks[i].id == s.bookmarks[i].id
  {
    var bs := s.bookmarks;
    s.(bookmarks := seq(|bs|, i requires 0 <= i < |bs| =>
                          if bs[i].id == id then MergeBookmark(bs[i], u) else bs[i]))
  }

  /** Applying the same update twice is applying it once. */
  lemma UpdateBookmarkIdempotent(s: Store, id: Id, u: BookmarkPatch)
    ensures UpdateBookmark(UpdateBookmark(s, id, u), id, u) == UpdateBookmark(s, id, u)
  {
    var once := UpdateBookmark(s, id, u);
    var twice := UpdateBookmark(once, id, u);
    forall i | 0 <= i < |s.bookmarks|
      ensures twice.bookmarks[i] == once.bookmarks[i]
    {
      if s.bookmarks[i].id == id {
        MergeBookmarkIdempotent(s.bookmarks[i], u);
      }
    }
  }

  /** `deleteBookmark`: drops every record with the id and keeps the rest in order. */
  function DeleteBookmark(s: Store, id: Id): (r: Store)
    ensures r.folders == s.folders
    ensures IsSubseq(r.bookmarks, s.bookmarks)
    ensures forall b :: multiset(r.bookmarks)[b] == if b.id != id then multiset(s.bookmarks)[b] else 0
    ensures forall i | 0 <= i < |r.bookmarks| :: r.bookmarks[i].id != id
  {
    s.(bookmarks := Filter(s.bookmarks, (b: Bookmark) => b.id != id))
  }

  /** Deleting an id no bookmark carries changes nothing. */
  lemma DeleteUnknownBookmark(s: Store, id: Id)
    requires forall i | 0 <= i < |s.bookmarks| :: s.bookmarks[i].id != id
    ensures DeleteBookmark(s, id) == s
  {
    FilterAll(s.bookmarks, (b: Bookmark) => b.id != id);
  }

  /** `addFolder`: appends one folder carrying the draft plus the new id and creation time. */
  function AddFolder(s: Store, d: FolderDraft, freshId: Id, now: Millis): (r: Store)
    ensures r.bookmarks == s.bookmarks
    ensures |r.folders| == |s.folders| + 1
    ensures r.folders[..|s.folders|] == s.folders
    ensures r.folders[|s.folders|].id == freshId
    ensures r.folders[|s.folders|].createdAt == now
    ensures CarriesFolderDraft(r.folders[|s.folders|], d)
  {
    s.(folders := s.folders + [NewFolder(d, freshId, now)])
  }

  /** Merges the patch into every folder with the id, in place. */
  function UpdateFolders(fs: seq<Folder>, id: Id, u: FolderPatch): (r: seq<Folder>)
    ensures |r| == |fs|
    ensures forall i | 0 <= i < |fs| && fs[i].id != id :: r[i] == fs[i]
    ensures forall i | 0 <= i < |fs| && fs[i].id == id :: r[i] == MergeFolder(fs[i], u)
    ensures u.id.None? ==> forall i | 0 <= i < |fs| :: r[i].id == fs[i].id
  {
    seq(|fs|, i requires 0 <= i < |fs| => if fs[i].id == id then MergeFolder(fs[i], u) else fs[i])
  }

  /** `updateFolder`: accepts any patch, including any `parentId`. */
  function UpdateFolder(s: Store, id: Id, u: FolderPatch): (r: Store)
    ensures r.bookmarks == s.bookmarks
    ensures r.folders == UpdateFolders(s.folders, id, u)
  {
    s.(folders := UpdateFolders(s.folders, id, u))
  }

  /**
   * Where `deleteFolder` sends the deleted folder's bookmarks:
   * `folders.find(f => f.id === id)?.parentId || 'root'`.
   */
  function ReparentTarget(fs: seq<Folder>, id: Id): (t: Id)
    ensures Find(fs, id).None? ==> t == ROOT
    ensures Find(fs, id).Some? && Find(fs, id).value.parentId.None? ==> t == ROOT
    ensures Find(fs, id).Some? && Find(fs, id).value.parentId == Some("") ==> t == ROOT
    ensures Find(fs, id).Some? && Find(fs, id).value.parentId.Some? && Find(fs, id).value.parentId.value != "" ==>
              t == Find(fs, id).value.parentId.value
  {
    var f := Find(fs, id);
    if f.None? then ROOT else OrElse(f.value.parentId, ROOT)
  }

  /** Points the bookmarks filed under `from` at `to`; nothing else changes. */
  function Refile(bs: seq<Bookmark>, from: Id, to: Id): (r: seq<Bookmark>)
    ensures |r| == |bs|
    ensures forall i | 0 <= i < |bs| && bs[i].folderId != from :: r[i] == bs[i]
    ensures forall i | 0 <= i < |bs| && bs[i].folderId == from :: r[i] == bs[i].(folderId := to)
  {
    seq(|bs|, i requires 0 <= i < |bs| => if bs[i].folderId == from then bs[i].(folderId := to) else bs[i])
  }

  /**
   * `deleteFolder`: the bookmarks filed directly in the folder move to its parent
   * (or to "All Bookmarks"), the folder records with the id are dropped, and
   * nothing else changes -- child folders keep pointing at the deleted id.
   */
  function DeleteFolder(s: Store, id: Id): (r: Store)
    ensures r.bookmarks == Refile(s.bookmarks, id, ReparentTarget(s.folders, id))
    ensures IsSubseq(r.folders, s.folders)
    ensures forall f :: multiset(r.folders)[f] == if f.id != id then multiset(s.folders)[f] else 0
    ensures forall i | 0 <= i < |r.folders| :: r.folders[i].id != id
  {
    Store(Refile(s.bookmarks, id, ReparentTarget(s.folders, id)),
          Filter(s.folders, (f: Folder) => f.id != id))
  }

  /** `moveBookmark`: refiles every bookmark with the id under the target folder. */
  function MoveBookmark(s: Store, bookmarkId: Id, target: Id): (r: Store)
    ensures r.folders == s.folders
    ensures |r.bookmarks| == |s.bookmarks|
    ensures forall i | 0 <= i < |s.bookmarks| ::
              r.bookmarks[i].folderId == (if s.bookmarks[i].id == bookmarkId then target else s.bookmarks[i].folderId)
    ensures forall i | 0 <= i < |s.bookmarks| :: r.bookmarks[i].(folderId := "") == s.bookmarks[i].(folderId := "")
  {
    var bs := s.bookmarks;
    s.(bookmarks := seq(|bs|, i requires 0 <= i < |bs| =>
                          if bs[i].id == bookmarkId then bs[i].(folderId := target) else bs[i]))
  }

  /** Moving is updating with the one-key patch `{ folderId: target }`. */
  lemma MoveIsUpdate(s: Store, bookmarkId: Id, target: Id)
    ensures MoveBookmark(s, bookmarkId, target) == UpdateBookmark(s, bookmarkId, FolderIdPatch(target))
  {
    var m := MoveBookmark(s, bookmarkId, target);
    var u := UpdateBookmark(s, bookmarkId, FolderIdPatch(target));
    assert forall i | 0 <= i < |s.bookmarks| :: m.bookmarks[i] == u.bookmarks[i];
  }

  /** `getBookmarksInFolder`: everything for "All Bookmarks", otherwise the folder's own bookmarks. */
  function BookmarksIn(s: Store, folderId: Id): (r: seq<Bookmark>)
    ensures folderId == ROOT ==> r == s.bookmarks
    ensures folderId != ROOT ==> IsSubseq(r, s.bookmarks)
    ensures folderId != ROOT ==>
              forall b :: multiset(r)[b] == if b.folderId == folderId then multiset(s.bookmarks)[b] else 0
  {
    if folderId == ROOT then s.bookmarks
    else Filter(s.bookmarks, (b: Bookmark) => b.folderId == folderId)
  }

  /** `getSubfolders`: the folders whose `parentId` is exactly the given id. */
  function Subfolders(s: Store, parentId: Id): (r: seq<Folder>)
    ensures IsSubseq(r, s.folders)
    ensures forall f :: multiset(r)[f] == if f.parentId == Some(parentId) then multiset(s.folders)[f] else 0
  {
    Filter(s.folders, (f: Folder) => f.parentId == Some(parentId))
  }

  /** Folders hanging directly under "All Bookmarks" by an absent `parentId` are not its subfolders. */
  lemma TopLevelNotSubfolderOfRoot(s: Store, f: Folder)
    requires f in s.folders && f.parentId.None?
    ensures f !in Subfolders(s, ROOT)
  {
  }

  /** A bookmark matches when the lower-cased query occurs in its title, url or description. */
  predicate BookmarkMatches(b: Bookmark, query: string) {
    var q := Lower(query);
    Contains(Lower(b.title), q) || Contains(Lower(b.url), q) ||
    (b.description.Some? && Contains(Lower(b.description.value), q))
  }

  /** A folder matches when the lower-cased query occurs in its name. */
  predicate FolderMatches(f: Folder, query: string) {
    Contains(Lower(f.name), Lower(query))
  }

  datatype SearchResult = SearchResult(bookmarks: seq<Bookmark>, folders: seq<Folder>)

  /** `searchBookmarksAndFolders`: the matching records of each kind, in store order. */
  function Search(s: Store, query: string): (r: SearchResult)
    ensures IsSubseq(r.bookmarks, s.bookmarks)
    ensures forall b :: multiset(r.bookmarks)[b] == if BookmarkMatches(b, query) then multiset(s.bookmarks)[b] else 0
    ensures IsSubseq(r.folders, s.folders)
    ensures forall f :: multiset(r.folders)[f] == if FolderMatches(f, query) then multiset(s.folders)[f] else 0
  {
    SearchResult(Filter(s.bookmarks, (b: Bookmark) => BookmarkMatches(b, query)),
                 Filter(s.folders, (f: Folder) => FolderMatches(f, query)))
  }

  /** The empty query matches every record. */
  lemma SearchEmptyQuery(s: Store)
    ensures Search(s, "") == SearchResult(s.bookmarks, s.folders)
  {
    forall i | 0 <= i < |s.bookmarks|
      ensures BookmarkMatches(s.bookmarks[i], "")
    {
      EmptyContained(Lower(s.bookmarks[i].title));
    }
    forall i | 0 <= i < |s.folders|
      ensures FolderMatches(s.folders[i], "")
    {
      EmptyContained(Lower(s.folders[i].name));
    }
    FilterAll(s.bookmarks, (b: Bookmark) => BookmarkMatches(b, ""));
    FilterAll(s.folders, (f: Folder) => FolderMatches(f, ""));
  }

  /** The case of the query does not matter: the query and its lower-cased form find the same records. */
  lemma SearchIgnoresQueryCase(s: Store, query: string)
    ensures Search(s, Lower(query)) == Search(s, query)
  {
    LowerIdempotent(query);
    FilterCongruent(s.bookmarks, (b: Bookmark) => BookmarkMatches(b, Lower(query)),
                    (b: Bookmark) => BookmarkMatches(b, query));
    FilterCongruent(s.folders, (f: Folder) => FolderMatches(f, Lower(query)),
                    (f: Folder) => FolderMatches(f, query));
  }

  /** The query "rea" finds a bookmark titled "React Documentation". */
  lemma SearchFindsByTitlePrefix(b: Bookmark)
    requires b.title == "React Documentation"
    ensures BookmarkMatches(b, "rea")
  {
    assert Lower("rea") == "rea";
    assert "rea" <= Lower(b.title);
  }

  /** The query "dev" finds a folder named "Development". */
  lemma SearchFindsFolderByName(f: Folder)
    requires f.name == "Development"
    ensures FolderMatches(f, "dev")
  {
    assert Lower("dev") == "dev";
    assert "dev" <= Lower(f.name);
  }
}
