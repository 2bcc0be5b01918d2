/**
 * Reference integrity of the store, stated as predicates. The store code
 * enforces none of them; the lemmas here say which operations keep them and
 * which can break them.
 */
module Integrity {
  import opened Wrappers
  import opened Seqs
  import opened Model
  import opened BookmarkStore

  /** Every bookmark is filed under a folder that exists. */
  predicate BookmarksResolve(s: Store) {
    forall i | 0 <= i < |s.bookmarks| :: FolderExists(s.folders, s.bookmarks[i].folderId)
  }

  /** Every `parentId` that is present names a folder that exists. */
  predicate ParentsResolve(s: Store) {
    forall i | 0 <= i < |s.folders| ::
      s.folders[i].parentId.None? || FolderExists(s.folders, s.folders[i].parentId.value)
  }

  predicate RootPresent(s: Store) {
    FolderExists(s.folders, ROOT)
  }

  predicate UniqueBookmarkIds(s: Store) {
    forall i, j | 0 <= i < j < |s.bookmarks| :: s.bookmarks[i].id != s.bookmarks[j].id
  }

  predicate UniqueFolderIds(s: Store) {
    forall i, j | 0 <= i < j < |s.folders| :: s.folders[i].id != s.folders[j].id
  }

  predicate BookmarkIdUsed(s: Store, id: Id) {
    exists i | 0 <= i < |s.bookmarks| :: s.bookmarks[i].id == id
  }

  predicate WellFormed(s: Store) {
    BookmarksResolve(s) && ParentsResolve(s) && RootPresent(s) && UniqueBookmarkIds(s) && UniqueFolderIds(s)
  }

  /** The development data satisfies every integrity predicate. */
  lemma InitialStoreWellFormed(now: Millis)
    ensures WellFormed(InitialStore(now))
  {
    var fs := InitialFolders(now);
    InitialFoldersResolve(now, InitialBookmarks());
    InitialBookmarksFiled(fs);
  }

  /** The sample folders exist, resolve their parents and have distinct ids, whatever the bookmarks. */
  lemma InitialFoldersResolve(now: Millis, bs: seq<Bookmark>)
    ensures var fs := InitialFolders(now);
            FolderExists(fs, ROOT) && FolderExists(fs, "work") && FolderExists(fs, "personal") &&
            FolderExists(fs, "dev") && FolderExists(fs, "design")
    ensures ParentsResolve(Store(bs, InitialFolders(now))) && UniqueFolderIds(Store(bs, InitialFolders(now)))
  {
    var fs := InitialFolders(now);
    assert fs[0].id == ROOT && fs[1].id == "work" && fs[2].id == "personal";
    assert fs[3].id == "dev" && fs[4].id == "design";
  }

  /** The sample bookmarks have distinct ids and are filed under "dev", "design" or "personal". */
  lemma InitialBookmarksFiled(fs: seq<Folder>)
    requires FolderExists(fs, "dev") && FolderExists(fs, "design") && FolderExists(fs, "personal")
    ensures BookmarksResolve(Store(InitialBookmarks(), fs)) && UniqueBookmarkIds(Store(InitialBookmarks(), fs))
  {
    var bs := InitialBookmarks();
    assert bs[0].folderId == "dev" && bs[1].folderId == "design";
    assert bs[2].folderId == "dev" && bs[3].folderId == "personal";
  }

  /** Adding a bookmark keeps every bookmark filed exactly when its folder exists. */
  lemma AddBookmarkResolves(s: Store, d: BookmarkDraft, freshId: Id, now: Millis)
    requires BookmarksResolve(s)
    ensures BookmarksResolve(AddBookmark(s, d, freshId, now)) <==> FolderExists(s.folders, d.folderId)
  {
    var r := AddBookmark(s, d, freshId, now);
    assert forall i | 0 <= i < |s.bookmarks| :: r.bookmarks[i] == s.bookmarks[i];
  }

  /**
   * The id comes from the clock, not from the store: ids stay unique exactly
   * when the clock reading is not already in use, so two creations within
   * one millisecond collide.
   */
  lemma AddBookmarkUnique(s: Store, d: BookmarkDraft, freshId: Id, now: Millis)
    requires UniqueBookmarkIds(s)
    ensures UniqueBookmarkIds(AddBookmark(s, d, freshId, now)) <==> !BookmarkIdUsed(s, freshId)
  {
    var r := AddBookmark(s, d, freshId, now);
    var n := |s.bookmarks|;
    assert forall i | 0 <= i < n :: r.bookmarks[i] == s.bookmarks[i];
    if BookmarkIdUsed(s, freshId) {
      var i :| 0 <= i < n && s.bookmarks[i].id == freshId;
      assert r.bookmarks[i].id == r.bookmarks[n].id;
    }
  }

  /** An update keeps bookmarks filed when the patch files them under an existing folder or not at all. */
  lemma UpdateBookmarkResolves(s: Store, id: Id, u: BookmarkPatch)
    requires BookmarksResolve(s)
    requires u.folderId.None? || FolderExists(s.folders, u.folderId.value)
    ensures BookmarksResolve(UpdateBookmark(s, id, u))
  {
  }

  /** An update that files an existing bookmark under a missing folder breaks integrity. */
  lemma UpdateBookmarkCanDangle(s: Store, id: Id, u: BookmarkPatch)
    requires BookmarkIdUsed(s, id)
    requires u.folderId.Some? && !FolderExists(s.folders, u.folderId.value)
    ensures !BookmarksResolve(UpdateBookmark(s, id, u))
  {
    var i :| 0 <= i < |s.bookmarks| && s.bookmarks[i].id == id;
    assert UpdateBookmark(s, id, u).bookmarks[i].folderId == u.folderId.value;
  }

  /** Moving to an existing folder keeps integrity; moving an existing bookmark to a missing one breaks it. */
  lemma MoveBookmarkResolves(s: Store, bookmarkId: Id, target: Id)
    requires BookmarksResolve(s)
    ensures FolderExists(s.folders, target) ==> BookmarksResolve(MoveBookmark(s, bookmarkId, target))
    ensures !FolderExists(s.folders, target) && BookmarkIdUsed(s, bookmarkId) ==>
              !BookmarksResolve(MoveBookmark(s, bookmarkId, target))
  {
    MoveIsUpdate(s, bookmarkId, target);
    if FolderExists(s.folders, target) {
      UpdateBookmarkResolves(s, bookmarkId, FolderIdPatch(target));
    } else if BookmarkIdUsed(s, bookmarkId) {
      UpdateBookmarkCanDangle(s, bookmarkId, FolderIdPatch(target));
    }
  }

  /** Deleting a bookmark keeps every integrity predicate. */
  lemma DeleteBookmarkKeepsWellFormed(s: Store, id: Id)
    requires WellFormed(s)
    ensures WellFormed(DeleteBookmark(s, id))
  {
    var r := DeleteBookmark(s, id);
    forall i | 0 <= i < |r.bookmarks|
      ensures FolderExists(s.folders, r.bookmarks[i].folderId)
    {
      assert r.bookmarks[i] in s.bookmarks;
    }
    forall i, j | 0 <= i < j < |r.bookmarks|
      ensures r.bookmarks[i].id != r.bookmarks[j].id
    {
      SubseqKeepsOrder(r.bookmarks, s.bookmarks, i, j);
    }
  }

  /** Two positions of a subsequence come from two distinct, equally ordered positions of the whole. */
  lemma {:induction false} SubseqKeepsOrder<T>(sub: seq<T>, s: seq<T>, i: int, j: int)
    requires IsSubseq(sub, s) && 0 <= i < j < |sub|
    ensures exists a, b | 0 <= a < b < |s| :: s[a] == sub[i] && s[b] == sub[j]
    decreases |s|
  {
    if sub[0] == s[0] && IsSubseq(sub[1..], s[1..]) {
      if i == 0 {
        SubseqHas(sub[1..], s[1..], j - 1);
        var b :| 0 <= b < |s[1..]| && s[1..][b] == sub[1..][j - 1];
        assert s[0] == sub[i] && s[b + 1] == sub[j];
      } else {
        SubseqKeepsOrder(sub[1..], s[1..], i - 1, j - 1);
        var a, b :| 0 <= a < b < |s[1..]| && s[1..][a] == sub[1..][i - 1] && s[1..][b] == sub[1..][j - 1];
        assert s[a + 1] == sub[i] && s[b + 1] == sub[j];
      }
    } else {
      SubseqKeepsOrder(sub, s[1..], i, j);
      var a, b :| 0 <= a < b < |s[1..]| && s[1..][a] == sub[i] && s[1..][b] == sub[j];
      assert s[a + 1] == sub[i] && s[b + 1] == sub[j];
    }
  }

  /** Every element of a subsequence occurs in the whole. */
  lemma {:induction false} SubseqHas<T>(sub: seq<T>, s: seq<T>, i: int)
    requires IsSubseq(sub, s) && 0 <= i < |sub|
    ensures exists b | 0 <= b < |s| :: s[b] == sub[i]
    decreases |s|
  {
    if sub[0] == s[0] && IsSubseq(sub[1..], s[1..]) {
      if i == 0 {
        assert s[0] == sub[i];
      } else {
        SubseqHas(sub[1..], s[1..], i - 1);
        var b :| 0 <= b < |s[1..]| && s[1..][b] == sub[1..][i - 1];
        assert s[b + 1] == sub[i];
      }
    } else {
      SubseqHas(sub, s[1..], i);
      var b :| 0 <= b < |s[1..]| && s[1..][b] == sub[i];
      assert s[b + 1] == sub[i];
    }
  }

  /** A new folder keeps parents resolving exactly when its own parent is absent or resolves. */
  lemma AddFolderResolves(s: Store, d: FolderDraft, freshId: Id, now: Millis)
    requires ParentsResolve(s) && BookmarksResolve(s)
    ensures BookmarksResolve(AddFolder(s, d, freshId, now))
    ensures ParentsResolve(AddFolder(s, d, freshId, now)) <==>
              d.parentId.None? || FolderExists(s.folders, d.parentId.value) || d.parentId.value == freshId
  {
    var r := AddFolder(s, d, freshId, now);
    var n := |s.folders|;
    assert forall i | 0 <= i < n :: r.folders[i] == s.folders[i];
    assert forall id :: FolderExists(s.folders, id) ==> FolderExists(r.folders, id);
    if d.parentId.Some? && FolderExists(r.folders, d.parentId.value) {
      var k :| 0 <= k < |r.folders| && r.folders[k].id == d.parentId.value;
      if k < n {
        assert s.folders[k].id == d.parentId.value;
      }
    }
    assert r.folders[n].parentId == d.parentId;
  }

  /**
   * A folder update that keeps ids keeps bookmarks filed, and keeps parents
   * resolving when the new parent is absent or names an existing folder.
   */
  lemma UpdateFolderResolves(s: Store, id: Id, u: FolderPatch)
    requires BookmarksResolve(s) && ParentsResolve(s)
    requires u.id.None?
    requires u.parentId.None? || u.parentId.value.None? || FolderExists(s.folders, u.parentId.value.value)
    ensures BookmarksResolve(UpdateFolder(s, id, u))
    ensures ParentsResolve(UpdateFolder(s, id, u))
  {
    var r := UpdateFolder(s, id, u);
    assert forall x :: FolderExists(s.folders, x) ==> FolderExists(r.folders, x) by {
      forall x | FolderExists(s.folders, x)
        ensures FolderExists(r.folders, x)
      {
        var k :| 0 <= k < |s.folders| && s.folders[k].id == x;
        assert r.folders[k].id == x;
      }
    }
  }

  /** A list holding the records of `fs` without the id, as often as `fs` does, holds exactly those records. */
  lemma KeptMembers(fs: seq<Folder>, kept: seq<Folder>, id: Id)
    requires forall f :: multiset(kept)[f] == if f.id != id then multiset(fs)[f] else 0
    ensures forall f :: f in kept <==> f in fs && f.id != id
  {
    forall f
      ensures f in kept <==> f in fs && f.id != id
    {
      assert f in kept <==> f in multiset(kept);
      assert f in fs <==> f in multiset(fs);
    }
  }

  /** Such a list still has a folder with every other id that `fs` has. */
  lemma KeptIds(fs: seq<Folder>, kept: seq<Folder>, id: Id, x: Id)
    requires forall f :: multiset(kept)[f] == if f.id != id then multiset(fs)[f] else 0
    requires x != id && FolderExists(fs, x)
    ensures FolderExists(kept, x)
  {
    KeptMembers(fs, kept, id);
    var k :| 0 <= k < |fs| && fs[k].id == x;
    assert fs[k] in kept;
    var j :| 0 <= j < |kept| && kept[j] == fs[k];
  }

  /** Where `deleteFolder` sends the bookmarks exists, given that parents resolve and "All Bookmarks" is present. */
  lemma TargetExists(s: Store, id: Id)
    requires ParentsResolve(s) && RootPresent(s)
    ensures FolderExists(s.folders, ReparentTarget(s.folders, id))
  {
    if ReparentTarget(s.folders, id) != ROOT {
      var f := Find(s.folders, id).value;
      var k :| 0 <= k < |s.folders| && s.folders[k] == f;
    }
  }

  /**
   * Deleting a folder keeps every bookmark filed when "All Bookmarks" is not
   * the folder deleted and the folder is not its own parent.
   */
  lemma DeleteFolderKeepsBookmarksFiled(s: Store, id: Id)
    requires BookmarksResolve(s) && ParentsResolve(s) && RootPresent(s)
    requires id != ROOT
    requires ReparentTarget(s.folders, id) != id
    ensures BookmarksResolve(DeleteFolder(s, id))
  {
    var r := DeleteFolder(s, id);
    var t := ReparentTarget(s.folders, id);
    TargetExists(s, id);
    forall i | 0 <= i < |r.bookmarks|
      ensures FolderExists(r.folders, r.bookmarks[i].folderId)
    {
      var x := if s.bookmarks[i].folderId == id then t else s.bookmarks[i].folderId;
      assert r.bookmarks[i].folderId == x;
      KeptIds(s.folders, r.folders, id, x);
    }
  }

  /** No folder other than the one with the id names it as parent. */
  predicate NoChildOf(fs: seq<Folder>, id: Id) {
    forall i | 0 <= i < |fs| && fs[i].id != id :: fs[i].parentId != Some(id)
  }

  /**
   * Deleting a folder keeps parents resolving exactly when no remaining folder
   * names it as parent: child folders are not reparented.
   */
  lemma DeleteFolderParentsIff(s: Store, id: Id)
    requires ParentsResolve(s)
    ensures ParentsResolve(DeleteFolder(s, id)) <==> NoChildOf(s.folders, id)
  {
    if NoChildOf(s.folders, id) {
      DeleteFolderWithoutChildren(s, id);
    } else {
      DeleteFolderOrphans(s, id);
    }
  }

  /** The "if" half: with no child naming the folder, every remaining parent still resolves. */
  lemma DeleteFolderWithoutChildren(s: Store, id: Id)
    requires ParentsResolve(s) && NoChildOf(s.folders, id)
    ensures ParentsResolve(DeleteFolder(s, id))
  {
    KeptParentsResolve(s.folders, DeleteFolder(s, id).folders, id);
  }

  /** Dropping a folder nobody names as parent leaves every kept parent resolving. */
  lemma KeptParentsResolve(fs: seq<Folder>, kept: seq<Folder>, id: Id)
    requires forall f :: multiset(kept)[f] == if f.id != id then multiset(fs)[f] else 0
    requires forall i | 0 <= i < |fs| :: fs[i].parentId.None? || FolderExists(fs, fs[i].parentId.value)
    requires NoChildOf(fs, id)
    ensures forall i | 0 <= i < |kept| :: kept[i].parentId.None? || FolderExists(kept, kept[i].parentId.value)
  {
    KeptMembers(fs, kept, id);
    forall i | 0 <= i < |kept| && kept[i].parentId.Some?
      ensures FolderExists(kept, kept[i].parentId.value)
    {
      var f := kept[i];
      assert f in fs;
      var a :| 0 <= a < |fs| && fs[a] == f;
      KeptIds(fs, kept, id, f.parentId.value);
    }
  }

  /** The "only if" half: a child naming the folder is kept and now names a missing folder. */
  lemma DeleteFolderOrphans(s: Store, id: Id)
    requires !NoChildOf(s.folders, id)
    ensures !ParentsResolve(DeleteFolder(s, id))
  {
    var kept := DeleteFolder(s, id).folders;
    var k := KeptChild(s.folders, kept, id);
    assert kept[k].parentId == Some(id);
  }

  /** Dropping a folder some other folder names as parent keeps that child, now naming a missing folder. */
  lemma KeptChild(fs: seq<Folder>, kept: seq<Folder>, id: Id) returns (k: nat)
    requires forall f :: multiset(kept)[f] == if f.id != id then multiset(fs)[f] else 0
    requires forall i | 0 <= i < |kept| :: kept[i].id != id
    requires !NoChildOf(fs, id)
    ensures k < |kept| && kept[k].parentId == Some(id) && !FolderExists(kept, id)
  {
    var i :| 0 <= i < |fs| && fs[i].id != id && fs[i].parentId == Some(id);
    KeptMembers(fs, kept, id);
    assert fs[i] in kept;
    k :| 0 <= k < |kept| && kept[k] == fs[i];
  }

  /** Nothing stops the deletion of "All Bookmarks" itself. */
  lemma DeleteFolderCanRemoveRoot(s: Store)
    ensures !RootPresent(DeleteFolder(s, ROOT))
  {
  }
}
