/**
 * The page component (src/components/BookmarkManager.tsx): the per-folder
 * counts, the list it shows, and the handlers that connect the dialogs to the
 * store. The page state is the store plus the selected folder.
 */
module Manager {
  import opened Wrappers
  import opened Seqs
  import opened Model
  import opened BookmarkStore
  import opened Ordering
  import opened Hierarchy
  import opened Integrity
  import FolderDialog
  import Sidebar
  import BookmarkDialog

  /** The number of bookmarks filed directly in the folder. */
  function Tally(bs: seq<Bookmark>, id: Id): (n: nat)
    ensures n <= |bs|
    ensures n == multiset(seq(|bs|, i requires 0 <= i < |bs| => bs[i].folderId))[id]
  {
    if |bs| == 0 then 0
    else
      var rest := bs[1..];
      assert seq(|bs|, i requires 0 <= i < |bs| => bs[i].folderId) ==
             [bs[0].folderId] + seq(|rest|, i requires 0 <= i < |rest| => rest[i].folderId);
      (if bs[0].folderId == id then 1 else 0) + Tally(rest, id)
  }

  /** What `bookmarkCounts` holds for a folder id: everything for "All Bookmarks", its own bookmarks otherwise. */
  function CountFor(bs: seq<Bookmark>, id: Id): nat {
    if id == ROOT then |bs| else Tally(bs, id)
  }

  /** `bookmarkCounts`: one entry per folder, later records of a repeated id writing the same value again. */
  function CountsOver(fs: seq<Folder>, bs: seq<Bookmark>): (m: map<Id, int>)
    ensures m.Keys == IdSet(fs)
    ensures forall id | id in m :: m[id] == CountFor(bs, id)
  {
    if |fs| == 0 then map[]
    else
      var init := fs[..|fs| - 1];
      var m := CountsOver(init, bs);
      assert IdSet(fs) == IdSet(init) + {fs[|fs| - 1].id} by {
        forall x | x in IdSet(fs)
          ensures x in IdSet(init) + {fs[|fs| - 1].id}
        {
          var i :| 0 <= i < |fs| && fs[i].id == x;
          if i < |fs| - 1 { assert init[i].id == x; }
        }
        forall x | x in IdSet(init)
          ensures x in IdSet(fs)
        {
          var i :| 0 <= i < |init| && init[i].id == x;
          assert fs[i].id == x;
        }
      }
      m[fs[|fs| - 1].id := CountFor(bs, fs[|fs| - 1].id)]
  }

  function Counts(s: Store): (m: map<Id, int>)
    ensures forall i | 0 <= i < |s.folders| :: s.folders[i].id in m
    ensures forall id | id in m :: FolderExists(s.folders, id)
    ensures ROOT in m ==> m[ROOT] == |s.bookmarks|
  {
    var m := CountsOver(s.folders, s.bookmarks);
    assert forall i | 0 <= i < |s.folders| :: s.folders[i].id in m by {
      forall i | 0 <= i < |s.folders|
        ensures s.folders[i].id in m
      {
        assert s.folders[i].id in IdSet(s.folders);
      }
    }
    m
  }

  /**
   * A sidebar row shows a count badge exactly when the folder is stored and,
   * for "All Bookmarks", there is any bookmark, for any other folder, some
   * bookmark is filed directly in it.
   */
  lemma BadgeIffFiled(s: Store, id: Id)
    ensures Sidebar.ShowsBadge(Counts(s), id) <==>
              FolderExists(s.folders, id) &&
              if id == ROOT then |s.bookmarks| > 0
              else exists i | 0 <= i < |s.bookmarks| :: s.bookmarks[i].folderId == id
  {
    var m := Counts(s);
    if FolderExists(s.folders, id) {
      var k :| 0 <= k < |s.folders| && s.folders[k].id == id;
      assert id in m;
      if id != ROOT {
        var bs := s.bookmarks;
        var ids := seq(|bs|, i requires 0 <= i < |bs| => bs[i].folderId);
        assert m[id] == Tally(bs, id) == multiset(ids)[id];
        if exists i | 0 <= i < |bs| :: bs[i].folderId == id {
          var i :| 0 <= i < |bs| && bs[i].folderId == id;
          assert ids[i] == id;
          assert id in multiset(ids);
        }
        if m[id] > 0 {
          assert id in multiset(ids);
          var i :| 0 <= i < |ids| && ids[i] == id;
          assert bs[i].folderId == id;
        }
      }
    } else {
      assert id !in m;
    }
  }

  /** A folder's badge is the length of the list shown when the folder is selected. */
  lemma CountIsListingLength(s: Store, id: Id)
    requires id in Counts(s)
    ensures Counts(s)[id] == |BookmarksIn(s, id)|
  {
    if id != ROOT {
      var r := BookmarksIn(s, id);
      TallyIsFilterLength(s.bookmarks, id);
    }
  }

  lemma {:induction false} TallyIsFilterLength(bs: seq<Bookmark>, id: Id)
    ensures Tally(bs, id) == |Filter(bs, (b: Bookmark) => b.folderId == id)|
  {
    if |bs| > 0 {
      var p := (b: Bookmark) => b.folderId == id;
      TallyIsFilterLength(bs[1..], id);
      assert Filter(bs, p) == if p(bs[0]) then [bs[0]] + Filter(bs[1..], p) else Filter(bs[1..], p);
    }
  }

  /** Adding a bookmark raises the count of "All Bookmarks" and of its own folder by one, and no other. */
  lemma {:induction false} AddBookmarkCounts(s: Store, d: BookmarkDraft, freshId: Id, now: Millis, id: Id)
    requires id in Counts(s)
    ensures id in Counts(AddBookmark(s, d, freshId, now))
    ensures Counts(AddBookmark(s, d, freshId, now))[id] ==
              Counts(s)[id] + (if id == ROOT || id == d.folderId then 1 else 0)
  {
    var r := AddBookmark(s, d, freshId, now);
    assert r.bookmarks == s.bookmarks + [r.bookmarks[|s.bookmarks|]];
    TallyAppend(s.bookmarks, r.bookmarks[|s.bookmarks|], id);
  }

  lemma {:induction false} TallyAppend(bs: seq<Bookmark>, b: Bookmark, id: Id)
    ensures Tally(bs + [b], id) == Tally(bs, id) + (if b.folderId == id then 1 else 0)
  {
    if |bs| > 0 {
      assert (bs + [b])[1..] == bs[1..] + [b];
      TallyAppend(bs[1..], b, id);
    }
  }

  /**
   * `currentBookmarks`: the search's bookmark results while the query is
   * non-empty, the selected folder's listing otherwise, in the chosen order.
   */
  function CurrentBookmarks(s: Store, query: string, current: Id, sortBy: SortBy): (r: seq<Bookmark>)
    ensures Sorted(sortBy, r)
    ensures query != "" ==> multiset(r) == multiset(Search(s, query).bookmarks)
    ensures query == "" ==> multiset(r) == multiset(BookmarksIn(s, current))
    ensures forall b :: b in r <==>
              b in s.bookmarks &&
              (query != "" ==> BookmarkMatches(b, query)) &&
              (query == "" && current != ROOT ==> b.folderId == current)
  {
    var selected := if query != "" then Search(s, query).bookmarks else BookmarksIn(s, current);
    var r := Sort(sortBy, selected);
    assert forall b :: b in r <==> b in multiset(selected);
    r
  }

  /** The page opens sorted by date: the list it shows starts newest first. */
  lemma DefaultOrderNewestFirst(s: Store, query: string, current: Id)
    ensures var r := CurrentBookmarks(s, query, current, DEFAULT_SORT);
            forall i, j | 0 <= i < j < |r| :: r[i].createdAt >= r[j].createdAt
  {
    var r := CurrentBookmarks(s, query, current, DEFAULT_SORT);
    forall i, j | 0 <= i < j < |r|
      ensures r[i].createdAt >= r[j].createdAt
    {
      assert Before(DEFAULT_SORT, r[i], r[j]);
    }
  }

  /** The page state: the store and the selected folder. */
  datatype Page = Page(store: Store, current: Id)

  /**
   * `handleDeleteFolder`: delete, and fall back to "All Bookmarks" when the
   * selected folder was the one deleted. The delete is the store's own, which
   * moves the bookmarks up and leaves subfolders pointing at the gone folder.
   */
  function HandleDeleteFolder(p: Page, folderId: Id): (r: Page)
    ensures r.store.bookmarks == DeleteFolder(p.store, folderId).bookmarks
    ensures r.store.folders == DeleteFolder(p.store, folderId).folders
    ensures IsSubseq(r.store.folders, p.store.folders)
    ensures forall f :: multiset(r.store.folders)[f] == if f.id != folderId then multiset(p.store.folders)[f] else 0
    ensures forall i | 0 <= i < |r.store.folders| :: r.store.folders[i].id != folderId
    ensures p.current == folderId ==> r.current == ROOT
    ensures p.current != folderId ==> r.current == p.current
  {
    Page(DeleteFolder(p.store, folderId), if p.current == folderId then ROOT else p.current)
  }

  /** After deleting a folder the selection never names a folder that is gone, unless it already did. */
  lemma DeleteKeepsSelection(p: Page, folderId: Id)
    requires p.current == ROOT || FolderExists(p.store.folders, p.current)
    ensures var r := HandleDeleteFolder(p, folderId);
            r.current == ROOT || FolderExists(r.store.folders, r.current)
  {
    if p.current != ROOT && p.current != folderId {
      KeptIds(p.store.folders, DeleteFolder(p.store, folderId).folders, folderId, p.current);
    }
  }

  /** `handleAddFolder`: the parent the new-folder dialog opens with, "root" when none (or "") is given. */
  function NewFolderParent(parentId: Option<Id>): (r: Id)
    ensures parentId.None? || parentId == Some("") ==> r == ROOT
    ensures parentId.Some? && parentId != Some("") ==> r == parentId.value
  {
    OrElse(parentId, ROOT)
  }

  /**
   * A folder created from the sidebar's "+" lands where asked: under the given
   * parent, or at the top level (no `parentId`) for none, "" or "root".
   */
  lemma NewFolderLandsUnderParent(s: Store, parentId: Option<Id>, name: string, color: string, freshId: Id, now: Millis)
    requires !Text.AllSpace(name)
    ensures var form := FolderDialog.OpenForm(None, Some(NewFolderParent(parentId))).(name := name, color := color);
            var d := FolderDialog.Save(form);
            d.Some? &&
            var f := AddFolder(s, d.value, freshId, now).folders[|s.folders|];
            f.id == freshId &&
            (f.parentId.None? <==> parentId.None? || parentId == Some("") || parentId == Some(ROOT)) &&
            (f.parentId.Some? ==> f.parentId == parentId)
  {
  }

  /** `handleSaveBookmark`: an edit updates the edited bookmark, otherwise a new one is added. */
  function HandleSaveBookmark(s: Store, editing: Option<Bookmark>, v: BookmarkDialog.Saved, freshId: Id, now: Millis): (r: Store)
    ensures editing.None? ==>
              |r.bookmarks| == |s.bookmarks| + 1 && r.bookmarks[..|s.bookmarks|] == s.bookmarks &&
              r.bookmarks[|s.bookmarks|].id == freshId && r.bookmarks[|s.bookmarks|].createdAt == now &&
              CarriesDraft(r.bookmarks[|s.bookmarks|], BookmarkDialog.AsDraft(v))
    ensures editing.Some? ==> |r.bookmarks| == |s.bookmarks|
    ensures editing.Some? ==>
              forall i | 0 <= i < |s.bookmarks| ::
                r.bookmarks[i] == if s.bookmarks[i].id == editing.value.id
                                  then MergeBookmark(s.bookmarks[i], BookmarkDialog.AsPatch(v))
                                  else s.bookmarks[i]
    ensures r.folders == s.folders
  {
    match editing
    case Some(b) => UpdateBookmark(s, b.id, BookmarkDialog.AsPatch(v))
    case None => AddBookmark(s, BookmarkDialog.AsDraft(v), freshId, now)
  }

  /**
   * Editing a bookmark through the dialog changes only that bookmark's record:
   * it keeps its id, creation time and favicon and takes the form's fields.
   */
  lemma EditBookmarkChangesOnlyIt(s: Store, b: Bookmark, form: BookmarkDialog.Form, freshId: Id, now: Millis, i: nat)
    requires BookmarkDialog.Save(form, Some(b)).Some? && i < |s.bookmarks|
    ensures var v := BookmarkDialog.Save(form, Some(b)).value;
            var r := HandleSaveBookmark(s, Some(b), v, freshId, now);
            (s.bookmarks[i].id != b.id ==> r.bookmarks[i] == s.bookmarks[i]) &&
            (s.bookmarks[i].id == b.id ==>
               r.bookmarks[i].id == b.id && r.bookmarks[i].createdAt == s.bookmarks[i].createdAt &&
               r.bookmarks[i].favicon == s.bookmarks[i].favicon &&
               r.bookmarks[i].url == form.url && r.bookmarks[i].title == form.title &&
               r.bookmarks[i].folderId == form.folderId && r.bookmarks[i].lastVisited == b.lastVisited)
  {
  }

  /** `handleSaveFolder`: an edit updates the edited folder, otherwise a new one is added. */
  function HandleSaveFolder(s: Store, editing: Option<Folder>, d: FolderDraft, freshId: Id, now: Millis): (r: Store)
    ensures editing.None? ==>
              |r.folders| == |s.folders| + 1 && r.folders[..|s.folders|] == s.folders &&
              r.folders[|s.folders|].id == freshId && r.folders[|s.folders|].createdAt == now &&
              CarriesFolderDraft(r.folders[|s.folders|], d)
    ensures editing.Some? ==> |r.folders| == |s.folders|
    ensures editing.Some? ==>
              forall i | 0 <= i < |s.folders| ::
                r.folders[i] == if s.folders[i].id == editing.value.id
                                then MergeFolder(s.folders[i], FolderDialog.AsPatch(d))
                                else s.folders[i]
    ensures r.bookmarks == s.bookmarks
  {
    match editing
    case Some(f) => UpdateFolder(s, f.id, FolderDialog.AsPatch(d))
    case None => AddFolder(s, d, freshId, now)
  }

  /**
   * Saving the folder dialog on an edit changes only the edited folder's
   * records: they keep their id and creation time and take the saved name,
   * parent and colour.
   */
  lemma EditFolderChangesOnlyIt(s: Store, f: Folder, d: FolderDraft, freshId: Id, now: Millis, i: nat)
    requires i < |s.folders|
    ensures var r := HandleSaveFolder(s, Some(f), d, freshId, now);
            (s.folders[i].id != f.id ==> r.folders[i] == s.folders[i]) &&
            (s.folders[i].id == f.id ==>
               r.folders[i].id == f.id && r.folders[i].createdAt == s.folders[i].createdAt &&
               r.folders[i].name == d.name && r.folders[i].parentId == d.parentId &&
               r.folders[i].color == d.color)
  {
  }

  /** Folders that the dialog reads and writes back unchanged. */
  predicate DialogStable(f: Folder) {
    Text.Trim(f.name) == f.name && f.name != "" &&
    f.parentId != Some(ROOT) && f.parentId != Some("") && f.color.Some? && f.color != Some("")
  }

  lemma DialogStableDraft(f: Folder)
    requires DialogStable(f)
    ensures FolderDialog.Save(FolderDialog.OpenForm(Some(f), None)) == Some(FolderDraft(f.name, f.parentId, f.color))
  {
    Text.TrimEmptyIff(f.name);
    FolderDialog.EditSaveRoundTrip(f, None);
  }

  /**
   * Opening a folder for editing and saving it untouched gives back the same
   * record, when its name has no surrounding white space, its parent is not
   * "root" or "", and its colour is set.
   */
  lemma EditFolderUntouched(s: Store, f: Folder, freshId: Id, now: Millis, i: nat)
    requires i < |s.folders| && s.folders[i] == f && DialogStable(f)
    ensures FolderDialog.Save(FolderDialog.OpenForm(Some(f), None)).Some?
    ensures HandleSaveFolder(s, Some(f), FolderDialog.Save(FolderDialog.OpenForm(Some(f), None)).value, freshId, now).folders[i] == f
  {
    DialogStableDraft(f);
    var d := FolderDraft(f.name, f.parentId, f.color);
    assert MergeFolder(f, FolderDialog.AsPatch(d)) == f;
    assert UpdateFolders(s.folders, f.id, FolderDialog.AsPatch(d))[i] == f;
  }

  /** `handlePreviewBookmark`: opening the preview stamps `lastVisited` on the bookmark. */
  function PreviewBookmark(s: Store, b: Bookmark, now: Millis): (r: Store)
    ensures |r.bookmarks| == |s.bookmarks| && r.folders == s.folders
    ensures forall i | 0 <= i < |s.bookmarks| ::
              r.bookmarks[i] == if s.bookmarks[i].id == b.id then s.bookmarks[i].(lastVisited := Some(now)) else s.bookmarks[i]
  {
    UpdateBookmark(s, b.id, NoBookmarkChange.(lastVisited := Some(Some(now))))
  }
}
