/**
 * The folder sidebar: which folders form the top level, which are shown
 * under a folder, which folders are expanded, and what each row offers.
 */
module Sidebar {
  import opened Wrappers
  import opened Seqs
  import opened Model
  import opened BookmarkStore

  /** Only "All Bookmarks" starts expanded. */
  const INITIAL_EXPANDED: set<Id> := {ROOT}

  /** `toggleFolder`: flips whether the one folder is expanded. */
  function Toggle(expanded: set<Id>, id: Id): (r: set<Id>)
    ensures id in r <==> id !in expanded
    ensures forall x | x != id :: x in r <==> x in expanded
  {
    if id in expanded then expanded - {id} else expanded + {id}
  }

  /** Toggling the same folder twice restores the expanded set. */
  lemma ToggleTwice(expanded: set<Id>, id: Id)
    ensures Toggle(Toggle(expanded, id), id) == expanded
  {
  }

  /** The rows at the top level: folders without a parent or directly under `'root'`, in store order. */
  function TopLevel(fs: seq<Folder>): (r: seq<Folder>)
    ensures IsSubseq(r, fs)
    ensures forall f :: multiset(r)[f] ==
              if f.parentId.None? || f.parentId == Some("") || f.parentId == Some(ROOT) then multiset(fs)[f] else 0
  {
    Filter(fs, (f: Folder) => IsTop(f))
  }

  /** The rows under a folder: the folders whose `parentId` is its id, in store order. */
  function Children(fs: seq<Folder>, id: Id): (r: seq<Folder>)
    ensures IsSubseq(r, fs)
    ensures forall f :: multiset(r)[f] == if f.parentId == Some(id) then multiset(fs)[f] else 0
  {
    Filter(fs, (f: Folder) => f.parentId == Some(id))
  }

  /** `hasChildren`: some folder names this one as parent. */
  predicate HasChildren(fs: seq<Folder>, id: Id) {
    exists i | 0 <= i < |fs| :: fs[i].parentId == Some(id)
  }

  /** A row shows an expand button exactly when it has child rows to show. */
  lemma HasChildrenIff(fs: seq<Folder>, id: Id)
    ensures HasChildren(fs, id) <==> |Children(fs, id)| > 0
  {
    var r := Children(fs, id);
    if HasChildren(fs, id) {
      var i :| 0 <= i < |fs| && fs[i].parentId == Some(id);
      assert fs[i] in multiset(fs);
      assert fs[i] in multiset(r);
    }
  }

  /** `bookmarkCounts[id] || 0`: a folder without an entry counts as empty. */
  function CountOf(counts: map<Id, int>, id: Id): (n: int)
    ensures id !in counts ==> n == 0
    ensures id in counts && counts[id] != 0 ==> n == counts[id]
    ensures n == 0 <==> id !in counts || counts[id] == 0
  {
    if id in counts && counts[id] != 0 then counts[id] else 0
  }

  /** The count badge appears only for a positive count. */
  predicate ShowsBadge(counts: map<Id, int>, id: Id) {
    CountOf(counts, id) > 0
  }

  /** The row's context menu (add subfolder, rename, delete) exists for every folder but "All Bookmarks". */
  predicate OffersActions(f: Folder) {
    f.id != ROOT
  }

  /**
   * A folder is listed both at the top level and among the children of an id
   * exactly when that id is "" or "root": children of "All Bookmarks" are
   * top-level rows and child rows of the "All Bookmarks" row at once.
   */
  lemma TopLevelAndChildrenOverlap(fs: seq<Folder>, f: Folder, id: Id)
    ensures f in TopLevel(fs) && f in Children(fs, id) <==>
              f in fs && f.parentId == Some(id) && (id == "" || id == ROOT)
  {
    if f in TopLevel(fs) && f in Children(fs, id) {
      assert f in multiset(TopLevel(fs)) && f in multiset(Children(fs, id));
    }
    if f in fs && f.parentId == Some(id) && (id == "" || id == ROOT) {
      assert f in multiset(fs);
      assert f in multiset(TopLevel(fs)) && f in multiset(Children(fs, id));
    }
  }

  /**
   * On the starting folders "Work" is drawn twice: as a top-level row, and as
   * a child row of "All Bookmarks", which starts expanded, has children and
   * offers no actions.
   */
  lemma InitialWorkDrawnTwice(now: Millis)
    ensures var fs := InitialFolders(now);
            fs[0].id == ROOT && fs[0] in TopLevel(fs) && !OffersActions(fs[0]) &&
            fs[0].id in INITIAL_EXPANDED && HasChildren(fs, fs[0].id) &&
            fs[1].name == "Work" && fs[1] in TopLevel(fs) && fs[1] in Children(fs, fs[0].id)
  {
    var fs := InitialFolders(now);
    assert fs[1].parentId == Some(ROOT);
    TopLevelAndChildrenOverlap(fs, fs[1], ROOT);
    assert fs[0] in multiset(fs);
    assert fs[0] in multiset(TopLevel(fs));
  }
}
