/**
 * Three places where the code does not do what it says or evidently means,
 * each modelled as written with an input that shows the gap, next to a
 * corrected definition with the intended property proved.
 *
 * 1. The folder dialog's parent list is meant to "prevent circular references"
 *    but leaves out only the edited folder and its direct children; choosing a
 *    grandchild closes a cycle, after which `getFolderPath` never returns.
 *    `SafeParents` leaves out the whole subtree, and any choice from it keeps
 *    the store free of cycles.
 * 2. Deleting a folder is announced as moving "the folder and its contents" to
 *    the parent, but only bookmarks move: subfolders keep naming the deleted
 *    folder and disappear from the sidebar. `DeleteFolderCascade` moves them too
 *    and keeps every reference resolving.
 * 3. The sidebar draws the children of "All Bookmarks" twice: as top-level
 *    rows and again under the "All Bookmarks" row, which starts expanded.
 *    `SidebarTopLevel` keeps them only under its row.
 */
module Corrections {
  import opened Wrappers
  import opened Seqs
  import opened Model
  import opened BookmarkStore
  import opened Integrity
  import opened Hierarchy
  import FolderDialog
  import Sidebar
  import Text
  import Manager

  /** The walk from `f` passes a folder with id `w` within `n` lookups (`f` itself included). */
  predicate Reaches(fs: seq<Folder>, f: Folder, w: Id, n: nat)
    decreases n
  {
    f.id == w || (n > 0 && Next(fs, f).Some? && Reaches(fs, Next(fs, f).value, w, n - 1))
  }

  /** The folder named `e` is `w` or lies below it, looking at most `n` levels up. */
  predicate DescendsFrom(fs: seq<Folder>, e: Id, w: Id, n: nat) {
    e == w || (Find(fs, e).Some? && Reaches(fs, Find(fs, e).value, w, n))
  }

  /** The corrected parent list: while editing, every folder outside the edited folder's subtree. */
  function SafeParents(fs: seq<Folder>, editFolder: Option<Folder>): (r: seq<Folder>)
    ensures editFolder.None? ==> r == fs
    ensures IsSubseq(r, fs)
    ensures editFolder.Some? ==>
              forall g :: multiset(r)[g] ==
                if !DescendsFrom(fs, g.id, editFolder.value.id, |fs|) then multiset(fs)[g] else 0
  {
    match editFolder
    case None => SubseqRefl(fs); fs
    case Some(e) => Filter(fs, (g: Folder) => !DescendsFrom(fs, g.id, e.id, |fs|))
  }

  /** A patch for folder `w` whose parent, if it sets one, is top-level, missing, or outside `w`'s subtree. */
  predicate SafeParentPatch(fs: seq<Folder>, w: Id, u: FolderPatch) {
    u.parentId.None? || u.parentId.value.None? || u.parentId.value.value == "" ||
    u.parentId.value.value == ROOT || !DescendsFrom(fs, u.parentId.value.value, w, |fs|)
  }

  /** The record after `UpdateFolders(_, w, u)`. */
  function Patched(g: Folder, w: Id, u: FolderPatch): Folder {
    if g.id == w then MergeFolder(g, u) else g
  }

  function LiftPatched(o: Option<Folder>, w: Id, u: FolderPatch): Option<Folder> {
    if o.Some? then Some(Patched(o.value, w, u)) else None
  }

  /** An update that keeps ids keeps every lookup: `find` returns the patched form of the same record. */
  lemma FindAfterUpdate(fs: seq<Folder>, w: Id, u: FolderPatch, x: Id)
    requires u.id.None?
    ensures Find(UpdateFolders(fs, w, u), x) == LiftPatched(Find(fs, x), w, u)
  {
    FindPatched(fs, UpdateFolders(fs, w, u), w, u, x);
  }

  /** A list holding the patched form of each record, with the same ids, answers every lookup with the patched record. */
  lemma {:induction false} FindPatched(fs: seq<Folder>, gs: seq<Folder>, w: Id, u: FolderPatch, x: Id)
    requires |gs| == |fs|
    requires forall i | 0 <= i < |fs| :: gs[i] == Patched(fs[i], w, u) && gs[i].id == fs[i].id
    ensures Find(gs, x) == LiftPatched(Find(fs, x), w, u)
    decreases |fs|
  {
    if |fs| > 0 && fs[0].id != x {
      assert gs[0].id != x;
      FindPatched(fs[1..], gs[1..], w, u, x);
    }
  }

  /** A folder whose parent link the update leaves alone walks on to the patched form of the same folder. */
  lemma NextAfterUpdate(fs: seq<Folder>, w: Id, u: FolderPatch, h: Folder)
    requires u.id.None? && (h.id != w || u.parentId.None?)
    ensures Next(UpdateFolders(fs, w, u), Patched(h, w, u)) == LiftPatched(Next(fs, h), w, u)
  {
    if !IsTop(h) {
      FindAfterUpdate(fs, w, u, h.parentId.value);
    }
  }

  /** A walk that stops without passing `w` stops the same way after `w` is updated. */
  lemma {:induction false} SettlesAvoidingUpdate(fs: seq<Folder>, w: Id, u: FolderPatch, h: Folder, n: nat)
    requires u.id.None?
    requires Settles(fs, h, n) && !Reaches(fs, h, w, n)
    ensures Settles(UpdateFolders(fs, w, u), h, n)
    decreases n
  {
    var gs := UpdateFolders(fs, w, u);
    NextAfterUpdate(fs, w, u, h);
    assert Patched(h, w, u) == h;
    if Next(fs, h).Some? {
      var p := Next(fs, h).value;
      assert Patched(p, w, u) == p;
      SettlesAvoidingUpdate(fs, w, u, p, n - 1);
    }
  }

  /** After a safe reparenting every folder that used to settle still does. */
  lemma {:induction false} ReparentResolves(fs: seq<Folder>, w: Id, u: FolderPatch, g: Folder, n: nat)
    requires Acyclic(fs) && u.id.None? && SafeParentPatch(fs, w, u)
    requires Settles(fs, g, n)
    ensures Resolves(UpdateFolders(fs, w, u), Patched(g, w, u))
    decreases n
  {
    var gs := UpdateFolders(fs, w, u);
    var pg := Patched(g, w, u);
    if g.id == w && u.parentId.Some? {
      var np := u.parentId.value;
      assert pg.parentId == np;
      if IsTop(pg) {
        assert Settles(gs, pg, 0);
      } else {
        var e := np.value;
        FindAfterUpdate(fs, w, u, e);
        if Find(fs, e).None? {
          assert Settles(gs, pg, 0);
        } else {
          var ge := Find(fs, e).value;
          assert !Reaches(fs, ge, w, |fs|);
          assert Patched(ge, w, u) == ge;
          assert Next(gs, pg) == Some(ge);
          AcyclicSettlesWithinSize(fs, ge);
          SettlesAvoidingUpdate(fs, w, u, ge, |fs|);
          assert Settles(gs, pg, |fs| + 1);
        }
      }
    } else {
      NextAfterUpdate(fs, w, u, g);
      if Next(fs, g).None? {
        assert Settles(gs, pg, 0);
      } else {
        var p := Next(fs, g).value;
        ReparentResolves(fs, w, u, p, n - 1);
        var k: nat :| Settles(gs, Patched(p, w, u), k);
        assert Settles(gs, pg, k + 1);
      }
    }
  }

  /** Reparenting a folder outside its own subtree keeps the store free of cycles. */
  lemma ReparentKeepsAcyclic(fs: seq<Folder>, w: Id, u: FolderPatch)
    requires Acyclic(fs) && u.id.None? && SafeParentPatch(fs, w, u)
    ensures Acyclic(UpdateFolders(fs, w, u))
  {
    var gs := UpdateFolders(fs, w, u);
    forall i | 0 <= i < |gs|
      ensures Resolves(gs, gs[i])
    {
      assert Resolves(fs, fs[i]);
      var n: nat :| Settles(fs, fs[i], n);
      ReparentResolves(fs, w, u, fs[i], n);
      assert gs[i] == Patched(fs[i], w, u);
    }
  }

  /**
   * With the corrected list, saving the dialog with "All Bookmarks" or any
   * offered folder as parent keeps the store free of cycles.
   */
  lemma SafeParentsKeepAcyclic(fs: seq<Folder>, edited: Folder, form: FolderDialog.Form)
    requires Acyclic(fs)
    requires form.parentId == ROOT || exists g | g in SafeParents(fs, Some(edited)) :: g.id == form.parentId
    requires FolderDialog.Save(form).Some?
    ensures Acyclic(UpdateFolders(fs, edited.id, FolderDialog.AsPatch(FolderDialog.Save(form).value)))
  {
    var u := FolderDialog.AsPatch(FolderDialog.Save(form).value);
    if form.parentId != ROOT {
      var g :| g in SafeParents(fs, Some(edited)) && g.id == form.parentId;
      assert g in multiset(SafeParents(fs, Some(edited)));
      assert u.parentId == Some(Some(form.parentId));
    }
    ReparentKeepsAcyclic(fs, edited.id, u);
  }

  /** Folders for the examples: a top-level folder W, its child D and its grandchild E. */
  function Nested(): seq<Folder> {
    [ Folder(ROOT, ROOT_NAME, None, None, 0),
      Folder("W", "Work", None, None, 0),
      Folder("D", "Dev", Some("W"), None, 0),
      Folder("E", "Tools", Some("D"), None, 0) ]
  }

  /** Folders "All Bookmarks", W, D and E in that order, with E under D and D under W: lookups and the two links below W. */
  lemma ChainLinks(gs: seq<Folder>)
    requires |gs| == 4 && gs[0].id == ROOT && gs[1].id == "W" && gs[2].id == "D" && gs[3].id == "E"
    requires gs[2].parentId == Some("W") && gs[3].parentId == Some("D")
    ensures Find(gs, "W") == Some(gs[1]) && Find(gs, "D") == Some(gs[2]) && Find(gs, "E") == Some(gs[3])
    ensures Next(gs, gs[2]) == Some(gs[1]) && Next(gs, gs[3]) == Some(gs[2])
  {
    assert ROOT != "W" && ROOT != "D" && ROOT != "E" && "W" != "D" && "W" != "E" && "D" != "E";
    FindAt(gs, "W", 1);
    FindAt(gs, "D", 2);
    FindAt(gs, "E", 3);
  }

  /** E lies two levels below W. */
  lemma GrandchildDescends()
    ensures DescendsFrom(Nested(), "E", "W", |Nested()|)
  {
    var fs := Nested();
    ChainLinks(fs);
    assert Reaches(fs, fs[2], "W", 1);
    assert Reaches(fs, fs[3], "W", 2);
    assert Reaches(fs, fs[3], "W", |fs|);
  }

  /** The as-written list offers the grandchild E as a parent for W; the corrected list does not. */
  lemma GrandchildOffered()
    ensures Nested()[3] in FolderDialog.AvailableParents(Nested(), Some(Nested()[1]))
    ensures Nested()[3] !in SafeParents(Nested(), Some(Nested()[1]))
  {
    var fs := Nested();
    assert fs[3] in fs;
    FolderDialog.AvailableParentsExcludeOneLevel(fs, fs[1], fs[3]);
    GrandchildDescends();
    var r := SafeParents(fs, Some(fs[1]));
    assert multiset(r)[fs[3]] == 0;
  }

  /** The example store has no cycle. */
  lemma NestedAcyclic()
    ensures Acyclic(Nested())
  {
    ChainAcyclic(Nested());
  }

  /** Two top-level folders and a chain of two below the second: no cycle. */
  lemma ChainAcyclic(gs: seq<Folder>)
    requires |gs| == 4 && gs[0].id == ROOT && gs[1].id == "W" && gs[2].id == "D" && gs[3].id == "E"
    requires gs[0].parentId.None? && gs[1].parentId.None?
    requires gs[2].parentId == Some("W") && gs[3].parentId == Some("D")
    ensures Acyclic(gs)
  {
    ChainLinks(gs);
    assert Settles(gs, gs[0], 0) && Settles(gs, gs[1], 0);
    assert Settles(gs, gs[2], 1);
    assert Settles(gs, gs[3], 2);
  }

  /** Opening W for editing and picking E gives a form the dialog accepts. */
  lemma GrandchildFormSaves()
    ensures FolderDialog.Save(FolderDialog.OpenForm(Some(Nested()[1]), None).(parentId := "E")).Some?
  {
    var form := FolderDialog.OpenForm(Some(Nested()[1]), None).(parentId := "E");
    assert form.name == "Work";
    assert !Text.IsSpace(form.name[0]);
  }

  /** Any update that hangs W under its grandchild E closes the loop W -> E -> D -> W. */
  lemma ReparentUnderGrandchildLoops(u: FolderPatch, n: nat)
    requires u.id.None? && u.parentId == Some(Some("E"))
    ensures var gs := UpdateFolders(Nested(), "W", u);
            !Acyclic(gs) && FolderPath(gs, gs[1], n).None?
  {
    var fs := Nested();
    var gs := UpdateFolders(fs, "W", u);
    var w := gs[1];
    assert w.id == "W" && w.parentId == Some("E");
    assert gs[2] == fs[2] && gs[3] == fs[3];
    assert gs[0] == fs[0];
    ThreeCycle(gs);
    CycleNeverSettles(gs, w, 3, n);
    if Acyclic(gs) {
      assert Resolves(gs, gs[1]);
      var m: nat :| Settles(gs, w, m);
      CycleNeverSettles(gs, w, 3, m);
    }
  }

  /** Folders W, D and E at positions 1 to 3, each the parent of the next, with E the parent of W: a walk of three steps from W returns to W. */
  lemma ThreeCycle(gs: seq<Folder>)
    requires |gs| == 4 && gs[0].id == ROOT
    requires gs[1].id == "W" && gs[1].parentId == Some("E")
    requires gs[2].id == "D" && gs[2].parentId == Some("W")
    requires gs[3].id == "E" && gs[3].parentId == Some("D")
    ensures Walk(gs, gs[1], 3) == Some(gs[1])
  {
    ChainLinks(gs);
    assert Next(gs, gs[1]) == Some(gs[3]);
  }

  /**
   * Taking the dialog's offer: saving W with E as its parent leaves a store
   * with a cycle, in which W's path never resolves.
   */
  lemma GrandchildChoiceLoops(form: FolderDialog.Form, n: nat)
    requires form.parentId == "E" && FolderDialog.Save(form).Some?
    ensures var gs := UpdateFolders(Nested(), "W", FolderDialog.AsPatch(FolderDialog.Save(form).value));
            !Acyclic(gs) && FolderPath(gs, gs[1], n).None?
  {
    var u := FolderDialog.AsPatch(FolderDialog.Save(form).value);
    assert u.id.None? && u.parentId == Some(Some("E"));
    ReparentUnderGrandchildLoops(u, n);
  }

  /** Points the folders whose parent is `from` at `to`; nothing else changes. */
  function AdoptChildren(fs: seq<Folder>, from: Id, to: Id): (r: seq<Folder>)
    ensures |r| == |fs|
    ensures forall i | 0 <= i < |fs| :: r[i].id == fs[i].id
    ensures forall i | 0 <= i < |fs| && fs[i].parentId != Some(from) :: r[i] == fs[i]
    ensures forall i | 0 <= i < |fs| && fs[i].parentId == Some(from) :: r[i] == fs[i].(parentId := Some(to))
  {
    seq(|fs|, i requires 0 <= i < |fs| =>
          if fs[i].parentId == Some(from) then fs[i].(parentId := Some(to)) else fs[i])
  }

  /** The corrected `deleteFolder`: bookmarks and subfolders both move up to the deleted folder's parent. */
  function DeleteFolderCascade(s: Store, id: Id): (r: Store)
    ensures r.bookmarks == DeleteFolder(s, id).bookmarks
    ensures forall i | 0 <= i < |r.folders| :: r.folders[i].id != id
    ensures forall f :: f in r.folders <==> f in AdoptChildren(s.folders, id, ReparentTarget(s.folders, id)) && f.id != id
  {
    var t := ReparentTarget(s.folders, id);
    Store(Refile(s.bookmarks, id, t), Filter(AdoptChildren(s.folders, id, t), (f: Folder) => f.id != id))
  }

  /** Every folder other than the deleted one is still there after the corrected delete. */
  lemma CascadeKeepsOthers(s: Store, id: Id, x: Id)
    requires x != id && FolderExists(s.folders, x)
    ensures FolderExists(DeleteFolderCascade(s, id).folders, x)
  {
    var adopted := AdoptChildren(s.folders, id, ReparentTarget(s.folders, id));
    var k :| 0 <= k < |s.folders| && s.folders[k].id == x;
    KeptById(adopted, DeleteFolderCascade(s, id).folders, id, k);
  }

  /**
   * The page's delete handler over the corrected delete: the same bookmarks and
   * the same selection as the handler as written; only the subfolders differ.
   */
  function HandleDeleteFolderCascade(p: Manager.Page, folderId: Id): (r: Manager.Page)
    ensures r.store.bookmarks == Manager.HandleDeleteFolder(p, folderId).store.bookmarks
    ensures r.current == Manager.HandleDeleteFolder(p, folderId).current
    ensures forall i | 0 <= i < |r.store.folders| :: r.store.folders[i].id != folderId
  {
    Manager.Page(DeleteFolderCascade(p.store, folderId), if p.current == folderId then ROOT else p.current)
  }

  /** With the corrected delete the selection still names a folder that exists, or "All Bookmarks". */
  lemma CascadeHandlerKeepsSelection(p: Manager.Page, folderId: Id)
    requires p.current == ROOT || FolderExists(p.store.folders, p.current)
    ensures var r := HandleDeleteFolderCascade(p, folderId);
            r.current == ROOT || FolderExists(r.store.folders, r.current)
  {
    if p.current != ROOT && p.current != folderId {
      CascadeKeepsOthers(p.store, folderId, p.current);
    }
  }

  /** A list that keeps exactly the records without the id still holds every other record's id. */
  lemma KeptById(all: seq<Folder>, kept: seq<Folder>, id: Id, k: nat)
    requires forall f :: f in kept <==> f in all && f.id != id
    requires k < |all| && all[k].id != id
    ensures FolderExists(kept, all[k].id)
  {
    assert all[k] in kept;
    var j :| 0 <= j < |kept| && kept[j] == all[k];
  }

  /** One surviving folder after the corrected delete: its parent is not the deleted folder, and it exists. */
  lemma CascadeParentOf(s: Store, id: Id, f: Folder)
    requires ParentsResolve(s) && RootPresent(s) && ReparentTarget(s.folders, id) != id
    requires f in DeleteFolderCascade(s, id).folders
    ensures f.parentId != Some(id)
    ensures f.parentId.Some? ==> FolderExists(DeleteFolderCascade(s, id).folders, f.parentId.value)
  {
    var t := ReparentTarget(s.folders, id);
    var adopted := AdoptChildren(s.folders, id, t);
    assert f in adopted;
    var k :| 0 <= k < |adopted| && adopted[k] == f;
    if s.folders[k].parentId == Some(id) {
      TargetExists(s, id);
      CascadeKeepsOthers(s, id, t);
    } else if f.parentId.Some? {
      assert f == s.folders[k];
      CascadeKeepsOthers(s, id, f.parentId.value);
    }
  }

  lemma CascadeParentsResolve(s: Store, id: Id)
    requires ParentsResolve(s) && RootPresent(s) && ReparentTarget(s.folders, id) != id
    ensures ParentsResolve(DeleteFolderCascade(s, id))
    ensures forall i | 0 <= i < |DeleteFolderCascade(s, id).folders| ::
              DeleteFolderCascade(s, id).folders[i].parentId != Some(id)
  {
    var gs := DeleteFolderCascade(s, id).folders;
    forall i | 0 <= i < |gs|
      ensures gs[i].parentId != Some(id)
      ensures gs[i].parentId.None? || FolderExists(gs, gs[i].parentId.value)
    {
      assert gs[i] in gs;
      CascadeParentOf(s, id, gs[i]);
    }
  }

  lemma CascadeBookmarksResolve(s: Store, id: Id)
    requires BookmarksResolve(s) && ParentsResolve(s) && RootPresent(s)
    requires ReparentTarget(s.folders, id) != id
    ensures BookmarksResolve(DeleteFolderCascade(s, id))
  {
    var r := DeleteFolderCascade(s, id);
    var t := ReparentTarget(s.folders, id);
    TargetExists(s, id);
    forall i | 0 <= i < |r.bookmarks|
      ensures FolderExists(r.folders, r.bookmarks[i].folderId)
    {
      if s.bookmarks[i].folderId == id {
        CascadeKeepsOthers(s, id, t);
      } else {
        CascadeKeepsOthers(s, id, s.bookmarks[i].folderId);
      }
    }
  }

  /**
   * The corrected delete keeps every bookmark filed and every parent
   * resolving, and leaves nothing that names the deleted folder.
   */
  lemma CascadeKeepsIntegrity(s: Store, id: Id)
    requires BookmarksResolve(s) && ParentsResolve(s) && RootPresent(s)
    requires id != ROOT && ReparentTarget(s.folders, id) != id
    ensures var r := DeleteFolderCascade(s, id);
            BookmarksResolve(r) && ParentsResolve(r) && RootPresent(r) && !FolderExists(r.folders, id) &&
            (forall i | 0 <= i < |r.folders| :: r.folders[i].parentId != Some(id)) &&
            (forall i | 0 <= i < |r.bookmarks| :: r.bookmarks[i].folderId != id)
  {
    CascadeBookmarksResolve(s, id);
    CascadeParentsResolve(s, id);
    CascadeKeepsOthers(s, id, ROOT);
  }

  /** A store with W under "All Bookmarks" and D under W. */
  function TwoLevels(): Store {
    Store([], [ Folder(ROOT, ROOT_NAME, None, None, 0),
                Folder("W", "Work", Some(ROOT), None, 0),
                Folder("D", "Dev", Some("W"), None, 0) ])
  }

  /** A folder whose parent is neither top-level nor present is drawn nowhere in the sidebar. */
  lemma OrphanHidden(fs: seq<Folder>, d: Folder)
    requires !IsTop(d) && !FolderExists(fs, d.parentId.value)
    ensures d !in Sidebar.TopLevel(fs)
    ensures forall g | g in fs :: d !in Sidebar.Children(fs, g.id)
  {
    assert multiset(Sidebar.TopLevel(fs))[d] == 0;
    forall g | g in fs
      ensures d !in Sidebar.Children(fs, g.id)
    {
      var k :| 0 <= k < |fs| && fs[k] == g;
      assert multiset(Sidebar.Children(fs, g.id))[d] == 0;
    }
  }

  /**
   * Deleting a folder as written leaves each of its subfolders naming the
   * deleted id: parents stop resolving and the subfolder is shown neither at
   * the top level nor under any folder.
   */
  lemma DeleteOrphansSubfolder(s: Store, id: Id, d: Folder)
    requires d in s.folders && d.id != id && d.parentId == Some(id) && id != "" && id != ROOT
    ensures var r := DeleteFolder(s, id);
            !ParentsResolve(r) && d in r.folders &&
            d !in Sidebar.TopLevel(r.folders) &&
            forall g | g in r.folders :: d !in Sidebar.Children(r.folders, g.id)
  {
    var r := DeleteFolder(s, id);
    assert d in multiset(s.folders);
    assert d in multiset(r.folders);
    var k :| 0 <= k < |s.folders| && s.folders[k] == d;
    DeleteFolderOrphans(s, id);
    OrphanHidden(r.folders, d);
  }

  /** The example store satisfies the integrity rules and W has the subfolder D. */
  lemma TwoLevelsResolves()
    ensures ParentsResolve(TwoLevels()) && BookmarksResolve(TwoLevels()) && RootPresent(TwoLevels())
    ensures TwoLevels().folders[2] in TwoLevels().folders && TwoLevels().folders[2].parentId == Some("W")
  {
    var s := TwoLevels();
    assert s.folders[0].id == ROOT && s.folders[1].id == "W";
  }

  /** The corrected delete moves D up to "All Bookmarks", where the sidebar shows it again. */
  lemma CascadeShowsSubfolder()
    ensures TwoLevels().folders[2].(parentId := Some(ROOT)) in
              Sidebar.TopLevel(DeleteFolderCascade(TwoLevels(), "W").folders)
    ensures TwoLevels().folders[2].(parentId := Some(ROOT)) in
              Sidebar.Children(DeleteFolderCascade(TwoLevels(), "W").folders, ROOT)
  {
    var s := TwoLevels();
    var d := s.folders[2].(parentId := Some(ROOT));
    assert Find(s.folders, "W") == Some(s.folders[1]);
    var t := ReparentTarget(s.folders, "W");
    assert t == ROOT;
    var adopted := AdoptChildren(s.folders, "W", t);
    assert adopted[2] == d;
    assert d in adopted;
    var c := DeleteFolderCascade(s, "W");
    assert d in c.folders;
    assert d in multiset(c.folders);
    assert d in multiset(Sidebar.TopLevel(c.folders));
    assert d in multiset(Sidebar.Children(c.folders, ROOT));
  }

  /**
   * The evidently intended top level: folders without a parent, and folders
   * under "" or "root" only while no stored folder has that id to draw them
   * under.
   */
  predicate ShownAtTop(fs: seq<Folder>, f: Folder) {
    f.parentId.None? || (IsTop(f) && !FolderExists(fs, f.parentId.value))
  }

  /** The corrected top-level rows, in store order. */
  function SidebarTopLevel(fs: seq<Folder>): (r: seq<Folder>)
    ensures IsSubseq(r, fs)
    ensures forall f :: multiset(r)[f] == if ShownAtTop(fs, f) then multiset(fs)[f] else 0
  {
    Filter(fs, (f: Folder) => ShownAtTop(fs, f))
  }

  /**
   * With the corrected top level a folder is drawn both there and under an
   * id's row only when no stored folder has that id, that is, when no such
   * row is ever drawn.
   */
  lemma SidebarTopLevelDisjoint(fs: seq<Folder>, f: Folder, id: Id)
    ensures f in SidebarTopLevel(fs) && f in Sidebar.Children(fs, id) <==>
              f in fs && f.parentId == Some(id) && IsTop(f) && !FolderExists(fs, id)
  {
    if f in fs && f.parentId == Some(id) && IsTop(f) && !FolderExists(fs, id) {
      assert f in multiset(fs);
      assert f in multiset(SidebarTopLevel(fs)) && f in multiset(Sidebar.Children(fs, id));
    }
  }

  /** Nothing the top level as written draws is lost: it is a corrected top-level row or a child row of its parent. */
  lemma SidebarTopLevelKeepsRows(fs: seq<Folder>, f: Folder)
    requires f in Sidebar.TopLevel(fs)
    ensures f in SidebarTopLevel(fs) ||
            (FolderExists(fs, f.parentId.value) && f in Sidebar.Children(fs, f.parentId.value))
  {
    assert f in multiset(Sidebar.TopLevel(fs));
    assert f in multiset(fs);
    if ShownAtTop(fs, f) {
      assert f in multiset(SidebarTopLevel(fs));
    } else {
      assert f in multiset(Sidebar.Children(fs, f.parentId.value));
    }
  }

  /** While "All Bookmarks" is stored, the folders under it are drawn under its row and not at the top level. */
  lemma RootChildrenDrawnOnce(fs: seq<Folder>, w: Folder)
    requires FolderExists(fs, ROOT) && w in fs && w.parentId == Some(ROOT)
    ensures w !in SidebarTopLevel(fs) && w in Sidebar.Children(fs, ROOT)
  {
    assert multiset(SidebarTopLevel(fs))[w] == 0;
    assert w in multiset(fs);
    assert w in multiset(Sidebar.Children(fs, ROOT));
  }

  /** On the starting folders the corrected sidebar draws "Work" once, under "All Bookmarks". */
  lemma InitialWorkDrawnOnce(now: Millis)
    ensures var fs := InitialFolders(now);
            fs[0] in SidebarTopLevel(fs) && fs[1] !in SidebarTopLevel(fs) && fs[1] in Sidebar.Children(fs, ROOT)
  {
    var fs := InitialFolders(now);
    assert fs[0].parentId.None? && fs[0] in multiset(fs);
    assert fs[0] in multiset(SidebarTopLevel(fs));
    assert fs[0].id == ROOT;
    RootChildrenDrawnOnce(fs, fs[1]);
  }
}
