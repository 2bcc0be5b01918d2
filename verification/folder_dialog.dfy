/**
 * The folder dialog: what its form starts from, what saving hands to the
 * store, which folders it offers as parents, and how it labels them.
 */
module FolderDialog {
  import opened Wrappers
  import opened Seqs
  import opened Text
  import opened Model

  const DEFAULT_COLOR: string := "blue"

  /** The palette the dialog offers. */
  const FOLDER_COLORS: seq<string> := ["blue", "green", "purple", "pink", "orange", "red", "gray"]

  /** The form state: the name as typed, the chosen parent (`'root'` for none), the colour. */
  datatype Form = Form(name: string, parentId: Id, color: string)

  /**
   * The state the dialog opens with. Editing shows the folder's own values, with
   * a missing parent shown as "All Bookmarks" and a missing colour as blue;
   * creating starts blank under `parentFolderId`, which defaults to `'root'`.
   */
  function OpenForm(editFolder: Option<Folder>, parentFolderId: Option<Id>): (r: Form)
    ensures editFolder.Some? ==> r.name == editFolder.value.name
    ensures editFolder.Some? && IsTop(editFolder.value) ==> r.parentId == ROOT
    ensures editFolder.Some? && !IsTop(editFolder.value) ==> Some(r.parentId) == editFolder.value.parentId
    ensures editFolder.Some? && (editFolder.value.color.None? || editFolder.value.color == Some("")) ==>
              r.color == DEFAULT_COLOR
    ensures editFolder.Some? && editFolder.value.color.Some? && editFolder.value.color != Some("") ==>
              Some(r.color) == editFolder.value.color
    ensures editFolder.None? ==> r.name == "" && r.color == DEFAULT_COLOR
    ensures editFolder.None? && parentFolderId.None? ==> r.parentId == ROOT
    ensures editFolder.None? && parentFolderId.Some? ==> r.parentId == parentFolderId.value
  {
    match editFolder
    case Some(f) => Form(f.name, OrElse(f.parentId, ROOT), OrElse(f.color, DEFAULT_COLOR))
    case None => Form("", parentFolderId.GetOr(ROOT), DEFAULT_COLOR)
  }

  /** The dialog opens on a palette colour unless the edited folder already carries one from outside it. */
  lemma OpenFormColorInPalette(editFolder: Option<Folder>, parentFolderId: Option<Id>)
    ensures OpenForm(editFolder, parentFolderId).color in FOLDER_COLORS <==>
              editFolder.None? || editFolder.value.color.None? || editFolder.value.color == Some("") ||
              editFolder.value.color.value in FOLDER_COLORS
  {
    assert DEFAULT_COLOR == FOLDER_COLORS[0];
  }

  /**
   * `handleSave`: refused when the name is blank after trimming; otherwise the
   * trimmed name, no parent for "All Bookmarks", and the chosen colour.
   */
  function Save(form: Form): (r: Option<FolderDraft>)
    ensures r.None? <==> AllSpace(form.name)
    ensures r.Some? ==> r.value.name == Trim(form.name) && r.value.name != ""
    ensures r.Some? ==> (r.value.parentId.None? <==> form.parentId == ROOT)
    ensures r.Some? && form.parentId != ROOT ==> r.value.parentId == Some(form.parentId)
    ensures r.Some? ==> r.value.color == Some(form.color)
  {
    TrimEmptyIff(form.name);
    var name := Trim(form.name);
    if name == "" then None
    else Some(FolderDraft(name, if form.parentId == ROOT then None else Some(form.parentId), Some(form.color)))
  }

  /** The object `onSave` passes on, used as an update: all three keys are present. */
  function AsPatch(d: FolderDraft): FolderPatch {
    FolderPatch(None, Some(d.name), Some(d.parentId), Some(d.color), None)
  }

  /**
   * Opening a folder for editing and saving without touching the form gives
   * back its own fields, up to the normalisations: the name trimmed, a parent
   * of `'root'` or `""` dropped, a missing colour made blue.
   */
  lemma {:induction false} EditSaveRoundTrip(f: Folder, parentFolderId: Option<Id>)
    requires !AllSpace(f.name)
    ensures Save(OpenForm(Some(f), parentFolderId)) ==
              Some(FolderDraft(Trim(f.name),
                               if IsTop(f) then None else f.parentId,
                               Some(OrElse(f.color, DEFAULT_COLOR))))
  {
    var form := OpenForm(Some(f), parentFolderId);
    assert form.parentId == ROOT <==> IsTop(f);
  }

  /**
   * `availableParents`: while editing, every folder except the edited one and
   * its direct children; otherwise every folder.
   */
  function AvailableParents(fs: seq<Folder>, editFolder: Option<Folder>): (r: seq<Folder>)
    ensures editFolder.None? ==> r == fs
    ensures IsSubseq(r, fs)
    ensures editFolder.Some? ==>
              forall g :: multiset(r)[g] ==
                if g.id != editFolder.value.id && g.parentId != Some(editFolder.value.id) then multiset(fs)[g] else 0
  {
    match editFolder
    case None => SubseqRefl(fs); fs
    case Some(e) => Filter(fs, (g: Folder) => g.id != e.id && g.parentId != Some(e.id))
  }

  /** The edited folder and its children are never offered, while every other folder is. */
  lemma AvailableParentsExcludeOneLevel(fs: seq<Folder>, e: Folder, g: Folder)
    requires g in fs
    ensures g in AvailableParents(fs, Some(e)) <==> g.id != e.id && g.parentId != Some(e.id)
  {
    var r := AvailableParents(fs, Some(e));
    assert g in r <==> multiset(r)[g] > 0;
  }
}
