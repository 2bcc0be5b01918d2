/**
 * The add/edit bookmark dialog (src/components/AddBookmarkDialog.tsx): the
 * form it opens with, the object it hands to `onSave`, and the folder list it
 * offers. Metadata fetching is not part of this model.
 */
module BookmarkDialog {
  import opened Wrappers
  import opened Model
  import opened Hierarchy

  /** The text fields of the form; every one is a plain string, "" when empty. */
  datatype Form = Form(url: string, title: string, description: string, notes: string, folderId: Id, thumbnail: string)

  /** The folder a new bookmark goes to when the caller names none. */
  const DEFAULT_FOLDER: Id := ROOT

  /**
   * The form after opening: the edited bookmark's fields, with absent or empty
   * optional ones as ""; for a new bookmark, empty fields and `initialFolderId`
   * (or "root" when that is not given).
   */
  function OpenForm(editBookmark: Option<Bookmark>, initialFolderId: Option<Id>): (r: Form)
    ensures editBookmark.Some? ==>
              var b := editBookmark.value;
              r.url == b.url && r.title == b.title && r.folderId == b.folderId &&
              (r.description == "" <==> b.description.None? || b.description == Some("")) &&
              (r.description != "" ==> Some(r.description) == b.description) &&
              (r.notes == "" <==> b.notes.None? || b.notes == Some("")) &&
              (r.notes != "" ==> Some(r.notes) == b.notes) &&
              (r.thumbnail == "" <==> b.thumbnail.None? || b.thumbnail == Some("")) &&
              (r.thumbnail != "" ==> Some(r.thumbnail) == b.thumbnail)
    ensures editBookmark.None? ==>
              r.url == "" && r.title == "" && r.description == "" && r.notes == "" && r.thumbnail == ""
    ensures editBookmark.None? && initialFolderId.None? ==> r.folderId == DEFAULT_FOLDER
    ensures editBookmark.None? && initialFolderId.Some? ==> r.folderId == initialFolderId.value
  {
    match editBookmark
    case Some(b) =>
      Form(b.url, b.title, OrElse(b.description, ""), OrElse(b.notes, ""), b.folderId, OrElse(b.thumbnail, ""))
    case None => Form("", "", "", "", initialFolderId.GetOr(DEFAULT_FOLDER), "")
  }

  /** `x || undefined` on a form field: the empty string becomes absent. */
  function Absent(x: string): (r: Option<string>)
    ensures r.None? <==> x == ""
    ensures r.Some? ==> r.value == x
  {
    if x == "" then None else Some(x)
  }

  /**
   * The object passed to `onSave`. It has no `favicon` key at all, while
   * `description`, `notes`, `thumbnail` and `lastVisited` are always present,
   * possibly as `undefined`.
   */
  datatype Saved = Saved(
    url: string,
    title: string,
    description: Option<string>,
    notes: Option<string>,
    folderId: Id,
    thumbnail: Option<string>,
    lastVisited: Option<Millis>)

  /**
   * `handleSave`: refused while the url or the title is empty (no trimming);
   * otherwise empty optional fields become absent and an edit carries the
   * bookmark's `lastVisited` along.
   */
  function Save(form: Form, editBookmark: Option<Bookmark>): (r: Option<Saved>)
    ensures r.None? <==> form.url == "" || form.title == ""
    ensures r.Some? ==> r.value.url == form.url && r.value.title == form.title && r.value.folderId == form.folderId
    ensures r.Some? ==> (r.value.description.None? <==> form.description == "")
    ensures r.Some? && form.description != "" ==> r.value.description == Some(form.description)
    ensures r.Some? ==> (r.value.notes.None? <==> form.notes == "")
    ensures r.Some? && form.notes != "" ==> r.value.notes == Some(form.notes)
    ensures r.Some? ==> (r.value.thumbnail.None? <==> form.thumbnail == "")
    ensures r.Some? && form.thumbnail != "" ==> r.value.thumbnail == Some(form.thumbnail)
    ensures r.Some? && editBookmark.None? ==> r.value.lastVisited.None?
    ensures r.Some? && editBookmark.Some? ==> r.value.lastVisited == editBookmark.value.lastVisited
  {
    if form.url == "" || form.title == "" then None
    else
      Some(Saved(form.url, form.title, Absent(form.description), Absent(form.notes), form.folderId,
                 Absent(form.thumbnail), if editBookmark.Some? then editBookmark.value.lastVisited else None))
  }

  /** The saved object read as a new bookmark's fields: no favicon. */
  function AsDraft(v: Saved): BookmarkDraft {
    BookmarkDraft(v.title, v.url, v.description, v.thumbnail, None, v.folderId, v.lastVisited, v.notes)
  }

  /** The saved object read as an update: every key but `favicon` is present. */
  function AsPatch(v: Saved): BookmarkPatch {
    BookmarkPatch(None, Some(v.title), Some(v.url), Some(v.description), Some(v.thumbnail), None,
                  Some(v.folderId), None, Some(v.lastVisited), Some(v.notes))
  }

  /** Optional text fields that are either absent or non-empty, so that `x || ''` and back lose nothing. */
  predicate NoEmptyText(b: Bookmark) {
    b.description != Some("") && b.notes != Some("") && b.thumbnail != Some("")
  }

  /**
   * Opening a bookmark for editing and saving it untouched gives it back as it
   * was, provided its url and title are non-empty and no optional text field
   * holds the empty string (one that does comes back absent).
   */
  lemma EditSaveRoundTrip(b: Bookmark, initialFolderId: Option<Id>)
    requires b.url != "" && b.title != ""
    ensures Save(OpenForm(Some(b), initialFolderId), Some(b)).Some?
    ensures MergeBookmark(b, AsPatch(Save(OpenForm(Some(b), initialFolderId), Some(b)).value)) ==
              b.(description := Absent(OrElse(b.description, "")),
                 notes := Absent(OrElse(b.notes, "")),
                 thumbnail := Absent(OrElse(b.thumbnail, "")))
    ensures NoEmptyText(b) ==>
              MergeBookmark(b, AsPatch(Save(OpenForm(Some(b), initialFolderId), Some(b)).value)) == b
  {
  }

  /** A new bookmark lands in the folder the dialog was opened for, or in "All Bookmarks" when none was given. */
  lemma NewBookmarkFolder(form: Form, initialFolderId: Option<Id>)
    requires form.folderId == OpenForm(None, initialFolderId).folderId
    requires form.url != "" && form.title != ""
    ensures Save(form, None).Some?
    ensures AsDraft(Save(form, None).value).folderId == initialFolderId.GetOr(ROOT)
    ensures AsDraft(Save(form, None).value).lastVisited.None? && AsDraft(Save(form, None).value).favicon.None?
  {
  }

  /**
   * The labels of the folder select, one per folder in store order. The code
   * recurses without bound; here each label gets as many lookups as there are
   * folders, and `None` stands for a walk that does not stop within that.
   */
  function FolderLabels(fs: seq<Folder>): (r: seq<Option<string>>)
    ensures |r| == |fs|
    ensures forall i | 0 <= i < |fs| :: r[i].Some? ==> EndsWith(r[i].value, fs[i].name)
    ensures forall i | 0 <= i < |fs| && IsTop(fs[i]) :: r[i] == Some(fs[i].name)
    ensures Acyclic(fs) ==> forall i | 0 <= i < |fs| :: r[i].Some?
  {
    var r := seq(|fs|, i requires 0 <= i < |fs| => FolderPath(fs, fs[i], |fs|));
    assert Acyclic(fs) ==> forall i | 0 <= i < |fs| :: r[i].Some? by {
      if Acyclic(fs) {
        forall i | 0 <= i < |fs|
          ensures r[i].Some?
        {
          AcyclicSettlesWithinSize(fs, fs[i]);
        }
      }
    }
    r
  }

  /** A label under a found parent is the parent's label, " / ", and the folder's name. */
  lemma LabelThroughParent(fs: seq<Folder>, i: nat, j: nat)
    requires Acyclic(fs) && i < |fs| && j < |fs| && Next(fs, fs[i]) == Some(fs[j])
    ensures FolderLabels(fs)[i] == Some(FolderLabels(fs)[j].value + " / " + fs[i].name)
  {
    var n := |fs|;
    AcyclicSettlesWithinSize(fs, fs[i]);
    assert Settles(fs, fs[j], n - 1);
    FolderPathFuel(fs, fs[j], n - 1, n);
    assert FolderPath(fs, fs[j], n - 1).Some?;
    FolderPathThroughParent(fs, fs[i], n - 1);
    LabelIsPath(fs, i);
    LabelIsPath(fs, j);
  }

  /** Each label is the folder's path with the fuel the select gives it. */
  lemma LabelIsPath(fs: seq<Folder>, i: nat)
    requires i < |fs|
    ensures FolderLabels(fs)[i] == FolderPath(fs, fs[i], |fs|)
  {
  }
}
