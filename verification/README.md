# Bookmark store — a Dafny model

A model of the bookmark manager's core: a store of bookmarks and folders kept
as two flat sequences, linked only by back-references (`folderId` on a
bookmark, `parentId` on a folder), with a distinguished folder `"root"` that
stands for "All Bookmarks". The model covers

- the client store hook: add, update and delete of both kinds, `deleteFolder`
  moving the folder's bookmarks up, `moveBookmark`, folder listing, subfolder
  listing and the case-insensitive search;
- the views the components derive from it: per-folder counts, the sorted list
  on the page, the folder and bookmark dialogs (form set-up, save-time
  validation and normalisation, folder paths, the parent list) and the
  sidebar (top level, children, expand/collapse, count badge);
- the in-memory servers: the Express routes (append with a server id and
  time, merge into the first match or 404, splice out the first match or 404)
  and the serverless handlers (GET, POST, 405).

Every operation is a pure function from the old state to the new one.
`Date.now().toString()` and `new Date()` are the parameters `freshId` and
`now` (milliseconds). `Partial<T>` is a record of `Option` fields; an optional
field has two levels, because a key present with the value `undefined`
overwrites when spread. JavaScript's `x || d` on an optional string treats
`""` as absent, and the model does the same wherever the code uses it.

The code enforces neither reference integrity nor the absence of cycles in
`parentId`. Both are stated as predicates (`Integrity`, `Hierarchy`), and
lemmas say which operations keep them and which break them.

Modules: `Wrappers` (Option), `Seqs` (filter, subsequence), `Text` (ASCII
lower-casing, substring, trim), `Model` (records, patches, `find`),
`BookmarkStore` (the hook), `Integrity`, `Hierarchy` (parent walks, folder
paths), `Ordering` (sort), `FolderDialog`, `BookmarkDialog`, `Sidebar`,
`Manager` (the page), `Corrections` (the three findings below), `Docs` (JSON
documents of the servers), `ExpressApi`, `ServerlessApi`.

## Model

| member | source | states |
|---|---|---|
| BookmarkStore.AddBookmark | src/hooks/useBookmarks.ts:57-64 | exactly one record is appended; it carries the draft's fields, the new id and the creation time; earlier records and the folders are unchanged |
| BookmarkStore.UpdateBookmark | src/hooks/useBookmarks.ts:66-70 | length kept; records with another id unchanged; matching records take the patch's keys and keep the rest; id and creation time survive unless the patch carries them |
| Model.MergeBookmarkIdempotent | src/hooks/useBookmarks.ts:68 | spreading the same patch twice equals spreading it once |
| BookmarkStore.UpdateBookmarkIdempotent | src/hooks/useBookmarks.ts:66-70 | applying the same update twice equals applying it once |
| Model.MergeBookmarkTwice | src/hooks/useBookmarks.ts:68 | two spreads in a row equal one spread of the combined patch |
| BookmarkStore.DeleteBookmark | src/hooks/useBookmarks.ts:72-74 | the result is an order-preserving subsequence holding every record with another id as often as before and none with the id |
| BookmarkStore.DeleteUnknownBookmark | src/hooks/useBookmarks.ts:72-74 | deleting an id that no bookmark carries leaves the store unchanged |
| BookmarkStore.AddFolder | src/hooks/useBookmarks.ts:76-83 | exactly one folder appended with the draft's fields, new id and time; all else unchanged |
| BookmarkStore.UpdateFolders | src/hooks/useBookmarks.ts:85-89 | length kept; other folders unchanged; matching folders merged with the patch; ids kept when the patch has none |
| BookmarkStore.ReparentTarget | src/hooks/useBookmarks.ts:93-94 | the destination is the deleted folder's parent, or "root" when the folder is not found or its parent is absent or empty |
| BookmarkStore.Refile | src/hooks/useBookmarks.ts:96-98 | bookmarks in the deleted folder get the destination as `folderId`; all others are untouched |
| BookmarkStore.DeleteFolder | src/hooks/useBookmarks.ts:91-101 | bookmarks refiled as above; the folder list keeps, in order, every folder with another id and none with the id, child folders included unchanged |
| BookmarkStore.MoveIsUpdate | src/hooks/useBookmarks.ts:103-105 | moving equals updating with the one-key patch `{ folderId: target }` |
| BookmarkStore.MoveBookmark | src/hooks/useBookmarks.ts:103-105 | only `folderId` changes, and only on records with the bookmark's id |
| BookmarkStore.BookmarksIn | src/hooks/useBookmarks.ts:107-112 | "root" gives all bookmarks; any other id gives, in store order, exactly the bookmarks filed under it |
| BookmarkStore.Subfolders | src/hooks/useBookmarks.ts:114-116 | exactly the folders whose `parentId` equals the id, in store order |
| BookmarkStore.TopLevelNotSubfolderOfRoot | src/hooks/useBookmarks.ts:114-116 | a top-level folder with no `parentId` is not among the subfolders of "root" |
| BookmarkStore.Search | src/hooks/useBookmarks.ts:118-132 | both results are order-preserving subsequences; a bookmark is kept iff the lower-cased query occurs in its lower-cased title, url or present description; a folder iff it occurs in its name |
| BookmarkStore.SearchEmptyQuery | src/hooks/useBookmarks.ts:118-132 | the empty query returns both lists whole |
| BookmarkStore.SearchIgnoresQueryCase | src/hooks/useBookmarks.ts:119 | a query and its lower-cased form find the same records |
| BookmarkStore.SearchFindsByTitlePrefix | src/hooks/useBookmarks.ts:122 | "rea" finds a bookmark titled "React Documentation" |
| BookmarkStore.SearchFindsFolderByName | src/hooks/useBookmarks.ts:128 | "dev" finds the folder "Development" |
| Text.Lower | src/hooks/useBookmarks.ts:119 | same length, no upper-case letter left, other characters kept, each capital mapped to its small letter |
| Text.ContainsIff | src/hooks/useBookmarks.ts:122-124 | `includes` holds iff the query occurs at some position |
| Model.Find | src/hooks/useBookmarks.ts:93 | `find` returns a record of the list carrying the id, and nothing iff no record has it |
| Model.FindFirst | src/hooks/useBookmarks.ts:93 | the record `find` returns is the first with the id: every earlier record has another id |
| Model.FindAt | src/hooks/useBookmarks.ts:93 | conversely, a record with the id that no earlier record shares is exactly what `find` returns |
| Text.LowerIdempotent | src/hooks/useBookmarks.ts:119 | lower-casing twice is lower-casing once |
| Integrity.InitialStoreWellFormed | src/hooks/useBookmarks.ts:5-50 | the development data has every bookmark filed, every parent resolving, "root" present and unique ids |
| Integrity.AddBookmarkResolves | src/hooks/useBookmarks.ts:57-64 | adding keeps every bookmark filed iff the draft's folder exists |
| Integrity.AddBookmarkUnique | src/hooks/useBookmarks.ts:60 | ids stay unique iff the clock-derived id is not already in use |
| Integrity.UpdateBookmarkResolves | src/hooks/useBookmarks.ts:66-70 | an update filing under an existing folder, or not refiling, keeps bookmarks filed |
| Integrity.UpdateBookmarkCanDangle | src/hooks/useBookmarks.ts:66-70 | refiling an existing bookmark under a missing folder breaks integrity |
| Integrity.MoveBookmarkResolves | src/hooks/useBookmarks.ts:103-105 | moving to an existing folder keeps integrity; moving an existing bookmark to a missing folder breaks it |
| Integrity.DeleteBookmarkKeepsWellFormed | src/hooks/useBookmarks.ts:72-74 | deleting a bookmark keeps all integrity predicates |
| Integrity.AddFolderResolves | src/hooks/useBookmarks.ts:76-83 | adding a folder keeps parents resolving iff its parent is absent, exists, or is the new folder's own id |
| Integrity.UpdateFolderResolves | src/hooks/useBookmarks.ts:85-89 | an id-preserving folder update whose parent is absent or exists keeps both kinds of reference resolving |
| Integrity.DeleteFolderKeepsBookmarksFiled | src/hooks/useBookmarks.ts:91-98 | when the deleted folder is not "root" and not its own parent, every bookmark stays filed |
| Integrity.DeleteFolderParentsIff | src/hooks/useBookmarks.ts:100 | after deleting a folder, parents resolve iff no other folder named it as parent |
| Integrity.DeleteFolderCanRemoveRoot | src/hooks/useBookmarks.ts:91-101 | deleting "root" leaves no "root" folder |
| Hierarchy.FolderPath | src/components/FolderDialog.tsx:77-83 | the path exists iff the parent walk stops within the fuel; it ends with the folder's name; a top-level folder or one with a missing parent gives the bare name |
| Hierarchy.FolderPathThroughParent | src/components/FolderDialog.tsx:81-82 | with a found parent the path is the parent's path, " / ", and the name |
| Hierarchy.FolderPathFuel | src/components/FolderDialog.tsx:77-83 | once the walk stops, more fuel gives the same path |
| Hierarchy.CycleNeverSettles | src/components/FolderDialog.tsx:77-83 | a folder the walk returns to is never resolved, whatever the fuel |
| Hierarchy.LongWalkRepeats | src/components/FolderDialog.tsx:77-83 | a parent walk with more steps than folder records visits some folder twice |
| Hierarchy.AcyclicSettlesWithinSize | src/components/FolderDialog.tsx:77-83 | without cycles every walk stops within as many lookups as there are folder records |
| Hierarchy.AcyclicPathsTerminate | src/components/FolderDialog.tsx:77-83 | without cycles every folder gets a path |
| Hierarchy.InitialStoreAcyclic | src/hooks/useBookmarks.ts:5-11 | the development folders have no cycle |
| Hierarchy.UpdateFolderSelfParent | src/hooks/useBookmarks.ts:85-89 | making a folder its own parent is accepted and creates a cycle |
| FolderDialog.OpenForm | src/components/FolderDialog.tsx:46-63 | editing starts from the folder's name, its parent or "root", its colour or "blue"; a new folder starts empty, blue, under the given parent or "root" |
| FolderDialog.OpenFormColorInPalette | src/components/FolderDialog.tsx:31-57 | the form opens on one of the seven palette colours iff it is a new folder, the folder has no colour, or its colour is in the palette |
| FolderDialog.Save | src/components/FolderDialog.tsx:65-75 | refused iff the name is all white space; the saved name is trimmed and non-empty; parent "root" becomes absent, any other is kept; the colour is kept |
| FolderDialog.EditSaveRoundTrip | src/components/FolderDialog.tsx:53-75 | saving an untouched edit form gives the trimmed name, the parent with "root" or "" dropped, and the colour or "blue" |
| Text.TrimEmptyIff | src/components/FolderDialog.tsx:66 | the trimmed name is empty iff the name is all white space |
| Text.Trim | src/components/FolderDialog.tsx:69 | the result occurs in the input with only white space before and after it, and does not itself start or end with white space |
| Text.TrimIdempotent | src/components/FolderDialog.tsx:69 | trimming a trimmed name changes nothing |
| FolderDialog.AvailableParents | src/components/FolderDialog.tsx:85-90 | with no edit the list is all folders; while editing it keeps, in order, each folder that is neither the edited one nor its direct child |
| FolderDialog.AvailableParentsExcludeOneLevel | src/components/FolderDialog.tsx:86-90 | a folder is offered iff it is not the edited folder and not its direct child |
| BookmarkDialog.OpenForm | src/components/AddBookmarkDialog.tsx:96-115 | editing copies url, title and folder and shows absent optional texts as ""; a new form is empty and uses `initialFolderId`, or "root" when none is given |
| BookmarkDialog.Save | src/components/AddBookmarkDialog.tsx:159-180 | refused iff url or title is empty; url, title and folder pass through; empty description, notes and thumbnail become absent; an edit keeps `lastVisited`, a new bookmark has none |
| BookmarkDialog.EditSaveRoundTrip | src/components/AddBookmarkDialog.tsx:96-177 | saving an untouched edit gives back the bookmark, except that optional texts holding "" come back absent |
| BookmarkDialog.NewBookmarkFolder | src/components/AddBookmarkDialog.tsx:105-177 | a new bookmark is filed under `initialFolderId`, or "root", without `lastVisited` or favicon |
| BookmarkDialog.FolderLabels | src/components/AddBookmarkDialog.tsx:182-188 | one label per folder, each ending with the folder's name, top-level folders by bare name, and all present when there is no cycle |
| BookmarkDialog.LabelThroughParent | src/components/AddBookmarkDialog.tsx:186-187 | a folder's label is its parent's label, " / ", and its name |
| Sidebar.Toggle | src/components/FolderSidebar.tsx:47-55 | exactly the toggled id changes membership |
| Sidebar.ToggleTwice | src/components/FolderSidebar.tsx:47-55 | toggling twice restores the expanded set |
| Sidebar.TopLevel | src/components/FolderSidebar.tsx:183-185 | in store order, exactly the folders whose parent is absent, empty or "root" |
| Sidebar.Children | src/components/FolderSidebar.tsx:143-145 | in store order, exactly the folders whose parent is the id |
| Sidebar.HasChildrenIff | src/components/FolderSidebar.tsx:63 | `hasChildren` holds iff the child list is non-empty |
| Sidebar.CountOf | src/components/FolderSidebar.tsx:66 | a missing entry counts 0; a present non-zero entry is the count |
| Sidebar.TopLevelAndChildrenOverlap | src/components/FolderSidebar.tsx:141-185 | a folder is listed both at the top level and among some id's children exactly when its parent is that id and the id is "" or "root" |
| Sidebar.InitialWorkDrawnTwice | src/components/FolderSidebar.tsx:44-185 | on the starting folders "Work" is a top-level row and also a child row of "All Bookmarks", which starts expanded, has children and offers no actions |
| Manager.Counts | src/components/BookmarkManager.tsx:56-68 | every folder id has an entry and only folder ids do; "root" counts all bookmarks |
| Manager.CountsOver | src/components/BookmarkManager.tsx:59-65 | the keys are the folder ids; a non-root entry is the number of bookmarks filed directly in it |
| Manager.BadgeIffFiled | src/components/FolderSidebar.tsx:66-109 | a row shows a count badge iff the folder is stored and holds a bookmark of its own ("All Bookmarks": any bookmark at all) |
| Manager.CountIsListingLength | src/components/BookmarkManager.tsx:56-68 | each badge equals the length of the list shown when that folder is selected |
| Manager.AddBookmarkCounts | src/components/BookmarkManager.tsx:56-68 | adding a bookmark raises the counts of "root" and of its folder by one and no other |
| Manager.CurrentBookmarks | src/components/BookmarkManager.tsx:71-93 | the list is ordered by the sort mode and is a permutation of the search results (non-empty query) or of the folder listing (empty query) |
| Ordering.Sort | src/components/BookmarkManager.tsx:82-92 | the result is ordered and a permutation of the input |
| Ordering.InsertStable | src/components/BookmarkManager.tsx:82-92 | inserting a record among records of one shared key puts it in front of them and reorders none of them |
| Ordering.SortStable | src/components/BookmarkManager.tsx:82-92 | records that all share one key leave the sort in the order they entered it |
| Ordering.SortKeepsTies | src/components/BookmarkManager.tsx:82-92 | for any record, the records with its key come out in input order, as the stable `Array.prototype.sort` keeps them |
| Manager.DefaultOrderNewestFirst | src/components/BookmarkManager.tsx:41-93 | with the initial sort mode ("date") the shown list runs from newest to oldest |
| Ordering.SortIdempotent | src/components/BookmarkManager.tsx:82-92 | sorting an already sorted list by the same mode changes nothing |
| Ordering.InsertSorted | src/components/BookmarkManager.tsx:82-92 | inserting into an ordered list keeps it ordered |
| Ordering.SortSorted | src/components/BookmarkManager.tsx:82-92 | an ordered list is left as it is |
| Ordering.StrLeqTotal | src/components/BookmarkManager.tsx:85-87 | any two strings are comparable |
| Ordering.StrLeqTransitive | src/components/BookmarkManager.tsx:85-87 | the string order is transitive |
| Ordering.BeforeTransitive | src/components/BookmarkManager.tsx:82-91 | each sort mode is transitive: newest first by date, or by title or url |
| Manager.HandleDeleteFolder | src/components/BookmarkManager.tsx:166-170 | the store is exactly the store's delete: bookmarks move as it moves them, every other folder survives in order, the deleted folder is gone; selecting it falls back to "root", any other selection stays |
| Manager.DeleteKeepsSelection | src/components/BookmarkManager.tsx:166-170 | a selection that named an existing folder or "root" still does after the delete |
| Manager.NewFolderParent | src/components/BookmarkManager.tsx:139-143 | no parent or "" opens the dialog under "root"; otherwise under the given folder |
| Manager.NewFolderLandsUnderParent | src/components/BookmarkManager.tsx:139-164 | the created folder gets the fresh id and has no parent iff none, "" or "root" was given, else the given parent |
| Manager.HandleSaveBookmark | src/components/BookmarkManager.tsx:107-121 | a new bookmark is appended after the unchanged earlier ones, with the fresh id, the time and the saved fields; an edit merges the saved fields into the records with the edited id and leaves the others as they were |
| Manager.EditBookmarkChangesOnlyIt | src/components/BookmarkManager.tsx:107-109 | an edit changes only records with the edited id; they keep id, creation time and favicon and take the form's url, title, folder and the old `lastVisited` |
| Manager.HandleSaveFolder | src/components/BookmarkManager.tsx:150-164 | a new folder is appended after the unchanged earlier ones, with the fresh id, the time and the saved name, parent and colour; an edit merges the saved fields into the records with the edited id and leaves the others as they were; bookmarks never change |
| Manager.EditFolderChangesOnlyIt | src/components/BookmarkManager.tsx:150-164 | an edit changes only records with the edited id; they keep id and creation time and take the saved name, parent and colour |
| Manager.EditFolderUntouched | src/components/BookmarkManager.tsx:145-152 | saving an untouched edit of a folder with a trimmed name, set colour and non-root parent leaves its record unchanged |
| Manager.PreviewBookmark | src/components/BookmarkManager.tsx:131-137 | previewing sets `lastVisited` on the records with the bookmark's id and changes nothing else |
| Docs.Spread | api/index.ts:65 | the merged object has both key sets; the body wins on shared keys |
| Docs.FindIndex | api/index.ts:63 | the first position holding the id, or -1 iff none does |
| Docs.Stamp | api/index.ts:53-57 | the created object has the server's id and time whatever the body said, and every other body key |
| ExpressApi.InitialServer | api/index.ts:31-34 | no bookmarks and exactly one folder, "root" |
| ExpressApi.Handle | api/index.ts:48-115 | GET lists; POST appends one stamped document; PUT/DELETE answer 404 iff no document has the id, and then change nothing; a 200 PUT stores the merge into the first match and returns that document, a 200 DELETE stores the list without the first match and says it deleted; the other collection never changes |
| ExpressApi.Merge | api/index.cjs:43-51 | the first match becomes `{ ...doc, ...body }`, every other document is unchanged, or nothing when there is no match |
| ExpressApi.Splice | api/index.cjs:53-61 | exactly the first match is removed, the rest kept in order, or nothing when there is no match |
| ExpressApi.RemoveUndoesCreate | api/index.js:30-58 | creating under an unused id and then deleting that id restores the list |
| ExpressApi.ReplaceCanChangeId | api/index.ts:62-66 | a PUT body with an `id` key renames the document |
| ExpressApi.RemoveTakesFirstOnly | api/index.js:50-58 | with two documents sharing an id, the second survives the delete |
| ExpressApi.FolderDeleteKeepsBookmarks | api/index.cjs:85-93 | deleting a folder leaves every bookmark as it was |
| ExpressApi.RootCanBeDeleted | api/index.js:85-93 | on a fresh server "root" can be deleted, leaving no folder |
| ServerlessApi.Handle | api/folders.js:5-21 | GET answers 200 with the list unchanged; POST answers 201 and appends one stamped document; anything else answers 405 with the list unchanged |
| ServerlessApi.InitialFolders | api/folders.js:1-3 | the folder list starts with "root" only |
| ServerlessApi.PostMatchesExpress | api/bookmarks.js:8-16 | a POST stores the same document as the Express route, with status 201 instead of 200 |
| ServerlessApi.InitialListsMatchExpress | api/bookmarks.js:1 | the serverless lists start as the Express server's do |
| Corrections.GrandchildOffered | src/components/FolderDialog.tsx:85-90 | the dialog offers a grandchild as the edited folder's parent, which the corrected list does not |
| Corrections.ReparentUnderGrandchildLoops | src/hooks/useBookmarks.ts:85-89 | any id-keeping update that hangs W under its grandchild E leaves a cycle, and W's path never resolves |
| Corrections.GrandchildChoiceLoops | src/components/FolderDialog.tsx:65-90 | saving that choice turns a store without cycles into one where the edited folder's path never resolves |
| Corrections.SafeParents | src/components/FolderDialog.tsx:85-90 | the corrected list keeps, in order, every folder outside the edited folder's subtree |
| Corrections.FindAfterUpdate | src/hooks/useBookmarks.ts:85-89 | after an update that keeps ids, `find` returns the patched form of the record it returned before |
| Corrections.ReparentKeepsAcyclic | src/hooks/useBookmarks.ts:85-89 | moving a folder under a parent outside its own subtree keeps the store free of cycles |
| Corrections.SafeParentsKeepAcyclic | src/components/FolderDialog.tsx:65-90 | saving with "All Bookmarks" or any folder of the corrected list keeps the store free of cycles |
| Corrections.DeleteOrphansSubfolder | src/hooks/useBookmarks.ts:91-101 | deleting a folder with a subfolder breaks parent resolution, and the subfolder is drawn neither at the top level nor under any folder |
| Corrections.DeleteFolderCascade | src/hooks/useBookmarks.ts:91-101 | the corrected delete refiles bookmarks as the code does and moves subfolders to the same destination |
| Corrections.CascadeKeepsOthers | src/hooks/useBookmarks.ts:91-101 | the corrected delete keeps a folder with every other id that was present |
| Corrections.CascadeParentsResolve | src/hooks/useBookmarks.ts:91-101 | after the corrected delete every parent resolves and no folder names the deleted id as parent |
| Corrections.CascadeBookmarksResolve | src/hooks/useBookmarks.ts:91-98 | after the corrected delete every bookmark stays filed |
| Corrections.CascadeKeepsIntegrity | src/components/BookmarkManager.tsx:166-175 | the corrected delete keeps bookmarks filed, parents resolving and "root" present, and nothing names the deleted folder |
| Corrections.CascadeShowsSubfolder | src/components/FolderSidebar.tsx:141-185 | after the corrected delete the former subfolder is drawn again, under "All Bookmarks" (and, as the sidebar is written, at the top level too) |
| Corrections.HandleDeleteFolderCascade | src/components/BookmarkManager.tsx:166-170 | the handler over the corrected delete moves the same bookmarks and keeps the same selection as the handler as written |
| Corrections.CascadeHandlerKeepsSelection | src/components/BookmarkManager.tsx:166-170 | with the corrected delete a selection of "root" or of an existing folder still names one |
| Corrections.SidebarTopLevel | src/components/FolderSidebar.tsx:183-185 | the corrected top level keeps, in store order, the folders without a parent and those under a "" or "root" that no stored folder has as id |
| Corrections.SidebarTopLevelDisjoint | src/components/FolderSidebar.tsx:141-185 | with the corrected top level a folder is also listed among an id's children only when no stored folder has that id, so no such row is drawn |
| Corrections.SidebarTopLevelKeepsRows | src/components/FolderSidebar.tsx:141-185 | every folder the top level as written draws is still drawn: at the corrected top level or under its parent's row |
| Corrections.RootChildrenDrawnOnce | src/components/FolderSidebar.tsx:141-185 | while "All Bookmarks" is stored its children are drawn under it and not at the top level |
| Corrections.InitialWorkDrawnOnce | src/components/FolderSidebar.tsx:44-185 | on the starting folders the corrected sidebar draws "Work" only under "All Bookmarks" |

## Left out

- Login routes (api/index.ts:37-45 and the same in the other two files): a fixed credential check, unrelated to the store.
- Express middleware, static files and the single-page fallback (api/index.cjs:7-12, 95-98), and all HTTP framing: handlers are modelled as (request, lists) → (reply, lists).
- api/index.js uses `express` without importing it, so that file fails on load; its handlers are modelled as if it loaded, being the same as the other two.
- Request bodies are modelled as JSON objects of typed values (`Docs.Value`); the client and server records are not reconciled.
- Docs.Stamp: the server stores `createdAt` as a `Date` object, modelled as `Time(ms)`; replies serialise it as the ISO string of `toISOString`, and that JSON encoding is not modelled.
- src/components/ImportBookmarksDialog.tsx, src/components/BookmarkCard.tsx and src/components/BookmarkPreview.tsx are not part of this model: they rest on the browser's HTML and URL parsers, `Intl` and random ids.
- The metadata fetch in the bookmark dialog (src/components/AddBookmarkDialog.tsx:60-94): a timer and URL parsing.
- Toasts, `useEffect` scheduling, dialog open/close state and all rendering.
- `BookmarkStats` is declared as a record but computed nowhere, so it has no operations.
- Text.Lower: lower-cases ASCII letters only, not the full Unicode mapping of `toLowerCase`.
- Ordering.StrLeq: `localeCompare` is replaced by lexicographic order on Unicode code points, one total order a locale may define; locale-specific collation is not modelled.
- Strings are sequences of Unicode code points, not JavaScript's UTF-16 strings: lengths and comparisons involving characters outside the Basic Multilingual Plane (surrogate pairs) differ.
- Ordering.Sort: `Array.prototype.sort` sorts in place, and for "root" `getBookmarksInFolder` returns the state array itself, so the page reorders the store's own array; the model sorts a copy.
- Ordering.Before: dates are whole milliseconds; invalid dates (NaN comparisons) are not modelled.
- Hierarchy.FolderPath: the code recurses without bound and never returns on a cycle; the model gives it fuel and returns `None` when the fuel runs out, and proves that `|folders|` lookups always suffice without a cycle.
- BookmarkDialog.FolderLabels: each label gets as many lookups as there are folders; on a cycle the code overflows the stack, the model shows `None`.
- Patches never set a required field to `undefined`; `Partial<T>` allows it, but no caller does so.
- Sidebar rendering recursion (src/components/FolderSidebar.tsx:62-150) is modelled by its one-level views `TopLevel` and `Children`, not as a tree walk.

## Findings

| source | as written | input that shows it | evidently intended | confidence | as-written member | corrected member |
|---|---|---|---|---|---|---|
| src/components/FolderDialog.tsx:85-90 | the parent list leaves out only the edited folder and its direct children | folders root, W (top level), D (parent W), E (parent D); edit W and choose E as parent | leave out the whole subtree, as the comment says, "to prevent circular references" | not executed | Corrections.GrandchildChoiceLoops | Corrections.SafeParentsKeepAcyclic |
| src/hooks/useBookmarks.ts:91-101 | deleting a folder moves its bookmarks to the parent but leaves its subfolders naming the deleted id | folders root, W (parent root), D (parent W); delete W | move the subfolders too, as the message at src/components/BookmarkManager.tsx:173 says ("the folder and its contents have been moved to the parent folder") | not executed | Corrections.DeleteOrphansSubfolder | Corrections.CascadeKeepsIntegrity |
| src/components/FolderSidebar.tsx:183-185 | the top level holds the folders under "root" as well as "All Bookmarks" itself, whose row (expanded from the start, line 44) lists the same folders again as children (lines 141-145) | the starting folders: "Work" and "Personal" (parent "root") | draw the children of "All Bookmarks" once, under its row, keeping them at the top level only when no "root" folder is stored | not executed | Sidebar.InitialWorkDrawnTwice | Corrections.SidebarTopLevelDisjoint |
