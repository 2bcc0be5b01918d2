/**
 * The Express servers (api/index.ts, api/index.cjs, api/index.js; their
 * handlers are the same): two in-memory lists and CRUD routes over them.
 * Each handler is a pure function from the request and the lists to the
 * reply and the new lists; `Date.now().toString()` and `new Date()` arrive as
 * `freshId` and `now`.
 */
module ExpressApi {
  import opened Wrappers
  import opened Docs

  datatype Collection = Bookmarks | Folders

  datatype Request =
    | List(c: Collection)
    | Create(c: Collection, body: Doc)
    | Replace(c: Collection, id: string, body: Doc)
    | Remove(c: Collection, id: string)

  datatype Server = Server(bookmarks: seq<Doc>, folders: seq<Doc>)

  datatype Outcome = Outcome(server: Server, reply: Reply)

  /** No bookmarks and the single "All Bookmarks" folder. */
  function InitialServer(now: int): (s: Server)
    ensures s.bookmarks == [] && |s.folders| == 1 && HasId(s.folders[0], "root")
  {
    Server([], [RootDoc(now)])
  }

  function Get(s: Server, c: Collection): seq<Doc> {
    match c
    case Bookmarks => s.bookmarks
    case Folders => s.folders
  }

  function Put(s: Server, c: Collection, ds: seq<Doc>): (r: Server)
    ensures Get(r, c) == ds
    ensures forall o: Collection | o != c :: Get(r, o) == Get(s, o)
  {
    match c
    case Bookmarks => s.(bookmarks := ds)
    case Folders => s.(folders := ds)
  }

  function NotFound(c: Collection): string {
    match c
    case Bookmarks => "Bookmark not found"
    case Folders => "Folder not found"
  }

  function Deleted(c: Collection): string {
    match c
    case Bookmarks => "Bookmark deleted"
    case Folders => "Folder deleted"
  }

  /** PUT: the first document with the id becomes `{ ...doc, ...body }`; `None` when there is none. */
  function Merge(ds: seq<Doc>, id: string, body: Doc): (r: Option<seq<Doc>>)
    ensures r.None? <==> forall k | 0 <= k < |ds| :: !HasId(ds[k], id)
    ensures r.Some? ==>
              var i := FindIndex(ds, id);
              |r.value| == |ds| && r.value[i] == Spread(ds[i], body) &&
              forall k | 0 <= k < |ds| && k != i :: r.value[k] == ds[k]
  {
    var i := FindIndex(ds, id);
    if i == -1 then None else Some(ds[i := Spread(ds[i], body)])
  }

  /** DELETE: the first document with the id is spliced out; `None` when there is none. */
  function Splice(ds: seq<Doc>, id: string): (r: Option<seq<Doc>>)
    ensures r.None? <==> forall k | 0 <= k < |ds| :: !HasId(ds[k], id)
    ensures r.Some? ==>
              var i := FindIndex(ds, id);
              |r.value| == |ds| - 1 && r.value[..i] == ds[..i] && r.value[i..] == ds[i + 1..] &&
              multiset(r.value) + multiset{ds[i]} == multiset(ds)
  {
    var i := FindIndex(ds, id);
    if i == -1 then None
    else
      assert ds == ds[..i] + [ds[i]] + ds[i + 1..];
      Some(ds[..i] + ds[i + 1..])
  }

  /** The routes: GET lists, POST appends, PUT merges, DELETE splices; 404 leaves everything as it was. */
  function Handle(s: Server, req: Request, freshId: string, now: int): (r: Outcome)
    ensures r.reply.status == 200 || r.reply.status == 404
    ensures r.reply.status == 404 ==> r.server == s && r.reply.body == Message(NotFound(req.c))
    ensures forall o: Collection | o != req.c :: Get(r.server, o) == Get(s, o)
    ensures req.List? ==> r == Outcome(s, Reply(200, Many(Get(s, req.c))))
    ensures req.Create? ==>
              r.reply == Reply(200, One(Stamp(req.body, freshId, now))) &&
              Get(r.server, req.c) == Append(Get(s, req.c), req.body, freshId, now)
    ensures (req.Replace? || req.Remove?) ==>
              (r.reply.status == 404 <==> forall k | 0 <= k < |Get(s, req.c)| :: !HasId(Get(s, req.c)[k], req.id))
    ensures req.Replace? && r.reply.status == 200 ==>
              Merge(Get(s, req.c), req.id, req.body).Some? &&
              Get(r.server, req.c) == Merge(Get(s, req.c), req.id, req.body).value &&
              r.reply.body == One(Get(r.server, req.c)[FindIndex(Get(s, req.c), req.id)])
    ensures req.Remove? && r.reply.status == 200 ==>
              Splice(Get(s, req.c), req.id).Some? &&
              Get(r.server, req.c) == Splice(Get(s, req.c), req.id).value &&
              r.reply.body == Message(Deleted(req.c))
  {
    var ds := Get(s, req.c);
    match req
    case List(c) => Outcome(s, Reply(200, Many(ds)))
    case Create(c, body) =>
      var d := Stamp(body, freshId, now);
      Outcome(Put(s, c, Append(ds, body, freshId, now)), Reply(200, One(d)))
    case Replace(c, id, body) =>
      (match Merge(ds, id, body)
       case None => Outcome(s, Reply(404, Message(NotFound(c))))
       case Some(ds') => Outcome(Put(s, c, ds'), Reply(200, One(ds'[FindIndex(ds, id)]))))
    case Remove(c, id) =>
      (match Splice(ds, id)
       case None => Outcome(s, Reply(404, Message(NotFound(c))))
       case Some(ds') => Outcome(Put(s, c, ds'), Reply(200, Message(Deleted(c)))))
  }

  /** Creating a document under an unused id and deleting that id gives back the list as it was. */
  lemma RemoveUndoesCreate(s: Server, c: Collection, body: Doc, freshId: string, now: int, otherId: string, later: int)
    requires forall k | 0 <= k < |Get(s, c)| :: !HasId(Get(s, c)[k], freshId)
    ensures var created := Handle(s, Create(c, body), freshId, now).server;
            Handle(created, Remove(c, freshId), otherId, later) == Outcome(s, Reply(200, Message(Deleted(c))))
  {
    var ds := Get(s, c);
    var created := Put(s, c, ds + [Stamp(body, freshId, now)]);
    assert Handle(s, Create(c, body), freshId, now).server == created;
    SpliceLast(ds, Stamp(body, freshId, now), freshId);
    assert Put(created, c, ds) == s by {
      match c
      case Bookmarks =>
      case Folders =>
    }
  }

  /** Splicing out the one document that carries the id, placed last, gives back what came before it. */
  lemma SpliceLast(ds: seq<Doc>, d: Doc, id: string)
    requires forall k | 0 <= k < |ds| :: !HasId(ds[k], id)
    requires HasId(d, id)
    ensures Splice(ds + [d], id) == Some(ds)
  {
    var es := ds + [d];
    assert HasId(es[|ds|], id);
    var i := FindIndex(es, id);
    assert i >= 0;
    var r := Splice(es, id).value;
    assert r == r[..i] == es[..i] == ds;
  }

  /** A PUT body may rename the document: its `id` key wins over the stored one. */
  lemma ReplaceCanChangeId(s: Server, c: Collection, id: string, newId: string, freshId: string, now: int)
    requires exists k | 0 <= k < |Get(s, c)| :: HasId(Get(s, c)[k], id)
    ensures var r := Handle(s, Replace(c, id, map["id" := Str(newId)]), freshId, now);
            r.reply.status == 200 && HasId(Get(r.server, c)[FindIndex(Get(s, c), id)], newId)
  {
  }

  /** Only the first of several documents with the same id is removed. */
  lemma RemoveTakesFirstOnly(ds: seq<Doc>, id: string, i: nat, j: nat)
    requires i < j < |ds| && HasId(ds[i], id) && HasId(ds[j], id)
    ensures Splice(ds, id).Some? && ds[j] in Splice(ds, id).value
  {
    var r := Splice(ds, id).value;
    var f := FindIndex(ds, id);
    assert f <= i;
    assert r[j - 1] == ds[j];
  }

  /** Deleting a folder leaves every bookmark as it was, the ones filed in it included. */
  lemma FolderDeleteKeepsBookmarks(s: Server, id: string, freshId: string, now: int)
    ensures Handle(s, Remove(Folders, id), freshId, now).server.bookmarks == s.bookmarks
  {
  }

  /** Nothing protects "All Bookmarks": on a fresh server it can be deleted, leaving no folder at all. */
  lemma RootCanBeDeleted(now: int, freshId: string, later: int)
    ensures var r := Handle(InitialServer(now), Remove(Folders, "root"), freshId, later);
            r.reply == Reply(200, Message("Folder deleted")) && r.server.folders == []
  {
  }
}
