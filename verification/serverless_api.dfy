/**
 * The serverless handlers (api/folders.js, api/bookmarks.js): one in-memory
 * list each, answering GET with the list, POST by appending, and anything
 * else with 405.
 */
module ServerlessApi {
  import opened Docs
  import ExpressApi

  /** `req.method`: "GET", "POST", or any other method name. */
  datatype Method = Get | Post | Other

  datatype Outcome = Outcome(docs: seq<Doc>, reply: Reply)

  const METHOD_NOT_ALLOWED: string := "Method not allowed"

  /** The folder list starts with "All Bookmarks" only. */
  function InitialFolders(now: int): (ds: seq<Doc>)
    ensures |ds| == 1 && HasId(ds[0], "root")
  {
    [RootDoc(now)]
  }

  /** The bookmark list starts empty. */
  const INITIAL_BOOKMARKS: seq<Doc> := []

  /** The handler of either file; they differ only in the list they keep. */
  function Handle(ds: seq<Doc>, m: Method, body: Doc, freshId: string, now: int): (r: Outcome)
    ensures m.Get? ==> r == Outcome(ds, Reply(200, Many(ds)))
    ensures m.Post? ==> r.reply == Reply(201, One(Stamp(body, freshId, now))) &&
                        r.docs == Append(ds, body, freshId, now)
    ensures m.Other? ==> r == Outcome(ds, Reply(405, Message(METHOD_NOT_ALLOWED)))
    ensures r.reply.status != 201 ==> r.docs == ds
  {
    match m
    case Get => Outcome(ds, Reply(200, Many(ds)))
    case Post => Outcome(Append(ds, body, freshId, now), Reply(201, One(Stamp(body, freshId, now))))
    case Other => Outcome(ds, Reply(405, Message(METHOD_NOT_ALLOWED)))
  }

  /**
   * A POST here stores the same document as a POST to the Express server and
   * differs only in the status: 201 instead of 200.
   */
  lemma PostMatchesExpress(s: ExpressApi.Server, c: ExpressApi.Collection, body: Doc, freshId: string, now: int)
    ensures var here := Handle(ExpressApi.Get(s, c), Post, body, freshId, now);
            var there := ExpressApi.Handle(s, ExpressApi.Create(c, body), freshId, now);
            here.docs == ExpressApi.Get(there.server, c) && here.reply.body == there.reply.body &&
            here.reply.status == 201 && there.reply.status == 200
  {
  }

  /** Both serverless lists start as the Express server does. */
  lemma InitialListsMatchExpress(now: int)
    ensures InitialFolders(now) == ExpressApi.InitialServer(now).folders
    ensures INITIAL_BOOKMARKS == ExpressApi.InitialServer(now).bookmarks
  {
  }
}
