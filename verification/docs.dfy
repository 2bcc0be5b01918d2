/**
 * The servers keep plain JSON objects, not typed records: a request body is
 * spread into them unchecked. A document is a map from keys to values.
 */
module Docs {
  /** The JSON values a body can carry; a `Date` object is kept as its milliseconds. */
  datatype Value = Str(s: string) | Time(ms: int) | Num(n: int) | Flag(b: bool) | Null

  type Doc = map<string, Value>

  /** `{ ...a, ...b }`: the keys of both, `b`'s value winning where both have one. */
  function Spread(a: Doc, b: Doc): (r: Doc)
    ensures r.Keys == a.Keys + b.Keys
    ensures forall k | k in b :: r[k] == b[k]
    ensures forall k | k in a && k !in b :: r[k] == a[k]
  {
    a + b
  }

  /** Spreading is associative and spreading the same object twice adds nothing. */
  lemma SpreadLaws(a: Doc, b: Doc, c: Doc)
    ensures Spread(Spread(a, b), c) == Spread(a, Spread(b, c))
    ensures Spread(Spread(a, b), b) == Spread(a, b)
  {
  }

  /** `d.id === id`: the document has an `id` key holding that very string. */
  predicate HasId(d: Doc, id: string) {
    "id" in d && d["id"] == Str(id)
  }

  /** `findIndex(d => d.id === id)`: the first matching position, or -1. */
  function FindIndex(ds: seq<Doc>, id: string): (i: int)
    ensures -1 <= i < |ds|
    ensures i == -1 <==> forall k | 0 <= k < |ds| :: !HasId(ds[k], id)
    ensures i >= 0 ==> HasId(ds[i], id) && forall k | 0 <= k < i :: !HasId(ds[k], id)
  {
    if |ds| == 0 then -1
    else if HasId(ds[0], id) then 0
    else
      var j := FindIndex(ds[1..], id);
      if j == -1 then -1 else j + 1
  }

  /** `{ ...body, id, createdAt }`: the server's id and time override whatever the body says. */
  function Stamp(body: Doc, freshId: string, now: int): (d: Doc)
    ensures HasId(d, freshId) && "createdAt" in d && d["createdAt"] == Time(now)
    ensures d.Keys == body.Keys + {"id", "createdAt"}
    ensures forall k | k in body && k != "id" && k != "createdAt" :: d[k] == body[k]
  {
    Spread(body, map["id" := Str(freshId), "createdAt" := Time(now)])
  }

  /** The one folder every server starts with. */
  function RootDoc(now: int): (d: Doc)
    ensures d.Keys == {"id", "name", "createdAt"}
    ensures HasId(d, "root") && d["name"] == Str("All Bookmarks") && d["createdAt"] == Time(now)
  {
    map["id" := Str("root"), "name" := Str("All Bookmarks"), "createdAt" := Time(now)]
  }

  /** The JSON a handler answers with. */
  datatype Body = One(doc: Doc) | Many(docs: seq<Doc>) | Message(text: string)

  datatype Reply = Reply(status: int, body: Body)

  /** `push`: the list with one more document at the end. */
  function Append(ds: seq<Doc>, body: Doc, freshId: string, now: int): (r: seq<Doc>)
    ensures |r| == |ds| + 1 && r[..|ds|] == ds
    ensures r[|ds|] == Stamp(body, freshId, now)
  {
    ds + [Stamp(body, freshId, now)]
  }
}
