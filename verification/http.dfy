/** What a request handler sends back, and the collection it leaves behind. */
module Http {
  import opened DocStore

  /** The body (and status code) a handler sends. */
  datatype Response =
    | Docs(items: seq<Stored>)                  // 200 with an array of documents
    | Found(item: Stored)                       // 200 with one document
    | Inserted(insertedId: ObjectId)            // 200 with the `insertOne` acknowledgement
    | Updated(matchedCount: nat, modifiedCount: nat)  // 200 with the `updateOne` acknowledgement
    | Failed(code: int, error: string)          // an error status with `{ error: ... }`
    | Unhandled                                 // the handler's promise rejected outside any `try`; it sends nothing itself

  /** A handler's response together with the collection it touched, afterwards. */
  datatype Handled = Handled(response: Response, after: Collection)

  /** The `updateOne` acknowledgement as counts. */
  function Ack(u: UpdateOutcome): (r: Response)
    ensures r.Updated?
    ensures r.matchedCount <= 1 && r.modifiedCount <= 1
    ensures r.matchedCount == 1 <==> u.matched
    ensures r.modifiedCount == 1 <==> u.modified
  {
    Updated(if u.matched then 1 else 0, if u.modified then 1 else 0)
  }
}
