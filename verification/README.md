# BookCourier server: request handlers over an abstract document store

A functional Dafny model of the BookCourier backend (an Express server over
MongoDB), in which librarians add books and users order them. The `books`
and `orders` collections are sequences of documents in natural (insertion)
order. Each document sits under a driver-assigned `_id`. Every route is a pure
function from the collection and the request to the response and the
collection afterwards.

Modules, leaf first:

- `Wrappers`: the `Option` datatype.
- `Json`: JSON values, JavaScript truthiness (`Truthy`, `Present`), MongoDB
  equality of a field against a string (`EqualsString`), and `$set` (`Set`).
- `DocStore`: a collection with the filters the server issues
  (`{ _id: ObjectId }` or field-equals-string conjunctions). It also has
  `find`, `findOne`, `insertOne` and `updateOne`. `updateOne` and `findOne`
  act on the first selected document. `UniqueIds` is MongoDB's unique `_id`
  index.
- `Http`: responses. That is, a document list, one document, the insert
  acknowledgement, the update acknowledgement, an error status, or
  `Unhandled` when a handler's promise rejects outside its `try`.
- `Books`: `GET /books`, `GET /books/custom/:id`, `POST /librarian/books`.
- `Orders`: `POST /orders`, `GET /user/orders/:email`, `GET /orders/:id`,
  `PATCH /orders/cancel/:id`, `PATCH /orders/:id`, `GET /user/payments/:email`.
- `Lifecycle`: properties that span several requests.
- `Server`: the store of both collections, the request datatype, and one
  dispatch step that preserves the unique-`_id` invariant.

The clock (`new Date()`), the `_id` the driver generates on insert, and
`new ObjectId(s)` (which throws on a malformed string) are parameters. For
the parser, the model passes a function that yields `None` where the
constructor would throw.

Order `status` is a free JSON field, exactly as in the code:

- Cancelling does not check the current status.
- The update route writes whatever `status` the body carries, `"paid"`
  included. It sets `paymentStatus` to `"paid"` exactly when that status is
  the string `"paid"`, and to `"unpaid"` otherwise.
- A body with no `status` writes `null`: the driver serialises JavaScript
  `undefined` as BSON null.

## Behaviour a reader might not expect

- Cancellation has no "only pending orders" guard. Cancelling twice succeeds
  both times; the second time it reports nothing modified (`Lifecycle.CancelIdempotent`).
- The status update has no whitelist of statuses. `status` can become `"paid"`,
  `"cancelled"` or any JSON value.
- A malformed order id is answered with 500 from the `catch` block. There is
  no separate validation error.
- Presence is JavaScript truthiness. A price of `0` or an empty name is
  rejected, while a negative `amount` is accepted.
- Books are looked up by a client-supplied `id` field, and orders reference
  books only by `bookTitle`. There is no librarian-scoped read.
- The payment history matches `status` with MongoDB's array semantics, while
  the payment status is derived with `===`. So an order updated with the
  status `["paid"]` is listed as a payment but marked `"unpaid"`
  (`Lifecycle.ArrayStatusListedAsUnpaidPayment`).

## Model

| member | source | states |
|---|---|---|
| Json.PresentIffNotFalsy | index.js:56 | a field passes the `!body.field` test exactly when it exists and is not `null`, `false`, `0` or `""` |
| Json.Set | index.js:116-119 | `$set` gives every patched key the patch's value and leaves every other key, present or absent, as it was |
| Json.SetIdempotent | index.js:116-119 | applying the same `$set` twice equals applying it once |
| DocStore.Find | index.js:40 | `find(filter).toArray()` holds exactly the stored documents the filter selects, each as many times as the collection holds it (so no duplicates and no extras), and no more than the collection has |
| DocStore.FindCons | index.js:40 | the unfolding step of `find` on a collection with a first element, which `DocStore.FindAppend` uses: that document heads the result exactly when selected |
| DocStore.FirstIndex | index.js:103 | the position found is the first selected document: none before it is selected, and it is selected unless it is past the end |
| DocStore.FindOne | index.js:47 | `findOne` yields nothing exactly when no document is selected, and otherwise the first selected one |
| DocStore.InsertOne | index.js:63 | `insertOne` appends exactly one document under the fresh `_id`, leaves the existing ones in place, refuses a taken `_id`, and keeps `_id`s unique |
| DocStore.UpdateOne | index.js:116-119 | `updateOne` patches only the first selected document, keeps every `_id` and every other document, reports matched exactly when something is selected and modified exactly when the collection changed |
| DocStore.FirstIsUnique | index.js:103 | at most one position is the first selected one |
| DocStore.UniqueIdIsFirst | index.js:117 | with unique `_id`s, the document with that `_id` is the one `{ _id }` selects first |
| DocStore.FindAppend | index.js:40 | `find` keeps natural order: a newly appended document appears last in the result exactly when selected |
| DocStore.FindIdsAgree | index.js:91 | if no document changes in a way the filter can see, `find` returns documents with the same `_id`s in the same order |
| DocStore.UpdateOneIdempotent | index.js:132-135 | repeating an `updateOne` by `_id` with the same `$set` changes nothing further and reports nothing modified |
| Http.Ack | index.js:120 | the update acknowledgement's matched and modified counts are 0 or 1 and mirror whether a document matched and changed |
| Books.SelectsPublished | index.js:40 | the filter `{ status: "published" }` selects exactly the published books |
| Books.SelectsCustomId | index.js:47 | the filter `{ id, status: "published" }` selects exactly the published books with that custom id |
| Books.ListBooks | index.js:39-42 | the catalogue lists each published book exactly as often as it is stored, and nothing else; unpublished books never appear |
| Books.GetCustomBook | index.js:45-50 | the lookup answers 404 exactly when no published book has that custom id, and otherwise the first such book |
| Books.CreateBook | index.js:53-65 | a body lacking any of the five required fields gets 400 and adds nothing; otherwise exactly one book is appended, keeping the body's fields, with `createdAt` the request time and `status` the supplied truthy one or else `"published"` |
| Orders.SelectsUser | index.js:91 | the filter `{ userEmail }` selects exactly that user's orders |
| Orders.SelectsPayment | index.js:151 | the filter `{ userEmail, status: "paid" }` selects exactly that user's paid orders |
| Orders.CreateOrder | index.js:72-85 | a body lacking `userEmail`, `bookTitle` or `amount` gets 400 and adds nothing; otherwise exactly one order is appended with `status` `"pending"` and `paymentStatus` `"unpaid"` whatever the body said, all other body fields kept |
| Orders.UserOrders | index.js:88-97 | a user's order list holds each stored order whose `userEmail` matches, exactly as often as it is stored, and nothing else |
| Orders.GetOrder | index.js:100-110 | a malformed id answers 500; a well-formed one answers 404 exactly when no order has that `_id`, and otherwise that order |
| Orders.CancelOrder | index.js:113-125 | the order with that `_id` gets `status` `"cancelled"` whatever its status was, all its other fields and all other orders stay, the acknowledgement's `matchedCount` is 1 exactly when the `_id` exists and 0 otherwise, and its `modifiedCount` is 1 exactly when the store changed and 0 otherwise; a malformed id answers 500 and changes nothing |
| Orders.RequestedStatus | index.js:130-134 | the status an update writes is the body's `status` as sent, or `null` when the body has none; a body without a truthy status never writes a truthy one |
| Orders.DerivedPayment | index.js:134 | the derived payment status is `"paid"` exactly when the supplied status is the string `"paid"`, and `"unpaid"` otherwise |
| Orders.UpdateOrderStatus | index.js:128-141 | the order with that `_id` gets the supplied `status` unvalidated and the matching `paymentStatus`, nothing else changes; the acknowledgement's `matchedCount` is 1 exactly when the `_id` exists and its `modifiedCount` 1 exactly when the store changed, each 0 otherwise; a malformed id answers 500 and changes nothing |
| Orders.PaymentHistory | index.js:146-159 | the payment history holds each of the user's orders whose `status` matches `"paid"`, exactly as often as it is stored, and nothing else |
| Lifecycle.CancelIdempotent | index.js:116-119 | cancelling twice leaves the store as cancelling once, and the second cancel reports nothing modified |
| Lifecycle.UpdateStatusIdempotent | index.js:132-135 | repeating a status update leaves the store as one update |
| Lifecycle.PaidOrderInHistory | index.js:134 | after an update with status `"paid"`, the order is in its owner's payment history and its `paymentStatus` is `"paid"` |
| Lifecycle.CancelledOrderNotInHistory | index.js:118 | after a cancel, no order with that `_id` is in any payment history |
| Lifecycle.PayThenCancel | index.js:151 | paying then cancelling puts the order into its owner's payment history and then takes it out |
| Lifecycle.NewOrderNotInHistory | index.js:80 | placing an order never changes any payment history |
| Lifecycle.NewOrderInUserOrders | index.js:83 | an accepted order appears last in its owner's order list, after the orders already there |
| Lifecycle.NewBookListed | index.js:61 | a book created without a truthy status appears last in the catalogue |
| Lifecycle.UnpublishedBookHidden | index.js:61 | a book created with a status other than `"published"` leaves the catalogue unchanged |
| Lifecycle.CancelKeepsUserOrders | index.js:118 | cancelling keeps every user's order list to the same orders in the same order |
| Lifecycle.UpdateKeepsUserOrders | index.js:134 | a status update keeps every user's order list to the same orders in the same order |
| Lifecycle.UpdateThenGet | index.js:103-105 | reading an order back after an update shows the written status and the derived payment status |
| Lifecycle.CancelKeepsPaymentStatus | index.js:118 | cancelling leaves `paymentStatus` as it was, so a paid order stays `"paid"` |
| Lifecycle.PatchWithoutStatusWritesNull | index.js:130-134 | an update whose body has no `status` leaves the order with status `null` and `paymentStatus` `"unpaid"` |
| Lifecycle.ArrayStatusListedAsUnpaidPayment | index.js:134 | an update with status `["paid"]` puts the order in the payment history while marking it `"unpaid"` |
| Server.HandleBooks | index.js:39-65 | book routes keep every existing book unchanged and in place, add at most one, and only `POST /librarian/books` changes `books` |
| Server.HandleOrders | index.js:72-159 | read routes leave `orders` as it was; cancel and update keep every `_id`; placing an order keeps every existing order unchanged and appends at most one |
| Server.Handle | index.js:38-159 | reads leave the store unchanged, book routes never touch `orders` and order routes never touch `books`, existing books and (on an insert) existing orders stay unchanged, no `_id` is removed or changed, each request adds at most one document, and unique `_id`s stay unique |
| Server.Run | index.js:38-159 | any sequence of requests keeps `_id`s unique and every existing book unchanged, and without inserts keeps the `_id`s of a collection as they were |

## Left out

- Express routing, CORS and JSON middleware, dotenv, the connection string, `client.connect`, `app.listen`, console logging and the test route `GET /`. These are process wiring, not logic.
- `new ObjectId(id)`: it is a library call. It is a parameter that yields `None` where the constructor would throw. So the model takes no position on which strings are well formed, or on two strings parsing to the same id.
- Driver failures: the `catch` blocks' 500 responses for database errors are not modelled. Only the malformed-id path through those blocks is. Failures in routes without a `try` (the book routes and `POST /orders`) are left out too.
- What follows a rejected `insertOne` (a taken `_id`, index.js:63 and index.js:83): the model records only that the handler sends nothing itself (`Unhandled`) and the store is unchanged, and `Server.Run` goes on serving. The Express version is not part of this model. Express 5 would pass the rejection to its default error handler, which answers 500. Express 4 leaves it unhandled, and Node 15 or later then ends the process, so no later request would be served.
- `new Date()`: it is a parameter (`now`, in milliseconds). A stored date is the `Date` value.
- `insertOne` and `updateOne` results are reduced. The model keeps the inserted `_id`, the matched and modified counts, and a duplicate-`_id` insert as `Unhandled`.
- A client-supplied `_id` in a body: the driver would use it as the key. The model treats it as an ordinary field and always uses the generated `_id`.
- A request without a parsed JSON body: bodies are modelled as JSON objects (`Doc`). With Express 4, `express.json()` leaves `req.body` as `{}`, which is the empty `Doc`: both POST routes answer 400, and `PATCH /orders/:id` writes `status: null`. With Express 5, `req.body` stays undefined. Then reading a field (index.js:56, index.js:75, and index.js:130 before the `try`) throws a TypeError outside any `try`, which Express 5 answers with 500, and nothing is written. The model has no request without a body.
- Request bodies that are JSON arrays, `$`- or dot-containing keys in bodies, and BSON numeric type distinctions (int versus double) are left out. Numbers are reals, and JSON has no NaN.
- Key order: documents and JSON objects are maps. MongoDB compares a `$set` value with the stored one as BSON, where the order of an embedded document's fields counts. So re-sending an object-valued field (a `status` object, say) with its keys in another order is a modification in MongoDB (`modifiedCount: 1`) but a no-op in `DocStore.UpdateOne` and `Http.Ack`.
- MongoDB equality beyond strings: filters here only compare fields with string literals. The model matches a string field or an array that contains the string.
- Natural order is taken to be insertion order. MongoDB does not promise this without a sort.
- Concurrency and atomicity of the updates: the model is sequential.
