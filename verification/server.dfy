/**
 * The server as a whole: the two collections, the nine routes, and one step
 * that answers a request and yields the next store.
 */
module Server {
  import opened Wrappers
  import opened Json
  import opened DocStore
  import opened Http
  import Books
  import Orders

  /** The `books` and `orders` collections of the database. */
  datatype Store = Store(books: Collection, orders: Collection)

  /**
   * What a request takes from outside the handlers: the clock (`new Date()`),
   * the `_id` the driver would generate for an insert, and `new ObjectId(s)`,
   * which yields nothing where it would throw.
   */
  datatype Env = Env(now: int, freshId: ObjectId, parseId: string -> Option<ObjectId>)

  /** The routes, with their path parameters and parsed JSON bodies. */
  datatype Request =
    | GetBooks                                   // GET /books
    | GetCustomBook(id: string)                  // GET /books/custom/:id
    | PostBook(body: Doc)                        // POST /librarian/books
    | PostOrder(body: Doc)                       // POST /orders
    | GetUserOrders(email: string)               // GET /user/orders/:email
    | GetOrder(id: string)                       // GET /orders/:id
    | CancelOrder(id: string)                    // PATCH /orders/cancel/:id
    | PatchOrder(id: string, body: Doc)          // PATCH /orders/:id
    | GetUserPayments(email: string)             // GET /user/payments/:email

  /** The routes that only read. */
  predicate IsRead(req: Request)
  {
    req.GetBooks? || req.GetCustomBook? || req.GetUserOrders? || req.GetOrder? || req.GetUserPayments?
  }

  /** The routes on the `books` collection. */
  predicate IsBookRoute(req: Request)
  {
    req.GetBooks? || req.GetCustomBook? || req.PostBook?
  }

  /** Every collection keeps its `_id`s unique. */
  predicate WellFormed(s: Store)
  {
    UniqueIds(s.books) && UniqueIds(s.orders)
  }

  /** A response and the store after the request. */
  datatype Step = Step(response: Response, store: Store)

  /** A book route against the `books` collection. */
  function HandleBooks(books: Collection, req: Request, env: Env): (r: Handled)
    requires IsBookRoute(req)
    ensures req.PostBook? || r.after == books
    ensures |books| <= |r.after| <= |books| + 1 && r.after[..|books|] == books
    ensures Ids(books) == Ids(r.after)[..|books|]
    ensures UniqueIds(books) ==> UniqueIds(r.after)
  {
    match req
    case GetBooks => Handled(Books.ListBooks(books), books)
    case GetCustomBook(id) => Handled(Books.GetCustomBook(books, id), books)
    case PostBook(body) =>
      var h := Books.CreateBook(books, body, env.now, env.freshId);
      assert Ids(books) == Ids(h.after)[..|books|];
      h
  }

  /** An order route against the `orders` collection. */
  function HandleOrders(orders: Collection, req: Request, env: Env): (r: Handled)
    requires !IsBookRoute(req)
    ensures IsRead(req) ==> r.after == orders
    ensures req.PostOrder? || Ids(r.after) == Ids(orders)
    ensures |orders| <= |r.after| <= |orders| + 1 && Ids(orders) == Ids(r.after)[..|orders|]
    ensures req.PostOrder? ==> r.after[..|orders|] == orders
    ensures UniqueIds(orders) ==> UniqueIds(r.after)
  {
    match req
    case PostOrder(body) =>
      var h := Orders.CreateOrder(orders, body, env.now, env.freshId);
      assert Ids(orders) == Ids(h.after)[..|orders|];
      h
    case GetUserOrders(email) => Handled(Orders.UserOrders(orders, email), orders)
    case GetOrder(id) => Handled(Orders.GetOrder(orders, id, env.parseId), orders)
    case CancelOrder(id) =>
      var h := Orders.CancelOrder(orders, id, env.parseId);
      assert Ids(orders) == Ids(h.after);
      h
    case PatchOrder(id, body) =>
      var h := Orders.UpdateOrderStatus(orders, id, body, env.parseId);
      assert Ids(orders) == Ids(h.after);
      h
    case GetUserPayments(email) => Handled(Orders.PaymentHistory(orders, email), orders)
  }

  /**
   * One request: reads leave the store as it was, book routes touch only
   * `books`, order routes touch only `orders`, no route ever removes a
   * document or changes an `_id`, and unique `_id`s stay unique.
   */
  function Handle(s: Store, req: Request, env: Env): (r: Step)
    ensures IsRead(req) ==> r.store == s
    ensures IsBookRoute(req) ==> r.store.orders == s.orders
    ensures !IsBookRoute(req) ==> r.store.books == s.books
    ensures |s.books| <= |r.store.books| && Ids(s.books) == Ids(r.store.books)[..|s.books|]
    ensures |s.orders| <= |r.store.orders| && Ids(s.orders) == Ids(r.store.orders)[..|s.orders|]
    ensures |r.store.books| + |r.store.orders| <= |s.books| + |s.orders| + 1
    ensures r.store.books[..|s.books|] == s.books
    ensures req.PostOrder? ==> r.store.orders[..|s.orders|] == s.orders
    ensures !req.PostBook? ==> Ids(r.store.books) == Ids(s.books)
    ensures !req.PostOrder? ==> Ids(r.store.orders) == Ids(s.orders)
    ensures WellFormed(s) ==> WellFormed(r.store)
  {
    if IsBookRoute(req) then
      var h := HandleBooks(s.books, req, env);
      Step(h.response, s.(books := h.after))
    else
      var h := HandleOrders(s.orders, req, env);
      Step(h.response, s.(orders := h.after))
  }

  /** Running a sequence of requests, each with its own environment. */
  function Run(s: Store, reqs: seq<(Request, Env)>): (r: Store)
    ensures WellFormed(s) ==> WellFormed(r)
    ensures |s.books| <= |r.books| && r.books[..|s.books|] == s.books
    ensures (forall i :: 0 <= i < |reqs| ==> !reqs[i].0.PostBook?) ==> Ids(r.books) == Ids(s.books)
    ensures (forall i :: 0 <= i < |reqs| ==> !reqs[i].0.PostOrder?) ==> Ids(r.orders) == Ids(s.orders)
    decreases |reqs|
  {
    if reqs == [] then s
    else Run(Handle(s, reqs[0].0, reqs[0].1).store, reqs[1..])
  }
}
