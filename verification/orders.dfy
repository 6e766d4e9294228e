/**
 * The order routes of the server: placing an order (`POST /orders`), the
 * user's orders (`GET /user/orders/:email`), one order (`GET /orders/:id`),
 * cancelling (`PATCH /orders/cancel/:id`), the status update
 * (`PATCH /orders/:id`) and the payment history (`GET /user/payments/:email`).
 *
 * Order `status` is an unconstrained JSON field: cancelling works from any
 * status, the update writes whatever status the client sends (`"paid"`
 * included) and derives `paymentStatus` from it.
 */
module Orders {
  import opened Wrappers
  import opened Json
  import opened DocStore
  import opened Http

  /** The fields a new order must carry, each present and truthy. */
  const RequiredFields: seq<string> := ["userEmail", "bookTitle", "amount"]

  /** The order belongs to this user: its `userEmail` matches. */
  predicate OwnedBy(d: Doc, email: string)
  {
    "userEmail" in d && EqualsString(d["userEmail"], email)
  }

  /** The order's `status` matches `"paid"`. */
  predicate IsPaid(d: Doc)
  {
    "status" in d && EqualsString(d["status"], "paid")
  }

  /** `{ userEmail: email }` */
  function UserFilter(email: string): Filter
  {
    Where(map["userEmail" := email])
  }

  /** `{ userEmail: email, status: "paid" }` */
  function PaymentFilter(email: string): Filter
  {
    Where(map["userEmail" := email, "status" := "paid"])
  }

  /** The user filter selects exactly that user's orders. */
  lemma SelectsUser(s: Stored, email: string)
    ensures Selects(UserFilter(email), s) <==> OwnedBy(s.doc, email)
  {
  }

  /** The payment filter selects exactly that user's orders whose status matches `"paid"`. */
  lemma SelectsPayment(s: Stored, email: string)
    ensures Selects(PaymentFilter(email), s) <==> OwnedBy(s.doc, email) && IsPaid(s.doc)
  {
  }

  /**
   * `rec` is what the server stores for an accepted body: every supplied field
   * kept except the three the server owns, which it overwrites — `createdAt`
   * the request time, `status` `"pending"`, `paymentStatus` `"unpaid"`.
   */
  ghost predicate IsNewOrder(body: Doc, now: int, rec: Doc)
  {
    && rec.Keys == body.Keys + {"createdAt", "status", "paymentStatus"}
    && SameExcept(body, rec, {"createdAt", "status", "paymentStatus"})
    && rec["createdAt"] == Date(now)
    && rec["status"] == Str("pending")
    && rec["paymentStatus"] == Str("unpaid")
  }

  /**
   * `POST /orders`: rejects a body lacking `userEmail`, `bookTitle` or `amount`
   * with 400; otherwise inserts the order in its initial state under the
   * driver's fresh `_id`, whatever `status` or `paymentStatus` the body carried.
   */
  function CreateOrder(orders: Collection, body: Doc, now: int, freshId: ObjectId): (r: Handled)
    ensures MissingAny(body, RequiredFields) ==>
      r == Handled(Failed(400, "Missing userEmail, bookTitle, or amount"), orders)
    ensures !MissingAny(body, RequiredFields) && HasId(orders, freshId) ==> r == Handled(Unhandled, orders)
    ensures !MissingAny(body, RequiredFields) && !HasId(orders, freshId) ==>
      && r.response == Inserted(freshId)
      && |r.after| == |orders| + 1
      && r.after[..|orders|] == orders
      && r.after[|orders|].id == freshId
      && IsNewOrder(body, now, r.after[|orders|].doc)
    ensures UniqueIds(orders) ==> UniqueIds(r.after)
  {
    if !Present(body, "userEmail") || !Present(body, "bookTitle") || !Present(body, "amount") then
      assert RequiredFields[0] == "userEmail" && RequiredFields[1] == "bookTitle";
      assert RequiredFields[2] == "amount";
      Handled(Failed(400, "Missing userEmail, bookTitle, or amount"), orders)
    else
      var rec := body["createdAt" := Date(now)]["status" := Str("pending")]["paymentStatus" := Str("unpaid")];
      match InsertOne(orders, freshId, rec)
      case None => Handled(Unhandled, orders)
      case Some(c) => Handled(Inserted(freshId), c)
  }

  /** `GET /user/orders/:email`: exactly the orders of that user, in natural order. */
  function UserOrders(orders: Collection, email: string): (r: Response)
    ensures r.Docs?
    ensures forall s :: s in r.items <==> s in orders && OwnedBy(s.doc, email)
    ensures forall s :: multiset(r.items)[s] == if OwnedBy(s.doc, email) then multiset(orders)[s] else 0
  {
    assert forall s :: Selects(UserFilter(email), s) <==> OwnedBy(s.doc, email) by {
      forall s: Stored { SelectsUser(s, email); }
    }
    Docs(Find(orders, UserFilter(email)))
  }

  /**
   * `GET /orders/:id`: the order with that `_id`, 404 when there is none, and
   * 500 when the path parameter is not a well-formed ObjectId.
   */
  function GetOrder(orders: Collection, idParam: string, parseId: string -> Option<ObjectId>): (r: Response)
    ensures parseId(idParam).None? ==> r == Failed(500, "Failed to fetch order")
    ensures parseId(idParam).Some? ==>
      (r.Found? || r == Failed(404, "Order not found"))
      && (r.Found? <==> HasId(orders, parseId(idParam).value))
    ensures r.Found? ==>
      exists i :: IsFirst(orders, ById(parseId(idParam).value), i) && orders[i] == r.item
  {
    match parseId(idParam)
    case None => Failed(500, "Failed to fetch order")
    case Some(id) =>
      match FindOne(orders, ById(id))
      case None => Failed(404, "Order not found")
      case Some(o) => Found(o)
  }

  /**
   * `after` is `before` with the first order having `_id` `id` given the
   * `status` `"cancelled"`, whatever it was, and nothing else changed.
   */
  ghost predicate CancelledIn(before: Collection, id: ObjectId, after: Collection)
  {
    && |after| == |before|
    && (forall i :: 0 <= i < |before| ==> after[i].id == before[i].id)
    && (forall i :: 0 <= i < |before| && !IsFirst(before, ById(id), i) ==> after[i] == before[i])
    && (forall i :: IsFirst(before, ById(id), i) ==>
          && "status" in after[i].doc
          && after[i].doc["status"] == Str("cancelled")
          && SameExcept(before[i].doc, after[i].doc, {"status"}))
  }

  /**
   * `PATCH /orders/cancel/:id`: sets the order's `status` to `"cancelled"`
   * with no check of its current status; an unknown `_id` matches nothing and
   * a malformed one answers 500. Either way the response acknowledges the update.
   */
  function CancelOrder(orders: Collection, idParam: string, parseId: string -> Option<ObjectId>): (r: Handled)
    ensures parseId(idParam).None? ==> r == Handled(Failed(500, "Failed to cancel order"), orders)
    ensures parseId(idParam).Some? ==>
      && CancelledIn(orders, parseId(idParam).value, r.after)
      && r.response.Updated?
      && (r.response.matchedCount == 1 <==> HasId(orders, parseId(idParam).value))
      && (r.response.matchedCount == 0 <==> !HasId(orders, parseId(idParam).value))
      && (r.response.modifiedCount == 1 <==> r.after != orders)
      && (r.response.modifiedCount == 0 <==> r.after == orders)
    ensures UniqueIds(orders) ==> UniqueIds(r.after)
  {
    match parseId(idParam)
    case None => Handled(Failed(500, "Failed to cancel order"), orders)
    case Some(id) =>
      var u := UpdateOne(orders, ById(id), map["status" := Str("cancelled")]);
      assert u.matched <==> HasId(orders, id) by {
        if HasId(orders, id) {
          var i :| 0 <= i < |orders| && orders[i].id == id;
          assert orders[i] in orders;
        }
      }
      Handled(Ack(u), u.after)
  }

  /**
   * The `status` an update writes: the body's `status` as sent, or, when the
   * body has none, `null`, since the driver serialises JavaScript `undefined`
   * as BSON null.
   */
  function RequestedStatus(body: Doc): (v: Value)
    ensures "status" in body ==> v == body["status"]
    ensures "status" !in body ==> v == Null
    ensures !Present(body, "status") ==> !Truthy(v)
  {
    if "status" in body then body["status"] else Null
  }

  /** The payment status the update derives: `"paid"` exactly for the string `"paid"`. */
  function DerivedPayment(status: Value): (p: Value)
    ensures p == Str("paid") || p == Str("unpaid")
    ensures p == Str("paid") <==> status == Str("paid")
  {
    Str(if status == Str("paid") then "paid" else "unpaid")
  }

  /**
   * `after` is `before` with the first order having `_id` `id` given `status`
   * and the derived payment status, and nothing else changed.
   */
  ghost predicate StatusWrittenIn(before: Collection, id: ObjectId, status: Value, after: Collection)
  {
    && |after| == |before|
    && (forall i :: 0 <= i < |before| ==> after[i].id == before[i].id)
    && (forall i :: 0 <= i < |before| && !IsFirst(before, ById(id), i) ==> after[i] == before[i])
    && (forall i :: IsFirst(before, ById(id), i) ==>
          && "status" in after[i].doc && "paymentStatus" in after[i].doc
          && after[i].doc["status"] == status
          && (after[i].doc["paymentStatus"] == Str("paid") <==> status == Str("paid"))
          && (after[i].doc["paymentStatus"] == Str("unpaid") <==> status != Str("paid"))
          && SameExcept(before[i].doc, after[i].doc, {"status", "paymentStatus"}))
  }

  /**
   * `PATCH /orders/:id`: writes the body's `status`, whatever it is, and sets
   * `paymentStatus` to `"paid"` when that status is the string `"paid"` and to
   * `"unpaid"` otherwise; an unknown `_id` matches nothing and a malformed one
   * answers 500.
   */
  function UpdateOrderStatus(orders: Collection, idParam: string, body: Doc,
                             parseId: string -> Option<ObjectId>): (r: Handled)
    ensures parseId(idParam).None? ==> r == Handled(Failed(500, "Failed to update order status"), orders)
    ensures parseId(idParam).Some? ==>
      && StatusWrittenIn(orders, parseId(idParam).value, RequestedStatus(body), r.after)
      && r.response.Updated?
      && (r.response.matchedCount == 1 <==> HasId(orders, parseId(idParam).value))
      && (r.response.matchedCount == 0 <==> !HasId(orders, parseId(idParam).value))
      && (r.response.modifiedCount == 1 <==> r.after != orders)
      && (r.response.modifiedCount == 0 <==> r.after == orders)
    ensures UniqueIds(orders) ==> UniqueIds(r.after)
  {
    match parseId(idParam)
    case None => Handled(Failed(500, "Failed to update order status"), orders)
    case Some(id) =>
      var status := RequestedStatus(body);
      var u := UpdateOne(orders, ById(id), map["status" := status, "paymentStatus" := DerivedPayment(status)]);
      assert u.matched <==> HasId(orders, id) by {
        if HasId(orders, id) {
          var i :| 0 <= i < |orders| && orders[i].id == id;
          assert orders[i] in orders;
        }
      }
      Handled(Ack(u), u.after)
  }

  /** `GET /user/payments/:email`: exactly the user's orders whose `status` matches `"paid"`. */
  function PaymentHistory(orders: Collection, email: string): (r: Response)
    ensures r.Docs?
    ensures forall s :: s in r.items <==> s in orders && OwnedBy(s.doc, email) && IsPaid(s.doc)
    ensures forall s :: multiset(r.items)[s]
                        == if OwnedBy(s.doc, email) && IsPaid(s.doc) then multiset(orders)[s] else 0
  {
    assert forall s :: Selects(PaymentFilter(email), s) <==> OwnedBy(s.doc, email) && IsPaid(s.doc) by {
      forall s: Stored { SelectsPayment(s, email); }
    }
    Docs(Find(orders, PaymentFilter(email)))
  }
}
