/**
 * Properties that relate several requests: what a later read sees after a
 * write, and what repeating a write does.
 */
module Lifecycle {
  import opened Wrappers
  import opened Json
  import opened DocStore
  import opened Http
  import Books
  import Orders

  /** Cancelling twice leaves the store as cancelling once, and the second cancel modifies nothing. */
  lemma CancelIdempotent(orders: Collection, idParam: string, parseId: string -> Option<ObjectId>)
    ensures Orders.CancelOrder(Orders.CancelOrder(orders, idParam, parseId).after, idParam, parseId).after
            == Orders.CancelOrder(orders, idParam, parseId).after
    ensures parseId(idParam).Some? ==>
      Orders.CancelOrder(Orders.CancelOrder(orders, idParam, parseId).after, idParam, parseId).response.modifiedCount == 0
  {
    if parseId(idParam).Some? {
      UpdateOneIdempotent(orders, parseId(idParam).value, map["status" := Str("cancelled")]);
    }
  }

  /** Repeating a status update leaves the store as updating once. */
  lemma UpdateStatusIdempotent(orders: Collection, idParam: string, body: Doc,
                               parseId: string -> Option<ObjectId>)
    ensures Orders.UpdateOrderStatus(Orders.UpdateOrderStatus(orders, idParam, body, parseId).after,
                                     idParam, body, parseId).after
            == Orders.UpdateOrderStatus(orders, idParam, body, parseId).after
  {
    if parseId(idParam).Some? {
      var status := Orders.RequestedStatus(body);
      UpdateOneIdempotent(orders, parseId(idParam).value,
                          map["status" := status, "paymentStatus" := Orders.DerivedPayment(status)]);
    }
  }

  /** An update with status `"paid"` puts the order into its owner's payment history. */
  lemma PaidOrderInHistory(orders: Collection, idParam: string, body: Doc,
                           parseId: string -> Option<ObjectId>, i: int, email: string)
    requires UniqueIds(orders)
    requires parseId(idParam).Some?
    requires "status" in body && body["status"] == Str("paid")
    requires 0 <= i < |orders| && orders[i].id == parseId(idParam).value
    requires Orders.OwnedBy(orders[i].doc, email)
    ensures Orders.UpdateOrderStatus(orders, idParam, body, parseId).after[i]
            in Orders.PaymentHistory(Orders.UpdateOrderStatus(orders, idParam, body, parseId).after, email).items
    ensures Orders.UpdateOrderStatus(orders, idParam, body, parseId).after[i].doc["paymentStatus"] == Str("paid")
  {
    var id := parseId(idParam).value;
    var after := Orders.UpdateOrderStatus(orders, idParam, body, parseId).after;
    UniqueIdIsFirst(orders, id, i);
    assert IsFirst(orders, ById(id), i);
    assert "userEmail" in orders[i].doc;
    assert after[i].doc["userEmail"] == orders[i].doc["userEmail"];
    assert after[i] in after;
  }

  /** After a cancel, no order with that `_id` is in anyone's payment history. */
  lemma CancelledOrderNotInHistory(orders: Collection, idParam: string,
                                   parseId: string -> Option<ObjectId>, email: string)
    requires UniqueIds(orders)
    requires parseId(idParam).Some?
    ensures forall s :: s in Orders.PaymentHistory(Orders.CancelOrder(orders, idParam, parseId).after, email).items
                        ==> s.id != parseId(idParam).value
  {
    var id := parseId(idParam).value;
    var after := Orders.CancelOrder(orders, idParam, parseId).after;
    forall s | s in Orders.PaymentHistory(after, email).items
      ensures s.id != id
    {
      assert s in after;
      var i :| 0 <= i < |after| && after[i] == s;
      UniqueIdIsFirst(orders, id, i);
    }
  }

  /** Paying for an order and then cancelling it takes it back out of the payment history. */
  lemma PayThenCancel(orders: Collection, idParam: string, body: Doc,
                      parseId: string -> Option<ObjectId>, i: int, email: string)
    requires UniqueIds(orders)
    requires parseId(idParam).Some?
    requires "status" in body && body["status"] == Str("paid")
    requires 0 <= i < |orders| && orders[i].id == parseId(idParam).value
    requires Orders.OwnedBy(orders[i].doc, email)
    ensures var paid := Orders.UpdateOrderStatus(orders, idParam, body, parseId).after;
            && (exists s :: s in Orders.PaymentHistory(paid, email).items && s.id == parseId(idParam).value)
            && (forall s :: s in Orders.PaymentHistory(Orders.CancelOrder(paid, idParam, parseId).after, email).items ==>
                  s.id != parseId(idParam).value)
  {
    var paid := Orders.UpdateOrderStatus(orders, idParam, body, parseId).after;
    PaidOrderInHistory(orders, idParam, body, parseId, i, email);
    assert paid[i].id == parseId(idParam).value;
    CancelledOrderNotInHistory(paid, idParam, parseId, email);
  }

  /** Placing an order never changes anyone's payment history: a new order is `"pending"`. */
  lemma NewOrderNotInHistory(orders: Collection, body: Doc, now: int, freshId: ObjectId, email: string)
    ensures Orders.PaymentHistory(Orders.CreateOrder(orders, body, now, freshId).after, email)
            == Orders.PaymentHistory(orders, email)
  {
    var r := Orders.CreateOrder(orders, body, now, freshId);
    if r.after != orders {
      var s := r.after[|orders|];
      assert r.after == orders + [s];
      FindAppend(orders, s, Orders.PaymentFilter(email));
      Orders.SelectsPayment(s, email);
      assert !EqualsString(Str("pending"), "paid");
    }
  }

  /** A placed order appears, last, among its owner's orders. */
  lemma NewOrderInUserOrders(orders: Collection, body: Doc, now: int, freshId: ObjectId, email: string)
    requires !MissingAny(body, Orders.RequiredFields) && !HasId(orders, freshId)
    requires "userEmail" in body && body["userEmail"] == Str(email)
    ensures var after := Orders.CreateOrder(orders, body, now, freshId).after;
            Orders.UserOrders(after, email).items == Orders.UserOrders(orders, email).items + [after[|orders|]]
  {
    var after := Orders.CreateOrder(orders, body, now, freshId).after;
    var s := after[|orders|];
    assert after == orders + [s];
    FindAppend(orders, s, Orders.UserFilter(email));
    Orders.SelectsUser(s, email);
    assert s.doc["userEmail"] == body["userEmail"];
  }

  /** A book created without a truthy `status` is published and appears, last, in the catalogue. */
  lemma NewBookListed(books: Collection, body: Doc, now: int, freshId: ObjectId)
    requires !MissingAny(body, Books.RequiredFields) && !HasId(books, freshId)
    requires !Present(body, "status")
    ensures var after := Books.CreateBook(books, body, now, freshId).after;
            Books.ListBooks(after).items == Books.ListBooks(books).items + [after[|books|]]
  {
    var after := Books.CreateBook(books, body, now, freshId).after;
    var s := after[|books|];
    assert after == books + [s];
    FindAppend(books, s, Books.PublishedFilter);
    Books.SelectsPublished(s);
  }

  /** A book created with a status that does not match `"published"` stays out of the catalogue. */
  lemma UnpublishedBookHidden(books: Collection, body: Doc, now: int, freshId: ObjectId)
    requires "status" in body && Truthy(body["status"]) && !EqualsString(body["status"], "published")
    ensures Books.ListBooks(Books.CreateBook(books, body, now, freshId).after) == Books.ListBooks(books)
  {
    var after := Books.CreateBook(books, body, now, freshId).after;
    if after != books {
      var s := after[|books|];
      assert after == books + [s];
      FindAppend(books, s, Books.PublishedFilter);
      Books.SelectsPublished(s);
    }
  }

  /** Cancelling an order leaves every user's order list holding the same `_id`s. */
  lemma CancelKeepsUserOrders(orders: Collection, idParam: string,
                              parseId: string -> Option<ObjectId>, email: string)
    ensures Ids(Orders.UserOrders(Orders.CancelOrder(orders, idParam, parseId).after, email).items)
            == Ids(Orders.UserOrders(orders, email).items)
  {
    var after := Orders.CancelOrder(orders, idParam, parseId).after;
    forall i | 0 <= i < |orders|
      ensures Selects(Orders.UserFilter(email), orders[i]) <==> Selects(Orders.UserFilter(email), after[i])
    {
      Orders.SelectsUser(orders[i], email);
      Orders.SelectsUser(after[i], email);
      if parseId(idParam).Some? && IsFirst(orders, ById(parseId(idParam).value), i) {
        assert "userEmail" in orders[i].doc <==> "userEmail" in after[i].doc;
      }
    }
    FindIdsAgree(orders, after, Orders.UserFilter(email));
  }

  /** A status update leaves every user's order list holding the same `_id`s. */
  lemma UpdateKeepsUserOrders(orders: Collection, idParam: string, body: Doc,
                              parseId: string -> Option<ObjectId>, email: string)
    ensures Ids(Orders.UserOrders(Orders.UpdateOrderStatus(orders, idParam, body, parseId).after, email).items)
            == Ids(Orders.UserOrders(orders, email).items)
  {
    var after := Orders.UpdateOrderStatus(orders, idParam, body, parseId).after;
    forall i | 0 <= i < |orders|
      ensures Selects(Orders.UserFilter(email), orders[i]) <==> Selects(Orders.UserFilter(email), after[i])
    {
      Orders.SelectsUser(orders[i], email);
      Orders.SelectsUser(after[i], email);
      if parseId(idParam).Some? && IsFirst(orders, ById(parseId(idParam).value), i) {
        assert "userEmail" in orders[i].doc <==> "userEmail" in after[i].doc;
      }
    }
    FindIdsAgree(orders, after, Orders.UserFilter(email));
  }

  /** Reading an order back after a status update shows the written status and derived payment status. */
  lemma UpdateThenGet(orders: Collection, idParam: string, body: Doc, parseId: string -> Option<ObjectId>)
    requires parseId(idParam).Some? && HasId(orders, parseId(idParam).value)
    ensures var got := Orders.GetOrder(Orders.UpdateOrderStatus(orders, idParam, body, parseId).after, idParam, parseId);
            && got.Found?
            && got.item.doc["status"] == Orders.RequestedStatus(body)
            && got.item.doc["paymentStatus"] == Orders.DerivedPayment(Orders.RequestedStatus(body))
  {
    var id := parseId(idParam).value;
    var after := Orders.UpdateOrderStatus(orders, idParam, body, parseId).after;
    var k := FirstIndex(orders, ById(id));
    assert IsFirst(orders, ById(id), k) by {
      var i :| 0 <= i < |orders| && orders[i].id == id;
    }
    assert HasId(after, id) by { assert after[k].id == id; }
    var got := Orders.GetOrder(after, idParam, parseId);
    var j :| IsFirst(after, ById(id), j) && after[j] == got.item;
    assert IsFirst(after, ById(id), k);
    FirstIsUnique(after, ById(id), j, k);
  }

  /**
   * Cancelling a paid order leaves its `paymentStatus` at `"paid"`: cancel
   * writes `status` only.
   */
  lemma CancelKeepsPaymentStatus(orders: Collection, idParam: string,
                                 parseId: string -> Option<ObjectId>, i: int)
    requires 0 <= i < |orders|
    requires "paymentStatus" in orders[i].doc
    ensures var after := Orders.CancelOrder(orders, idParam, parseId).after;
            "paymentStatus" in after[i].doc && after[i].doc["paymentStatus"] == orders[i].doc["paymentStatus"]
  {
  }

  /**
   * The payment history matches `status` with MongoDB's array semantics while
   * the update compares with `===`: an update whose status is the array
   * `["paid"]` lists the order as a payment yet marks it `"unpaid"`.
   */
  lemma ArrayStatusListedAsUnpaidPayment(orders: Collection, idParam: string, body: Doc,
                                         parseId: string -> Option<ObjectId>, i: int, email: string)
    requires UniqueIds(orders)
    requires parseId(idParam).Some?
    requires "status" in body && body["status"] == Arr([Str("paid")])
    requires 0 <= i < |orders| && orders[i].id == parseId(idParam).value
    requires Orders.OwnedBy(orders[i].doc, email)
    ensures var after := Orders.UpdateOrderStatus(orders, idParam, body, parseId).after;
            && after[i] in Orders.PaymentHistory(after, email).items
            && after[i].doc["paymentStatus"] == Str("unpaid")
  {
    var id := parseId(idParam).value;
    var after := Orders.UpdateOrderStatus(orders, idParam, body, parseId).after;
    UniqueIdIsFirst(orders, id, i);
    assert IsFirst(orders, ById(id), i);
    assert "userEmail" in orders[i].doc;
    assert after[i].doc["userEmail"] == orders[i].doc["userEmail"];
    assert Str("paid") in after[i].doc["status"].items;
    assert after[i] in after;
  }

  /**
   * A status update whose body has no `status` writes `null` as the status
   * and marks the order `"unpaid"`.
   */
  lemma PatchWithoutStatusWritesNull(orders: Collection, idParam: string, body: Doc,
                                     parseId: string -> Option<ObjectId>, i: int)
    requires UniqueIds(orders)
    requires parseId(idParam).Some?
    requires "status" !in body
    requires 0 <= i < |orders| && orders[i].id == parseId(idParam).value
    ensures var after := Orders.UpdateOrderStatus(orders, idParam, body, parseId).after;
            && after[i].doc["status"] == Null
            && after[i].doc["paymentStatus"] == Str("unpaid")
  {
    UniqueIdIsFirst(orders, parseId(idParam).value, i);
  }
}
