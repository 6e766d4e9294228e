/**
 * The book routes of the server: the buyer-facing catalogue (`GET /books`),
 * the lookup by custom id (`GET /books/custom/:id`) and book creation by a
 * librarian (`POST /librarian/books`).
 */
module Books {
  import opened Json
  import opened DocStore
  import opened Http

  /** The fields a new book must carry, each present and truthy. */
  const RequiredFields: seq<string> := ["bookName", "bookAuthor", "bookImage", "price", "addedBy"]

  /** The stored book is published: its `status` matches `"published"`. */
  predicate IsPublished(d: Doc)
  {
    "status" in d && EqualsString(d["status"], "published")
  }

  /** The stored book's custom `id` field matches the given string. */
  predicate HasCustomId(d: Doc, id: string)
  {
    "id" in d && EqualsString(d["id"], id)
  }

  /** A buyer may see this book under this custom id. */
  predicate VisibleUnder(d: Doc, id: string)
  {
    HasCustomId(d, id) && IsPublished(d)
  }

  /** `{ status: "published" }` */
  const PublishedFilter: Filter := Where(map["status" := "published"])

  /** `{ id: id, status: "published" }` */
  function CustomIdFilter(id: string): Filter
  {
    Where(map["id" := id, "status" := "published"])
  }

  /** The catalogue filter selects exactly the published books. */
  lemma SelectsPublished(s: Stored)
    ensures Selects(PublishedFilter, s) <==> IsPublished(s.doc)
  {
  }

  /** The custom-id filter selects exactly the published books with that custom id. */
  lemma SelectsCustomId(s: Stored, id: string)
    ensures Selects(CustomIdFilter(id), s) <==> VisibleUnder(s.doc, id)
  {
  }

  /** `GET /books`: the published books, and only those. */
  function ListBooks(books: Collection): (r: Response)
    ensures r.Docs?
    ensures forall s :: s in r.items <==> s in books && IsPublished(s.doc)
    ensures forall s :: multiset(r.items)[s] == if IsPublished(s.doc) then multiset(books)[s] else 0
  {
    var found := Find(books, PublishedFilter);
    assert forall s :: Selects(PublishedFilter, s) <==> IsPublished(s.doc) by {
      forall s: Stored { SelectsPublished(s); }
    }
    Docs(found)
  }

  /**
   * `GET /books/custom/:id`: the first book whose custom `id` matches and
   * which is published; a missing book and an unpublished one both read as 404.
   */
  function GetCustomBook(books: Collection, id: string): (r: Response)
    ensures r.Found? || r == Failed(404, "Book not found or unpublished")
    ensures r.Failed? <==> forall s :: s in books ==> !VisibleUnder(s.doc, id)
    ensures r.Found? ==>
      exists i :: 0 <= i < |books| && books[i] == r.item && VisibleUnder(r.item.doc, id)
                  && forall j :: 0 <= j < i ==> !VisibleUnder(books[j].doc, id)
  {
    assert forall s :: Selects(CustomIdFilter(id), s) <==> VisibleUnder(s.doc, id) by {
      forall s: Stored { SelectsCustomId(s, id); }
    }
    match FindOne(books, CustomIdFilter(id))
    case None => Failed(404, "Book not found or unpublished")
    case Some(b) => Found(b)
  }

  /**
   * `rec` is what the server stores for an accepted body: every supplied field
   * except `createdAt` and `status` kept, `createdAt` the request time, and
   * `status` the supplied one when truthy, `"published"` otherwise.
   */
  ghost predicate IsNewBook(body: Doc, now: int, rec: Doc)
  {
    && rec.Keys == body.Keys + {"createdAt", "status"}
    && SameExcept(body, rec, {"createdAt", "status"})
    && rec["createdAt"] == Date(now)
    && rec["status"] == (if Present(body, "status") then body["status"] else Str("published"))
  }

  /**
   * `POST /librarian/books`: rejects a body lacking a required field with 400;
   * otherwise stamps `createdAt`, defaults `status` and inserts the book under
   * the driver's fresh `_id`.
   */
  function CreateBook(books: Collection, body: Doc, now: int, freshId: ObjectId): (r: Handled)
    ensures MissingAny(body, RequiredFields) ==> r == Handled(Failed(400, "Missing required fields"), books)
    ensures !MissingAny(body, RequiredFields) && HasId(books, freshId) ==> r == Handled(Unhandled, books)
    ensures !MissingAny(body, RequiredFields) && !HasId(books, freshId) ==>
      && r.response == Inserted(freshId)
      && |r.after| == |books| + 1
      && r.after[..|books|] == books
      && r.after[|books|].id == freshId
      && IsNewBook(body, now, r.after[|books|].doc)
    ensures UniqueIds(books) ==> UniqueIds(r.after)
  {
    if !Present(body, "bookName") || !Present(body, "bookAuthor") || !Present(body, "bookImage")
       || !Present(body, "price") || !Present(body, "addedBy")
    then
      assert RequiredFields[0] == "bookName" && RequiredFields[1] == "bookAuthor";
      assert RequiredFields[2] == "bookImage" && RequiredFields[3] == "price";
      assert RequiredFields[4] == "addedBy";
      Handled(Failed(400, "Missing required fields"), books)
    else
      var stamped := body["createdAt" := Date(now)];
      var rec := if !Present(stamped, "status") then stamped["status" := Str("published")] else stamped;
      match InsertOne(books, freshId, rec)
      case None => Handled(Unhandled, books)
      case Some(c) => Handled(Inserted(freshId), c)
  }
}
