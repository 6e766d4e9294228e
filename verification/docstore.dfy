/**
 * A MongoDB collection reduced to what the server uses: documents kept in
 * insertion (natural) order, each under a driver-assigned `_id`, with equality
 * filters, `find`, `findOne`, `insertOne` and `updateOne` with `$set`.
 */
module DocStore {
  import opened Wrappers
  import opened Json

  /** A BSON ObjectId: twelve bytes. */
  newtype ObjectId = x: int | 0 <= x < 0x1_0000_0000_0000_0000_0000_0000

  /** A stored document together with its `_id`. */
  datatype Stored = Stored(id: ObjectId, doc: Doc)

  /** A collection in natural order. */
  type Collection = seq<Stored>

  /**
   * The filters the server issues: `{ _id: new ObjectId(...) }`, or a
   * conjunction of field-equals-string conditions such as `{ status: "published" }`.
   */
  datatype Filter = ById(id: ObjectId) | Where(fields: map<string, string>)

  /** Whether a filter selects a stored document. */
  predicate Selects(f: Filter, s: Stored)
  {
    match f
    case ById(id) => s.id == id
    case Where(fields) =>
      forall k :: k in fields ==> k in s.doc && EqualsString(s.doc[k], fields[k])
  }

  /** The collection holds a document with this `_id`. */
  predicate HasId(c: Collection, id: ObjectId)
  {
    exists i :: 0 <= i < |c| && c[i].id == id
  }

  /** No two documents share an `_id` (MongoDB's unique `_id` index). */
  predicate UniqueIds(c: Collection)
  {
    forall i, j :: 0 <= i < j < |c| ==> c[i].id != c[j].id
  }

  /** Position `i` holds the first document the filter selects. */
  predicate IsFirst(c: Collection, f: Filter, i: int)
  {
    0 <= i < |c| && Selects(f, c[i]) && forall j :: 0 <= j < i ==> !Selects(f, c[j])
  }

  /** The `_id`s of a sequence of documents, in order. */
  function Ids(c: Collection): (r: seq<ObjectId>)
    ensures |r| == |c|
    ensures forall i :: 0 <= i < |c| ==> r[i] == c[i].id
  {
    seq(|c|, i requires 0 <= i < |c| => c[i].id)
  }

  /**
   * `find(filter).toArray()`: the selected documents, in natural order, each
   * as often as the collection holds it and no other.
   */
  function Find(c: Collection, f: Filter): (r: Collection)
    ensures forall s :: s in r <==> s in c && Selects(f, s)
    ensures forall s :: multiset(r)[s] == if Selects(f, s) then multiset(c)[s] else 0
    ensures |r| <= |c|
    decreases |c|
  {
    if c == [] then []
    else
      assert c == [c[0]] + c[1..];
      assert multiset(c) == multiset([c[0]]) + multiset(c[1..]);
      if Selects(f, c[0]) then [c[0]] + Find(c[1..], f)
      else Find(c[1..], f)
  }

  /** The position of the first selected document, or `|c|` when there is none. */
  function FirstIndex(c: Collection, f: Filter): (k: nat)
    ensures k <= |c|
    ensures forall j :: 0 <= j < k ==> !Selects(f, c[j])
    ensures k < |c| ==> Selects(f, c[k])
    decreases |c|
  {
    if c == [] then 0
    else if Selects(f, c[0]) then 0
    else 1 + FirstIndex(c[1..], f)
  }

  /** `findOne(filter)`: the first selected document in natural order, or nothing. */
  function FindOne(c: Collection, f: Filter): (r: Option<Stored>)
    ensures r.None? <==> forall s :: s in c ==> !Selects(f, s)
    ensures r.Some? ==> exists i :: IsFirst(c, f, i) && c[i] == r.value
  {
    var k := FirstIndex(c, f);
    if k < |c| then
      assert IsFirst(c, f, k);
      Some(c[k])
    else None
  }

  /**
   * `insertOne(doc)` under the driver-chosen `_id`: appended at the end, or
   * refused (a duplicate-key error) when that `_id` is taken.
   */
  function InsertOne(c: Collection, id: ObjectId, d: Doc): (r: Option<Collection>)
    ensures r.Some? <==> !HasId(c, id)
    ensures r.Some? ==> |r.value| == |c| + 1 && r.value[..|c|] == c && r.value[|c|] == Stored(id, d)
    ensures r.Some? && UniqueIds(c) ==> UniqueIds(r.value)
  {
    if HasId(c, id) then None else Some(c + [Stored(id, d)])
  }

  /** What `updateOne` reports, and the collection it leaves. */
  datatype UpdateOutcome = UpdateOutcome(matched: bool, modified: bool, after: Collection)

  /** `updateOne(filter, { $set: patch })`: the first selected document gets the patch. */
  function UpdateOne(c: Collection, f: Filter, patch: Doc): (r: UpdateOutcome)
    ensures |r.after| == |c|
    ensures forall i :: 0 <= i < |c| ==> r.after[i].id == c[i].id
    ensures forall i :: IsFirst(c, f, i) ==> r.after[i].doc == Set(c[i].doc, patch)
    ensures forall i :: 0 <= i < |c| && !IsFirst(c, f, i) ==> r.after[i] == c[i]
    ensures r.matched <==> exists s :: s in c && Selects(f, s)
    ensures r.modified <==> r.after != c
    ensures UniqueIds(c) ==> UniqueIds(r.after)
  {
    var k := FirstIndex(c, f);
    if k < |c| then
      assert IsFirst(c, f, k);
      var after := c[k := Stored(c[k].id, Set(c[k].doc, patch))];
      assert c[k] in c;
      UpdateOutcome(true, after != c, after)
    else
      UpdateOutcome(false, false, c)
  }

  /** Only one position can be the first selected one. */
  lemma FirstIsUnique(c: Collection, f: Filter, i: int, j: int)
    requires IsFirst(c, f, i) && IsFirst(c, f, j)
    ensures i == j
  {
  }

  /** With unique `_id`s, the document with a given `_id` is the first one `ById` selects. */
  lemma UniqueIdIsFirst(c: Collection, id: ObjectId, i: int)
    requires UniqueIds(c)
    requires 0 <= i < |c|
    ensures IsFirst(c, ById(id), i) <==> c[i].id == id
  {
  }

  /** One step of `find`: the first document, when selected, comes first. */
  lemma FindCons(x: Stored, c: Collection, f: Filter)
    ensures Find([x] + c, f) == (if Selects(f, x) then [x] else []) + Find(c, f)
  {
    assert ([x] + c)[0] == x && ([x] + c)[1..] == c;
  }

  /** `find` keeps natural order: appending a document appends it to the result when selected. */
  lemma {:induction false} FindAppend(c: Collection, s: Stored, f: Filter)
    ensures Find(c + [s], f) == Find(c, f) + (if Selects(f, s) then [s] else [])
    decreases |c|
  {
    var tail := if Selects(f, s) then [s] else [];
    if c == [] {
      FindCons(s, [], f);
      assert c + [s] == [s] + [];
    } else {
      var x, rest := c[0], c[1..];
      var head := if Selects(f, x) then [x] else [];
      assert c == [x] + rest;
      assert c + [s] == [x] + (rest + [s]);
      calc {
        Find(c + [s], f);
        { FindCons(x, rest + [s], f); }
        head + Find(rest + [s], f);
        { FindAppend(rest, s, f); }
        head + (Find(rest, f) + tail);
        (head + Find(rest, f)) + tail;
        { FindCons(x, rest, f); }
        Find(c, f) + tail;
      }
    }
  }

  /** `Ids` of a document followed by more documents. */
  lemma IdsCons(s: Stored, rest: Collection)
    ensures Ids([s] + rest) == [s.id] + Ids(rest)
  {
  }

  /**
   * When two collections differ only in ways the filter cannot see, `find`
   * returns the documents with the same `_id`s.
   */
  lemma {:induction false} FindIdsAgree(c: Collection, d: Collection, f: Filter)
    requires |c| == |d|
    requires forall i :: 0 <= i < |c| ==> c[i].id == d[i].id
    requires forall i :: 0 <= i < |c| ==> (Selects(f, c[i]) <==> Selects(f, d[i]))
    ensures Ids(Find(c, f)) == Ids(Find(d, f))
    decreases |c|
  {
    if c != [] {
      var c', d' := c[1..], d[1..];
      assert forall i :: 0 <= i < |c'| ==> c'[i] == c[i + 1] && d'[i] == d[i + 1];
      FindIdsAgree(c', d', f);
      if Selects(f, c[0]) {
        assert Find(c, f) == [c[0]] + Find(c', f);
        assert Find(d, f) == [d[0]] + Find(d', f);
        IdsCons(c[0], Find(c', f));
        IdsCons(d[0], Find(d', f));
      } else {
        assert Find(c, f) == Find(c', f);
        assert Find(d, f) == Find(d', f);
      }
    }
  }

  /** Applying the same `$set` by `_id` twice leaves the collection as once. */
  lemma UpdateOneIdempotent(c: Collection, id: ObjectId, patch: Doc)
    ensures UpdateOne(UpdateOne(c, ById(id), patch).after, ById(id), patch).after
            == UpdateOne(c, ById(id), patch).after
    ensures !UpdateOne(UpdateOne(c, ById(id), patch).after, ById(id), patch).modified
  {
    var once := UpdateOne(c, ById(id), patch).after;
    var twice := UpdateOne(once, ById(id), patch).after;
    forall i | 0 <= i < |c|
      ensures twice[i] == once[i]
    {
      assert IsFirst(once, ById(id), i) <==> IsFirst(c, ById(id), i);
      if IsFirst(c, ById(id), i) {
        SetIdempotent(c[i].doc, patch);
      }
    }
  }
}
