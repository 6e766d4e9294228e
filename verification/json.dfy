/**
 * JSON values as they arrive in a parsed request body and as they sit in a
 * stored document, together with JavaScript's notion of truthiness, which the
 * request handlers use to decide whether a field is "present".
 */
module Json {

  /** A JSON value. `Date` stands for the `Date` object the server stores as a timestamp. */
  datatype Value =
    | Null
    | Bool(b: bool)
    | Num(n: real)
    | Str(s: string)
    | Arr(items: seq<Value>)
    | Obj(fields: map<string, Value>)
    | Date(millis: int)

  /** A document: a JSON object. A key that is absent reads as JavaScript `undefined`. */
  type Doc = map<string, Value>

  /** JavaScript truthiness of a value (`!!v`). */
  predicate Truthy(v: Value)
  {
    match v
    case Null => false
    case Bool(b) => b
    case Num(n) => n != 0.0
    case Str(s) => s != ""
    case Arr(_) => true
    case Obj(_) => true
    case Date(_) => true
  }

  /** `!!d.key`: the key exists and its value is truthy. */
  predicate Present(d: Doc, key: string)
  {
    key in d && Truthy(d[key])
  }

  /** Some key of `keys` is absent from `d` or falsy there (`!d.key` for one of them). */
  predicate MissingAny(d: Doc, keys: seq<string>)
  {
    exists k :: k in keys && !Present(d, k)
  }

  /** The falsy values a JSON document can hold: `null`, `false`, `0` and `""`. */
  const Falsy: set<Value> := {Null, Bool(false), Num(0.0), Str("")}

  /** Truthiness is exactly "not one of the falsy values". */
  lemma TruthyIffNotFalsy(v: Value)
    ensures Truthy(v) <==> v !in Falsy
  {
  }

  /** A key is present exactly when it exists with a value outside the falsy list. */
  lemma PresentIffNotFalsy(d: Doc, key: string)
    ensures Present(d, key) <==> key in d && d[key] !in Falsy
  {
    if key in d {
      TruthyIffNotFalsy(d[key]);
    }
  }

  /**
   * MongoDB's equality match of a stored field against a string: the field
   * equals the string, or the field is an array that has the string as an element.
   */
  predicate EqualsString(v: Value, s: string)
  {
    v == Str(s) || (v.Arr? && Str(s) in v.items)
  }

  /** Two documents agree on every key outside `keys`. */
  ghost predicate SameExcept(d: Doc, e: Doc, keys: set<string>)
  {
    forall k :: k !in keys ==> (k in d <==> k in e) && (k in d ==> d[k] == e[k])
  }

  /** MongoDB's `$set`: every key of the patch takes the patch's value, every other key is kept. */
  function Set(d: Doc, patch: Doc): (r: Doc)
    ensures r.Keys == d.Keys + patch.Keys
    ensures forall k :: k in patch ==> r[k] == patch[k]
    ensures SameExcept(d, r, patch.Keys)
  {
    d + patch
  }

  /** `$set` with the same patch twice is `$set` once. */
  lemma SetIdempotent(d: Doc, patch: Doc)
    ensures Set(Set(d, patch), patch) == Set(d, patch)
  {
  }
}
