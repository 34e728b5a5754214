/** Shared vocabulary: optional values, error kinds, results, parsed JSON
    request values with JavaScript truthiness, and case-insensitive search. */
module Common {

  /** Row identities (UUID strings in the database). */
  type Id = string

  datatype Option<+T> = None | Some(value: T)

  /** The error kinds the endpoints answer with; HTTP status codes and
      messages are reduced to these tags. */
  datatype Error =
    | InvalidRequest     // 400: a field is missing or has the wrong type
    | NotFound           // 404: the row is missing or soft-deleted
    | InsufficientStock  // 400 from order placement: stock below the requested quantity
    | Conflict           // 409: a duplicate book title or genre name
    | GenreInUse         // 400 from genre deletion: active books still reference it
    | Internal           // 500: the runtime or the database refused the request

  datatype Result<+T> = Ok(value: T) | Err(error: Error)

  /** A JSON value as the request parser hands it over. Numbers are integers
      (prices are minor currency units). */
  datatype Json =
    | Undefined
    | Null
    | Bool(b: bool)
    | Num(n: int)
    | Str(s: string)
    | Arr(elems: seq<Json>)
    | Obj(fields: map<string, Json>)

  /** JavaScript truthiness: `!v` is true exactly when this is false. */
  predicate Truthy(v: Json) {
    match v
    case Undefined => false
    case Null => false
    case Bool(b) => b
    case Num(n) => n != 0
    case Str(s) => s != ""
    case Arr(_) => true
    case Obj(_) => true
  }

  /** `undefined` and `null`: reading a property of them throws. */
  predicate Nullish(v: Json) {
    v.Undefined? || v.Null?
  }

  /** Destructuring a request body: an absent key reads as `undefined`. */
  function Field(body: map<string, Json>, key: string): Json {
    if key in body then body[key] else Undefined
  }

  /** `v.key` on a value that is not nullish: an object's own field, and
      `undefined` for every other kind of value and for a missing key. */
  function Prop(v: Json, key: string): Json
    requires !Nullish(v)
  {
    if v.Obj? && key in v.fields then v.fields[key] else Undefined
  }

  /** ASCII lower-casing, as `toLowerCase` does on ASCII letters. */
  function LowerChar(c: char): char {
    if 'A' <= c <= 'Z' then (c as int + 32) as char else c
  }

  function Lower(s: string): (r: string)
    ensures |r| == |s|
    ensures forall i :: 0 <= i < |s| ==> r[i] == LowerChar(s[i])
  {
    if s == [] then [] else [LowerChar(s[0])] + Lower(s[1..])
  }

  /** `needle` occurs as a contiguous piece of `hay`. */
  predicate Contains(hay: string, needle: string)
    decreases |hay|
  {
    needle <= hay || (hay != [] && Contains(hay[1..], needle))
  }

  /** The database's case-insensitive `contains` filter. */
  predicate ContainsInsensitive(hay: string, needle: string) {
    Contains(Lower(hay), Lower(needle))
  }
}

/** The rows of the relational store, one datatype per table. A soft-deleted
    row keeps its place in its table with `deleted` set (the backend's
    non-null `deletedAt` timestamp). */
module Schema {
  import opened Common

  datatype Book = Book(
    title: string,
    writer: string,
    publisher: string,
    publicationYear: Option<int>,
    description: Option<string>,
    price: int,
    stockQuantity: int,
    genreId: Id,
    deleted: bool)

  datatype Genre = Genre(name: string, deleted: bool)

  /** An order header; its total is never stored. */
  datatype Order = Order(userId: Id)

  /** One line of an order. */
  datatype OrderItem = OrderItem(orderId: Id, bookId: Id, quantity: int)

  /** The lookup `findUnique({ where: { id, deletedAt: null } })`. */
  predicate ActiveBook(books: map<Id, Book>, id: Id) {
    id in books && !books[id].deleted
  }

  predicate ActiveGenre(genres: map<Id, Genre>, id: Id) {
    id in genres && !genres[id].deleted
  }
}
