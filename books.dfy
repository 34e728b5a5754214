/** The read side and the request handling of `bookController.ts`: the
    listing query (filter, sort keys, page), the detail lookup, the update
    whitelist, and the checks and conversion of a create request. The writes
    themselves are methods of `Store.Catalog`. */
module Books {
  import opened Common
  import opened Schema
  import opened Pagination

  // ---------------------------------------------------------------------
  // Listing
  // ---------------------------------------------------------------------

  /** The query string of a listing. `page` and `limit` are given as
      `parseInt` leaves them (None for NaN). */
  datatype BookQuery = BookQuery(
    page: Option<int>,
    limit: Option<int>,
    search: Option<string>,
    orderByTitle: Option<string>,
    orderByPublishDate: Option<string>)

  /** The parts of `where` besides `deletedAt: null`: a genre to match and a
      search string. */
  datatype BookFilter = BookFilter(genreId: Option<Id>, search: Option<string>)

  datatype SortKey = ByTitle(dir: Direction) | ByPublicationYear(dir: Direction) | ByCreatedAt(dir: Direction)

  /** What the listing asks the database for and answers: the set of books
      matching `where` (the page is cut from it by `orderBy`, `skip` and
      `take`), and the response's `meta`. */
  datatype BookListing = BookListing(matching: set<Id>, orderBy: seq<SortKey>, skip: int, take: int, meta: Meta)

  /** `(p as string)?.toLowerCase() === word`. */
  predicate LowerIs(p: Option<string>, word: string) {
    p.Some? && Lower(p.value) == word
  }

  /** The search filter: title, writer or publisher contains the search
      string, ignoring case. */
  predicate SearchHit(book: Book, search: string) {
    ContainsInsensitive(book.title, search)
      || ContainsInsensitive(book.writer, search)
      || ContainsInsensitive(book.publisher, search)
  }

  /** A book the filter lets through. */
  predicate Listed(filter: BookFilter, book: Book) {
    && !book.deleted
    && (filter.genreId.Some? ==> book.genreId == filter.genreId.value)
    && (filter.search.Some? ==> SearchHit(book, filter.search.value))
  }

  function Matching(books: map<Id, Book>, filter: BookFilter): set<Id> {
    set id | id in books && Listed(filter, books[id])
  }

  /** Building `where` and `orderBy`. The title direction is always `asc` or
      `desc`, both truthy, so title is always the first key and the
      `createdAt` fallback is never taken. */
  method BuildBookQuery(genreId: Option<Id>, search: Option<string>, orderByTitle: Option<string>, orderByPublishDate: Option<string>)
    returns (filter: BookFilter, orderBy: seq<SortKey>)
    ensures filter.genreId == if genreId.Some? && genreId.value != "" then genreId else None
    ensures filter.search == if search.Some? && search.value != "" then search else None
    ensures 1 <= |orderBy| <= 2
    ensures orderBy[0] == ByTitle(if LowerIs(orderByTitle, "desc") then Desc else Asc)
    ensures |orderBy| == 2 <==> LowerIs(orderByPublishDate, "asc") || LowerIs(orderByPublishDate, "desc")
    ensures |orderBy| == 2 ==> orderBy[1] == ByPublicationYear(if LowerIs(orderByPublishDate, "asc") then Asc else Desc)
    ensures forall k :: 0 <= k < |orderBy| ==> !orderBy[k].ByCreatedAt?
  {
    var titleDirection := if orderByTitle.Some? && Lower(orderByTitle.value) == "desc" then Desc else Asc;
    var publishDate := if orderByPublishDate.Some? then Some(Lower(orderByPublishDate.value)) else None;
    filter := BookFilter(None, None);
    if genreId.Some? && genreId.value != "" {
      filter := filter.(genreId := genreId);
    }
    if search.Some? && search.value != "" {
      filter := filter.(search := search);
    }
    orderBy := [];
    orderBy := orderBy + [ByTitle(titleDirection)];
    if publishDate == Some("asc") || publishDate == Some("desc") {
      orderBy := orderBy + [ByPublicationYear(if publishDate == Some("asc") then Asc else Desc)];
    }
    if |orderBy| == 0 {
      orderBy := orderBy + [ByCreatedAt(Desc)];
    }
  }

  /** `getBooksHandler`, with `genreParam` the route's genre id (None for
      `GET /books`). A genre route with an empty id is refused; a genre that
      is missing or soft-deleted is NotFound; a negative `skip` makes the
      database refuse the query. */
  method ListBooks(books: map<Id, Book>, genres: map<Id, Genre>, genreParam: Option<Id>, q: BookQuery)
    returns (r: Result<BookListing>)
    ensures genreParam == Some("") ==> r == Err(InvalidRequest)
    ensures genreParam.Some? && genreParam.value != "" && !ActiveGenre(genres, genreParam.value) ==> r == Err(NotFound)
    ensures (genreParam.None? || (genreParam.value != "" && ActiveGenre(genres, genreParam.value))) ==>
      (r.Err? <==> Skip(ParamOr(q.page, DefaultPage), ParamOr(q.limit, DefaultLimit)) < 0)
      && (r.Err? ==> r.error == Internal)
    ensures r.Ok? ==>
      var page, limit := ParamOr(q.page, DefaultPage), ParamOr(q.limit, DefaultLimit);
      && (forall id :: id in r.value.matching <==>
            && id in books && !books[id].deleted
            && (genreParam.Some? ==> books[id].genreId == genreParam.value)
            && (q.search.Some? && q.search.value != "" ==> SearchHit(books[id], q.search.value)))
      && r.value.skip == Skip(page, limit) >= 0
      && r.value.take == limit
      && r.value.meta == PageMeta(page, limit, |r.value.matching|)
      && |r.value.orderBy| >= 1
      && r.value.orderBy[0] == ByTitle(if LowerIs(q.orderByTitle, "desc") then Desc else Asc)
      && (|r.value.orderBy| == 2 <==> LowerIs(q.orderByPublishDate, "asc") || LowerIs(q.orderByPublishDate, "desc"))
      && (|r.value.orderBy| == 2 ==>
            r.value.orderBy[1] == ByPublicationYear(if LowerIs(q.orderByPublishDate, "asc") then Asc else Desc))
      && |r.value.orderBy| <= 2
      && forall k :: 0 <= k < |r.value.orderBy| ==> !r.value.orderBy[k].ByCreatedAt?
  {
    if genreParam == Some("") {
      return Err(InvalidRequest);
    }
    var page := ParamOr(q.page, DefaultPage);
    var limit := ParamOr(q.limit, DefaultLimit);
    var skip := (page - 1) * limit;
    var filter, orderBy := BuildBookQuery(genreParam, q.search, q.orderByTitle, q.orderByPublishDate);
    if genreParam.Some? && !ActiveGenre(genres, genreParam.value) {
      return Err(NotFound);
    }
    var matching := Matching(books, filter);
    var totalItems := |matching|;
    if skip < 0 {
      return Err(Internal);
    }
    r := Ok(BookListing(matching, orderBy, skip, limit, PageMeta(page, limit, totalItems)));
  }

  // ---------------------------------------------------------------------
  // Detail
  // ---------------------------------------------------------------------

  /** A book as the detail answers it, with its genre's name. */
  datatype BookView = BookView(id: Id, book: Book, genreName: Option<string>)

  /** `getBookDetail`: only a book that is not soft-deleted is found. */
  function BookDetail(books: map<Id, Book>, genres: map<Id, Genre>, bookId: Id): (r: Result<BookView>)
    ensures r == Err(InvalidRequest) <==> bookId == ""
    ensures r == Err(NotFound) <==> bookId != "" && !ActiveBook(books, bookId)
    ensures r.Ok? ==> ActiveBook(books, bookId) && r.value.id == bookId && r.value.book == books[bookId]
    ensures r.Ok? ==> (r.value.genreName.Some? <==> books[bookId].genreId in genres)
    ensures r.Ok? && r.value.genreName.Some? ==> r.value.genreName.value == genres[books[bookId].genreId].name
  {
    if bookId == "" then Err(InvalidRequest)
    else if !ActiveBook(books, bookId) then Err(NotFound)
    else
      var book := books[bookId];
      Ok(BookView(bookId, book, if book.genreId in genres then Some(genres[book.genreId].name) else None))
  }

  // ---------------------------------------------------------------------
  // Update
  // ---------------------------------------------------------------------

  /** The fields `updateBook` copies from the body, in the order it visits them. */
  const AllowedUpdates: seq<string> := ["description", "price", "stockQuantity"]

  /** A present price or stock quantity that is not a number. */
  predicate BadNumber(body: map<string, Json>, key: string) {
    key in body && !body[key].Num?
  }

  /** The whitelist loop of `updateBook`: it copies the allowed keys the
      body has, and refuses a price or a stock quantity that is not a number.
      A body with its own `hasOwnProperty` key shadows the method, so the
      first `updates.hasOwnProperty(key)` call throws a TypeError, outside
      the handler's `try`; nothing is written and no success is answered. */
  method CollectUpdates(body: map<string, Json>) returns (r: Result<map<string, Json>>)
    ensures r == Err(Internal) <==> "hasOwnProperty" in body
    ensures r == Err(InvalidRequest) <==>
      "hasOwnProperty" !in body && (BadNumber(body, "price") || BadNumber(body, "stockQuantity"))
    ensures r.Err? ==> r.error == Internal || r.error == InvalidRequest
    ensures r.Ok? ==> r.value.Keys == body.Keys * {"description", "price", "stockQuantity"}
    ensures r.Ok? ==> forall k :: k in r.value ==> r.value[k] == body[k]
  {
    var dataToUpdate: map<string, Json> := map[];
    for i := 0 to |AllowedUpdates|
      invariant dataToUpdate.Keys == body.Keys * set j | 0 <= j < i :: AllowedUpdates[j]
      invariant forall k :: k in dataToUpdate ==> dataToUpdate[k] == body[k]
      invariant 0 < i ==> "hasOwnProperty" !in body
      invariant 1 < i ==> !BadNumber(body, "price")
      invariant 2 < i ==> !BadNumber(body, "stockQuantity")
    {
      var key := AllowedUpdates[i];
      if "hasOwnProperty" in body {
        return Err(Internal);
      }
      if key in body {
        if key == "price" && !body[key].Num? {
          return Err(InvalidRequest);
        }
        if key == "stockQuantity" && !body[key].Num? {
          return Err(InvalidRequest);
        }
        dataToUpdate := dataToUpdate[key := body[key]];
      }
    }
    assert (set j | 0 <= j < 3 :: AllowedUpdates[j]) == {"description", "price", "stockQuantity"} by {
      assert AllowedUpdates[0] == "description" && AllowedUpdates[1] == "price" && AllowedUpdates[2] == "stockQuantity";
    }
    r := Ok(dataToUpdate);
  }

  /** A value the database takes as a description: a string, null, or
      `undefined`, which leaves the column out of the write. */
  predicate DescriptionValue(v: Json) {
    v.Undefined? || v.Null? || v.Str?
  }

  /** A value the database takes as a price or stock quantity: a number, or
      `undefined`, which leaves the column out of the write. */
  predicate NumberValue(v: Json) {
    v.Undefined? || v.Num?
  }

  /** The `book.update` with the collected data; a value of the wrong type
      makes the database refuse the write. */
  function ApplyUpdates(book: Book, data: map<string, Json>): (r: Result<Book>)
    ensures r.Err? <==>
      !DescriptionValue(Field(data, "description"))
      || !NumberValue(Field(data, "price")) || !NumberValue(Field(data, "stockQuantity"))
    ensures r.Err? ==> r.error == Internal
    ensures r.Ok? ==>
      && r.value.(description := book.description, price := book.price, stockQuantity := book.stockQuantity) == book
      && r.value.price == (if Field(data, "price").Num? then Field(data, "price").n else book.price)
      && r.value.stockQuantity == (if Field(data, "stockQuantity").Num? then Field(data, "stockQuantity").n else book.stockQuantity)
      && r.value.description == match Field(data, "description")
           case Null => None
           case Str(s) => Some(s)
           case _ => book.description
  {
    var description := Field(data, "description");
    var price := Field(data, "price");
    var stock := Field(data, "stockQuantity");
    if !DescriptionValue(description) || !NumberValue(price) || !NumberValue(stock) then Err(Internal)
    else
      Ok(book.(
        description := if description.Null? then None else if description.Str? then Some(description.s) else book.description,
        price := if price.Num? then price.n else book.price,
        stockQuantity := if stock.Num? then stock.n else book.stockQuantity))
  }

  /** After the whitelist, the write fails only for a description of the
      wrong type; price and stock quantity, when given, are taken over as
      they are. */
  lemma WhitelistedUpdate(book: Book, body: map<string, Json>, data: map<string, Json>)
    requires data.Keys == body.Keys * {"description", "price", "stockQuantity"}
    requires forall k :: k in data ==> data[k] == body[k]
    requires !BadNumber(body, "price") && !BadNumber(body, "stockQuantity")
    ensures ApplyUpdates(book, data).Ok? <==> DescriptionValue(Field(body, "description"))
    ensures var r := ApplyUpdates(book, data);
      r.Ok? ==>
        && ("price" in body ==> Num(r.value.price) == body["price"])
        && ("stockQuantity" in body ==> Num(r.value.stockQuantity) == body["stockQuantity"])
  {
    assert Field(data, "description") == Field(body, "description");
    assert Field(data, "price") == Field(body, "price");
    assert Field(data, "stockQuantity") == Field(body, "stockQuantity");
  }

  // ---------------------------------------------------------------------
  // Create
  // ---------------------------------------------------------------------

  /** The required-field check: truthy title, writer, publisher and
      genreId; price and stock quantity present (zero is allowed). */
  predicate RequiredPresent(body: map<string, Json>) {
    && Truthy(Field(body, "title")) && Truthy(Field(body, "writer")) && Truthy(Field(body, "publisher"))
    && !Field(body, "price").Undefined? && !Field(body, "stockQuantity").Undefined?
    && Truthy(Field(body, "genreId"))
  }

  /** The type check: numeric price and stock quantity, a string genreId. */
  predicate TypesOk(body: map<string, Json>) {
    Field(body, "price").Num? && Field(body, "stockQuantity").Num? && Field(body, "genreId").Str?
  }

  /** The optional-year check: absent or a number. */
  predicate YearOk(body: map<string, Json>) {
    Field(body, "publicationYear").Undefined? || Field(body, "publicationYear").Num?
  }

  /** The request checks before any database access, in order. */
  function CreateRequestCheck(body: map<string, Json>): (r: Option<Error>)
    ensures r.None? <==> RequiredPresent(body) && TypesOk(body) && YearOk(body)
    ensures r.Some? ==> r.value == InvalidRequest
  {
    if !RequiredPresent(body) then Some(InvalidRequest)
    else if !TypesOk(body) then Some(InvalidRequest)
    else if !YearOk(body) then Some(InvalidRequest)
    else None
  }

  /** The row `book.create` makes from the body, or None when the database
      refuses a column's type (a title, writer or publisher that is not a
      string, a description that is not a string or null). */
  function NewBook(body: map<string, Json>): (r: Option<Book>)
    ensures r.Some? <==>
      && Field(body, "title").Str? && Field(body, "writer").Str? && Field(body, "publisher").Str?
      && (Field(body, "publicationYear").Undefined? || Field(body, "publicationYear").Null? || Field(body, "publicationYear").Num?)
      && DescriptionValue(Field(body, "description"))
      && Field(body, "price").Num? && Field(body, "stockQuantity").Num? && Field(body, "genreId").Str?
    ensures r.Some? ==>
      && Str(r.value.title) == Field(body, "title")
      && Str(r.value.writer) == Field(body, "writer")
      && Str(r.value.publisher) == Field(body, "publisher")
      && Num(r.value.price) == Field(body, "price")
      && Num(r.value.stockQuantity) == Field(body, "stockQuantity")
      && Str(r.value.genreId) == Field(body, "genreId")
      && (r.value.publicationYear.Some? <==> Field(body, "publicationYear").Num?)
      && (r.value.publicationYear.Some? ==> Field(body, "publicationYear") == Num(r.value.publicationYear.value))
      && (r.value.description.Some? <==> Field(body, "description").Str?)
      && (r.value.description.Some? ==> Field(body, "description") == Str(r.value.description.value))
      && !r.value.deleted
  {
    var title, writer, publisher := Field(body, "title"), Field(body, "writer"), Field(body, "publisher");
    var year, description := Field(body, "publicationYear"), Field(body, "description");
    var price, stock, genreId := Field(body, "price"), Field(body, "stockQuantity"), Field(body, "genreId");
    if !(title.Str? && writer.Str? && publisher.Str? && price.Num? && stock.Num? && genreId.Str?) then None
    else if !(year.Undefined? || year.Null? || year.Num?) then None
    else if !DescriptionValue(description) then None
    else
      Some(Book(title.s, writer.s, publisher.s,
                if year.Num? then Some(year.n) else None,
                if description.Str? then Some(description.s) else None,
                price.n, stock.n, genreId.s, false))
  }

  /** The title is held by some book, soft-deleted or not (the lookup by
      the unique title has no `deletedAt` filter). */
  predicate TitleTaken(books: map<Id, Book>, title: string) {
    exists id :: id in books && books[id].title == title
  }
}
