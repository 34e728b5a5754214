/** The database as one object: the book, genre, order and order-item tables,
    with the endpoints that write them as methods. Each method runs its
    guards in the endpoint's order and either answers an error having written
    nothing, or performs its writes as one step. */
module Store {
  import opened Common
  import opened Schema
  import opened Orders
  import opened Books
  import opened Genres

  /** The constraints of the schema (unique book titles and genre names over
      all rows, the foreign keys), the positive quantity of every order
      item, and the rule the endpoints keep between them: a book that is not
      soft-deleted belongs to a genre that is not. */
  ghost predicate Consistent(books: map<Id, Book>, genres: map<Id, Genre>, orders: map<Id, Order>,
                             orderItems: seq<OrderItem>, users: set<Id>)
  {
    && (forall a, b :: a in books && b in books && a != b ==> books[a].title != books[b].title)
    && (forall a, b :: a in genres && b in genres && a != b ==> genres[a].name != genres[b].name)
    && (forall id :: id in books ==> books[id].genreId in genres)
    && (forall id :: id in books && !books[id].deleted ==> !genres[books[id].genreId].deleted)
    && (forall o :: o in orders ==> orders[o].userId in users)
    && (forall k :: 0 <= k < |orderItems| ==>
          orderItems[k].orderId in orders && orderItems[k].bookId in books && orderItems[k].quantity > 0)
  }

  /** A placed order keeps the store consistent: the new items reference
      the new order and existing books with positive quantities, and the
      stock rewrites leave titles, genres and deletion markers alone. */
  lemma PlacedOrderConsistent(books: map<Id, Book>, genres: map<Id, Genre>, orders: map<Id, Order>,
                              orderItems: seq<OrderItem>, users: set<Id>,
                              lines: seq<Line>, orderId: Id, userId: Id)
    requires Consistent(books, genres, orders, orderItems, users)
    requires LinesFit(books, lines)
    requires userId in users
    ensures Consistent(ApplyStock(books, lines), genres, orders[orderId := Order(userId)],
                       orderItems + NewItems(orderId, lines), users)
  {
    var after := ApplyStock(books, lines);
    var created := NewItems(orderId, lines);
    NewItemsMatchLines(orderId, lines);
    ApplyStockFrame(books, lines);
    forall k | 0 <= k < |orderItems + created|
      ensures (orderItems + created)[k].bookId in after && (orderItems + created)[k].quantity > 0
    {
      if k >= |orderItems| {
        assert (orderItems + created)[k] == created[k - |orderItems|];
      }
    }
  }

  /** Rewriting one book keeps the store consistent when its title and
      genre stay and it does not come back from soft deletion. */
  lemma RewrittenBookConsistent(books: map<Id, Book>, genres: map<Id, Genre>, orders: map<Id, Order>,
                                orderItems: seq<OrderItem>, users: set<Id>, id: Id, book: Book)
    requires Consistent(books, genres, orders, orderItems, users)
    requires id in books
    requires book.title == books[id].title && book.genreId == books[id].genreId
    requires !book.deleted ==> !books[id].deleted
    ensures Consistent(books[id := book], genres, orders, orderItems, users)
  {
  }

  class Catalog {
    var books: map<Id, Book>
    var genres: map<Id, Genre>
    var orders: map<Id, Order>
    var orderItems: seq<OrderItem>
    /** The user table, which no modelled endpoint writes. */
    const users: set<Id>

    /** The database's constraints and the rule the endpoints keep, over
        this object's tables. */
    ghost predicate Valid()
      reads this
    {
      Consistent(books, genres, orders, orderItems, users)
    }

    /** An empty store over a given set of users. */
    constructor (users: set<Id>)
      ensures Valid()
      ensures this.users == users
      ensures books == map[] && genres == map[] && orders == map[] && orderItems == []
    {
      this.users := users;
      books, genres, orders, orderItems := map[], map[], map[], [];
    }

    // -------------------------------------------------------------------
    // Genres
    // -------------------------------------------------------------------

    /** `POST /genre`: the name must be a non-empty string and held by no
        genre, soft-deleted or not; the new genre is active. */
    method CreateGenre(body: map<string, Json>, newId: Id) returns (r: Result<Id>)
      requires Valid()
      modifies this
      ensures Valid()
      ensures !NameOk(body) ==> r == Err(InvalidRequest)
      ensures NameOk(body) && NameHeld(old(genres), Field(body, "name").s) ==> r == Err(Conflict)
      ensures NameOk(body) && !NameHeld(old(genres), Field(body, "name").s) ==>
        (r.Ok? <==> newId !in old(genres)) && (r.Err? ==> r.error == Internal)
      ensures r.Ok? ==>
        && r.value == newId
        && genres == old(genres)[newId := Genre(Field(body, "name").s, false)]
        && books == old(books) && orders == old(orders) && orderItems == old(orderItems)
      ensures r.Err? ==> unchanged(this)
    {
      var name := Field(body, "name");
      if !Truthy(name) || !name.Str? {
        return Err(InvalidRequest);
      }
      if NameHeld(genres, name.s) {
        return Err(Conflict);
      }
      if newId in genres {
        return Err(Internal);  // the primary key is taken
      }
      genres := genres[newId := Genre(name.s, false)];
      r := Ok(newId);
    }

    /** `PATCH /genre/:id`: only the name of an active genre changes. A new
        name held by another active genre is a conflict; one held only by a
        soft-deleted genre breaks the unique name and the database refuses
        it. Keeping the current name always succeeds. */
    method RenameGenre(genreId: Id, body: map<string, Json>) returns (r: Result<Genre>)
      requires Valid()
      modifies this
      ensures Valid()
      ensures genreId == "" ==> r == Err(InvalidRequest)
      ensures genreId != "" && !NameOk(body) ==> r == Err(InvalidRequest)
      ensures genreId != "" && NameOk(body) && !ActiveGenre(old(genres), genreId) ==> r == Err(NotFound)
      ensures genreId != "" && NameOk(body) && ActiveGenre(old(genres), genreId) ==>
        var name := Field(body, "name").s;
        && (name != old(genres)[genreId].name && ActiveNameHeld(old(genres), name) ==> r == Err(Conflict))
        && (name == old(genres)[genreId].name ==> r.Ok?)
        && (!ActiveNameHeld(old(genres), name) ==> (r.Ok? <==> !NameHeldElsewhere(old(genres), genreId, name)))
        && (r.Err? ==> r.error in {Conflict, Internal})
      ensures r.Ok? ==>
        && genreId in old(genres)
        && r.value == old(genres)[genreId].(name := Field(body, "name").s)
        && genres == old(genres)[genreId := r.value]
        && books == old(books) && orders == old(orders) && orderItems == old(orderItems)
      ensures r.Err? ==> unchanged(this)
    {
      if genreId == "" {
        return Err(InvalidRequest);
      }
      var name := Field(body, "name");
      if !Truthy(name) || !name.Str? {
        return Err(InvalidRequest);
      }
      if !ActiveGenre(genres, genreId) {
        return Err(NotFound);
      }
      var existing := genres[genreId];
      if name.s != existing.name && ActiveNameHeld(genres, name.s) {
        return Err(Conflict);
      }
      if NameHeldElsewhere(genres, genreId, name.s) {
        return Err(Internal);  // the unique name is held by a soft-deleted genre
      }
      var updated := existing.(name := name.s);
      genres := genres[genreId := updated];
      r := Ok(updated);
    }

    /** `DELETE /genre/:id`: an active genre that no active book references
        is soft-deleted, after which it is no longer found. */
    method DeleteGenre(genreId: Id) returns (r: Result<()>)
      requires Valid()
      modifies this
      ensures Valid()
      ensures genreId == "" ==> r == Err(InvalidRequest)
      ensures genreId != "" && !ActiveGenre(old(genres), genreId) ==> r == Err(NotFound)
      ensures genreId != "" && ActiveGenre(old(genres), genreId) ==>
        (GenreInUseBy(old(books), genreId) ==> r == Err(GenreInUse))
        && (!GenreInUseBy(old(books), genreId) ==> r.Ok?)
      ensures r.Ok? ==>
        && genreId in old(genres)
        && genres == old(genres)[genreId := old(genres)[genreId].(deleted := true)]
        && GenreDetail(genres, genreId) == Err(NotFound)
        && books == old(books) && orders == old(orders) && orderItems == old(orderItems)
      ensures r.Err? ==> unchanged(this)
    {
      if genreId == "" {
        return Err(InvalidRequest);
      }
      if !ActiveGenre(genres, genreId) {
        return Err(NotFound);
      }
      if GenreInUseBy(books, genreId) {
        return Err(GenreInUse);
      }
      genres := genres[genreId := genres[genreId].(deleted := true)];
      r := Ok(());
    }

    // -------------------------------------------------------------------
    // Books
    // -------------------------------------------------------------------

    /** `createBook`: the request checks, then a title held by no book
        (soft-deleted or not), then an active genre, then the row; exactly
        one book is added, and only when every check passes. */
    method CreateBook(body: map<string, Json>, newId: Id) returns (r: Result<Id>)
      requires Valid()
      modifies this
      ensures Valid()
      ensures CreateRequestCheck(body).Some? ==> r == Err(InvalidRequest)
      ensures CreateRequestCheck(body).None? ==>
        var title, genreId := Field(body, "title"), Field(body, "genreId").s;
        && (!title.Str? ==> r == Err(Internal))
        && (title.Str? && TitleTaken(old(books), title.s) ==> r == Err(Conflict))
        && (title.Str? && !TitleTaken(old(books), title.s) && !ActiveGenre(old(genres), genreId) ==> r == Err(NotFound))
        && (title.Str? && !TitleTaken(old(books), title.s) && ActiveGenre(old(genres), genreId) ==>
              (r.Ok? <==> NewBook(body).Some? && newId !in old(books)) && (r.Err? ==> r.error == Internal))
      ensures r.Ok? ==>
        && r.value == newId && newId !in old(books) && NewBook(body).Some?
        && books == old(books)[newId := NewBook(body).value]
        && genres == old(genres) && orders == old(orders) && orderItems == old(orderItems)
      ensures r.Err? ==> unchanged(this)
    {
      var check := CreateRequestCheck(body);
      if check.Some? {
        return Err(check.value);
      }
      var title := Field(body, "title");
      if !title.Str? {
        return Err(Internal);  // the lookup by title refuses a non-string
      }
      if TitleTaken(books, title.s) {
        return Err(Conflict);
      }
      var genreId := Field(body, "genreId").s;
      if !ActiveGenre(genres, genreId) {
        return Err(NotFound);
      }
      var row := NewBook(body);
      if row.None? || newId in books {
        return Err(Internal);  // a column of the wrong type, or the primary key is taken
      }
      books := books[newId := row.value];
      r := Ok(newId);
    }

    /** `updateBook`: the whitelist, a non-empty update, an active book;
        then only the description, price and stock quantity of that one
        book change, as the body gives them. */
    method UpdateBook(bookId: Id, body: map<string, Json>) returns (r: Result<Book>)
      requires Valid()
      modifies this
      ensures Valid()
      ensures "hasOwnProperty" in body ==> r == Err(Internal)
      ensures "hasOwnProperty" !in body && (BadNumber(body, "price") || BadNumber(body, "stockQuantity")) ==>
        r == Err(InvalidRequest)
      ensures "hasOwnProperty" !in body && body.Keys * {"description", "price", "stockQuantity"} == {} ==>
        r == Err(InvalidRequest)
      ensures "hasOwnProperty" !in body && bookId == "" ==> r == Err(InvalidRequest)
      ensures
        && "hasOwnProperty" !in body
        && !BadNumber(body, "price") && !BadNumber(body, "stockQuantity")
        && body.Keys * {"description", "price", "stockQuantity"} != {} && bookId != "" ==>
          && (!ActiveBook(old(books), bookId) ==> r == Err(NotFound))
          && (ActiveBook(old(books), bookId) ==>
                (r.Ok? <==> DescriptionValue(Field(body, "description"))) && (r.Err? ==> r.error == Internal))
      ensures r.Ok? ==>
        && "hasOwnProperty" !in body
        && ActiveBook(old(books), bookId)
        && books == old(books)[bookId := r.value]
        && r.value.(description := old(books)[bookId].description,
                    price := old(books)[bookId].price,
                    stockQuantity := old(books)[bookId].stockQuantity) == old(books)[bookId]
        && r.value.price == (if "price" in body then body["price"].n else old(books)[bookId].price)
        && r.value.stockQuantity == (if "stockQuantity" in body then body["stockQuantity"].n else old(books)[bookId].stockQuantity)
        && genres == old(genres) && orders == old(orders) && orderItems == old(orderItems)
        && r.value.description == (match Field(body, "description")
             case Null => None
             case Str(s) => Some(s)
             case _ => old(books)[bookId].description)
      ensures r.Err? ==> unchanged(this)
    {
      var collected := CollectUpdates(body);
      if collected.Err? {
        return Err(collected.error);
      }
      var data := collected.value;
      if |data| == 0 {
        assert data.Keys == {};
        return Err(InvalidRequest);
      }
      if bookId == "" {
        return Err(InvalidRequest);
      }
      if !ActiveBook(books, bookId) {
        return Err(NotFound);
      }
      assert Field(data, "description") == Field(body, "description");
      assert Field(data, "price") == Field(body, "price");
      assert Field(data, "stockQuantity") == Field(body, "stockQuantity");
      var updated := ApplyUpdates(books[bookId], data);
      if updated.Err? {
        return Err(Internal);
      }
      RewrittenBookConsistent(books, genres, orders, orderItems, users, bookId, updated.value);
      books := books[bookId := updated.value];
      r := Ok(updated.value);
    }

    /** `deleteBook`: an active book is soft-deleted and nothing else
        changes; it is then neither found by the detail nor listed. */
    method DeleteBook(bookId: Id) returns (r: Result<()>)
      requires Valid()
      modifies this
      ensures Valid()
      ensures r == Err(InvalidRequest) <==> bookId == ""
      ensures r == Err(NotFound) <==> bookId != "" && !ActiveBook(old(books), bookId)
      ensures r.Ok? ==>
        && bookId in old(books)
        && books == old(books)[bookId := old(books)[bookId].(deleted := true)]
        && BookDetail(books, genres, bookId) == Err(NotFound)
        && (forall filter :: bookId !in Matching(books, filter))
        && genres == old(genres) && orders == old(orders) && orderItems == old(orderItems)
      ensures r.Err? ==> unchanged(this)
    {
      if bookId == "" {
        return Err(InvalidRequest);
      }
      if !ActiveBook(books, bookId) {
        return Err(NotFound);
      }
      RewrittenBookConsistent(books, genres, orders, orderItems, users, bookId, books[bookId].(deleted := true));
      books := books[bookId := books[bookId].(deleted := true)];
      r := Ok(());
    }

    // -------------------------------------------------------------------
    // Orders
    // -------------------------------------------------------------------

    /** The stock loop of the order transaction: each line's book gets the
        stock computed for it during validation, in line order. */
    method RewriteStock(lines: seq<Line>)
      requires forall k :: 0 <= k < |lines| ==> lines[k].bookId in books
      modifies this
      ensures books == ApplyStock(old(books), lines)
      ensures genres == old(genres) && orders == old(orders) && orderItems == old(orderItems)
    {
      for i := 0 to |lines|
        invariant books == ApplyStock(old(books), lines[..i])
        invariant genres == old(genres) && orders == old(orders) && orderItems == old(orderItems)
      {
        assert lines[..i + 1][..i] == lines[..i];
        ApplyStockFrame(old(books), lines[..i]);
        books := books[lines[i].bookId := books[lines[i].bookId].(stockQuantity := lines[i].newStock)];
      }
      assert lines[..|lines|] == lines;
    }

    /** The `$transaction` block: the order row, one item per line, and
        the stock rewrites, as one step. */
    method CommitOrder(lines: seq<Line>, orderId: Id, userId: Id)
      requires Valid()
      requires LinesFit(books, lines)
      requires userId in users && orderId !in orders
      modifies this
      ensures Valid()
      ensures orders == old(orders)[orderId := Order(userId)]
      ensures orderItems == old(orderItems) + NewItems(orderId, lines)
      ensures books == ApplyStock(old(books), lines)
      ensures genres == old(genres)
    {
      PlacedOrderConsistent(books, genres, orders, orderItems, users, lines, orderId, userId);
      orders := orders[orderId := Order(userId)];
      orderItems := orderItems + NewItems(orderId, lines);
      RewriteStock(lines);
    }

    /** `POST /transactions`: the request check and the item loop write
        nothing; then, in one transaction, the order, its items and the
        stock rewrites. A `userId` that is not a known user's id makes the
        database refuse the order, and the transaction writes nothing. */
    method PlaceOrder(body: map<string, Json>, newOrderId: Id) returns (r: Result<Receipt>)
      requires Valid()
      modifies this
      ensures Valid()
      ensures RequestItems(body).Err? ==> r == Err(InvalidRequest)
      ensures RequestItems(body).Ok? && Validate(old(books), RequestItems(body).value).Err? ==>
        r == Err(Validate(old(books), RequestItems(body).value).error)
      ensures RequestItems(body).Ok? && Validate(old(books), RequestItems(body).value).Ok? ==>
        (r.Ok? <==> Field(body, "userId").Str? && Field(body, "userId").s in users && newOrderId !in old(orders))
        && (r.Err? ==> r.error == Internal)
      ensures r.Ok? ==>
        && RequestItems(body).Ok? && Validate(old(books), RequestItems(body).value).Ok?
        && var lines := Validate(old(books), RequestItems(body).value).value;
        && r.value == Receipt(newOrderId, TotalQuantity(lines), TotalPrice(lines))
        && orders == old(orders)[newOrderId := Order(Field(body, "userId").s)]
        && orderItems == old(orderItems) + NewItems(newOrderId, lines)
        && books == ApplyStock(old(books), lines)
        && genres == old(genres)
      ensures r.Err? ==> unchanged(this)
    {
      var items := RequestItems(body);
      if items.Err? {
        return Err(items.error);
      }
      var checked, totalPrice := CheckOrderItems(books, items.value);
      if checked.Err? {
        return Err(checked.error);
      }
      var userId := Field(body, "userId");
      if !userId.Str? || userId.s !in users || newOrderId in orders {
        return Err(Internal);  // the order row is refused and the transaction rolls back
      }
      var lines := checked.value;
      ValidatedLinesFit(books, items.value);
      CommitOrder(lines, newOrderId, userId.s);
      r := Ok(Receipt(newOrderId, TotalQuantity(lines), totalPrice));
    }
  }
}
