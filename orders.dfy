/** The order engine of `transaction.routes.ts`: placing an order (request
    validation, the per-item existence and stock checks, the totals, and the
    rows the atomic write produces), the per-order detail with totals derived
    from the books' current prices, and the per-order quantity of the list. */
module Orders {
  import opened Common
  import opened Schema

  /** A request item that passed its checks, as the backend's
      `processedBooks` records it: the book, the price read, the stock to
      write back and the quantity. */
  datatype Line = Line(bookId: Id, price: int, newStock: int, quantity: int)

  /** What a successful placement answers: the new order's id and totals. */
  datatype Receipt = Receipt(orderId: Id, totalQuantity: int, totalPrice: int)

  // ---------------------------------------------------------------------
  // Validation
  // ---------------------------------------------------------------------

  /** The request check: `userId` must be truthy and `items` a non-empty
      array; its elements are the request items. */
  function RequestItems(body: map<string, Json>): (r: Result<seq<Json>>)
    ensures r.Err? ==> r.error == InvalidRequest
    ensures r.Ok? <==>
      Truthy(Field(body, "userId")) && Field(body, "items").Arr? && Field(body, "items").elems != []
    ensures r.Ok? ==> r.value == Field(body, "items").elems
  {
    var userId, items := Field(body, "userId"), Field(body, "items");
    if !Truthy(userId) || !Truthy(items) || !items.Arr? || |items.elems| == 0 then Err(InvalidRequest)
    else Ok(items.elems)
  }

  /** One round of the item loop: the shape check, the book lookup (which
      does not look at the soft-delete marker) and the stock check. */
  function CheckItem(books: map<Id, Book>, item: Json): (r: Result<Line>)
    ensures r.Ok? ==>
      && !Nullish(item)
      && Prop(item, "bookId") == Str(r.value.bookId)
      && Prop(item, "quantity") == Num(r.value.quantity)
      && r.value.quantity > 0
      && r.value.bookId in books
      && r.value.price == books[r.value.bookId].price
      && r.value.newStock == books[r.value.bookId].stockQuantity - r.value.quantity >= 0
    ensures r == Err(Internal) <==>
      Nullish(item) || (ItemShapeOk(item) && !Prop(item, "bookId").Str?)
    ensures r == Err(InvalidRequest) <==> !Nullish(item) && !ItemShapeOk(item)
    ensures r == Err(NotFound) <==>
      !Nullish(item) && ItemShapeOk(item) && Prop(item, "bookId").Str? && Prop(item, "bookId").s !in books
    ensures r == Err(InsufficientStock) <==>
      && !Nullish(item) && ItemShapeOk(item) && Prop(item, "bookId").Str?
      && Prop(item, "bookId").s in books
      && books[Prop(item, "bookId").s].stockQuantity < Prop(item, "quantity").n
  {
    if Nullish(item) then Err(Internal)  // reading `item.bookId` throws
    else
      var bookId, quantity := Prop(item, "bookId"), Prop(item, "quantity");
      if !Truthy(bookId) || !Truthy(quantity) || !quantity.Num? || quantity.n <= 0 then Err(InvalidRequest)
      else if !bookId.Str? then Err(Internal)  // the query builder refuses a non-string id
      else if bookId.s !in books then Err(NotFound)
      else
        var book := books[bookId.s];
        if book.stockQuantity < quantity.n then Err(InsufficientStock)
        else Ok(Line(bookId.s, book.price, book.stockQuantity - quantity.n, quantity.n))
  }

  /** The item shape check: a truthy `bookId` and a positive number as `quantity`. */
  predicate ItemShapeOk(item: Json)
    requires !Nullish(item)
  {
    Truthy(Prop(item, "bookId")) && Prop(item, "quantity").Num? && Prop(item, "quantity").n > 0
  }

  /** The item loop as a whole: items are checked in input order and the
      first failure ends it. */
  function Validate(books: map<Id, Book>, items: seq<Json>): Result<seq<Line>>
    decreases |items|
  {
    if items == [] then Ok([])
    else
      match Validate(books, items[..|items| - 1])
      case Err(e) => Err(e)
      case Ok(lines) =>
        match CheckItem(books, items[|items| - 1])
        case Err(e) => Err(e)
        case Ok(line) => Ok(lines + [line])
  }

  /** Once a prefix of the items fails, the whole request fails the same way. */
  lemma {:induction false} ValidatePrefixFailure(books: map<Id, Book>, items: seq<Json>, j: nat)
    requires j <= |items|
    requires Validate(books, items[..j]).Err?
    ensures Validate(books, items) == Validate(books, items[..j])
    decreases |items|
  {
    if j < |items| {
      var front := items[..|items| - 1];
      assert front[..j] == items[..j];
      ValidatePrefixFailure(books, front, j);
    } else {
      assert items[..j] == items;
    }
  }

  /** A successful validation yields one line per item, in input order, each
      the outcome of that item's own check. */
  lemma {:induction false} ValidateLines(books: map<Id, Book>, items: seq<Json>)
    requires Validate(books, items).Ok?
    ensures |Validate(books, items).value| == |items|
    ensures forall k :: 0 <= k < |items| ==> CheckItem(books, items[k]) == Ok(Validate(books, items).value[k])
    decreases |items|
  {
    if items != [] {
      var front := items[..|items| - 1];
      ValidateLines(books, front);
    }
  }

  /** What a validated line guarantees about the books it was checked
      against: the book exists, the quantity is positive, and the line
      carries the book's price and its stock minus the quantity, which is
      not negative. */
  predicate LinesFit(books: map<Id, Book>, lines: seq<Line>) {
    forall k :: 0 <= k < |lines| ==>
      && lines[k].bookId in books
      && lines[k].quantity > 0
      && lines[k].price == books[lines[k].bookId].price
      && lines[k].newStock == books[lines[k].bookId].stockQuantity - lines[k].quantity >= 0
  }

  lemma {:induction false} ValidatedLinesFit(books: map<Id, Book>, items: seq<Json>)
    requires Validate(books, items).Ok?
    ensures |Validate(books, items).value| == |items|
    ensures LinesFit(books, Validate(books, items).value)
    decreases |items|
  {
    if items != [] {
      ValidatedLinesFit(books, items[..|items| - 1]);
    }
  }

  /** First failure wins: validation succeeds exactly when every item passes
      its check, and otherwise fails with the error of the first item that
      does not. */
  lemma {:induction false} ValidateFirstFailure(books: map<Id, Book>, items: seq<Json>)
    ensures Validate(books, items).Ok? <==> forall k :: 0 <= k < |items| ==> CheckItem(books, items[k]).Ok?
    ensures Validate(books, items).Err? ==>
      exists k :: 0 <= k < |items|
        && CheckItem(books, items[k]) == Err(Validate(books, items).error)
        && forall j :: 0 <= j < k ==> CheckItem(books, items[j]).Ok?
    decreases |items|
  {
    if items != [] {
      var n := |items| - 1;
      var front := items[..n];
      ValidateFirstFailure(books, front);
      assert forall k :: 0 <= k < n ==> front[k] == items[k];
      if Validate(books, front).Err? {
        var k :| 0 <= k < n
          && CheckItem(books, front[k]) == Err(Validate(books, front).error)
          && forall j :: 0 <= j < k ==> CheckItem(books, front[j]).Ok?;
        assert CheckItem(books, items[k]) == Err(Validate(books, items).error);
      } else if CheckItem(books, items[n]).Err? {
        assert forall j :: 0 <= j < n ==> CheckItem(books, items[j]).Ok?;
      }
    }
  }

  /** The sum of price times quantity: the response's `totalPrice`. */
  function TotalPrice(lines: seq<Line>): int {
    if lines == [] then 0
    else TotalPrice(lines[..|lines| - 1]) + lines[|lines| - 1].price * lines[|lines| - 1].quantity
  }

  /** `items.reduce((sum, item) => sum + item.quantity, 0)` over the request
      items; validation lets only present items with a numeric quantity through. */
  function RequestQuantity(items: seq<Json>): int {
    if items == [] then 0
    else
      var item := items[|items| - 1];
      RequestQuantity(items[..|items| - 1])
        + (if !Nullish(item) && Prop(item, "quantity").Num? then Prop(item, "quantity").n else 0)
  }

  /** The receipt's quantity, summed over the request items, equals the sum
      over the validated lines. */
  lemma {:induction false} ReceiptQuantity(books: map<Id, Book>, items: seq<Json>)
    requires Validate(books, items).Ok?
    ensures TotalQuantity(Validate(books, items).value) == RequestQuantity(items)
  {
    if items != [] {
      var front := items[..|items| - 1];
      ReceiptQuantity(books, front);
      var lines := Validate(books, front).value;
      var line := CheckItem(books, items[|items| - 1]).value;
      assert Validate(books, items).value == lines + [line];
      assert (lines + [line])[..|lines|] == lines;
    }
  }

  /** The sum of quantities: the response's `totalQuantity`. */
  function TotalQuantity(lines: seq<Line>): int {
    if lines == [] then 0
    else TotalQuantity(lines[..|lines| - 1]) + lines[|lines| - 1].quantity
  }

  /** The item loop of order placement: it checks the items in order, stops
      at the first failure, and accumulates the total price of the items
      that passed. */
  method CheckOrderItems(books: map<Id, Book>, items: seq<Json>) returns (r: Result<seq<Line>>, totalPrice: int)
    ensures r == Validate(books, items)
    ensures r.Ok? ==> totalPrice == TotalPrice(r.value)
  {
    var processed: seq<Line> := [];
    totalPrice := 0;
    var i := 0;
    while i < |items|
      invariant 0 <= i <= |items|
      invariant Validate(books, items[..i]) == Ok(processed)
      invariant totalPrice == TotalPrice(processed)
    {
      var checked := CheckItem(books, items[i]);
      assert items[..i + 1][..i] == items[..i];
      if checked.Err? {
        ValidatePrefixFailure(books, items, i + 1);
        r := Err(checked.error);
        return;
      }
      var line := checked.value;
      assert (processed + [line])[..|processed|] == processed;
      totalPrice := totalPrice + line.price * line.quantity;
      processed := processed + [line];
      i := i + 1;
    }
    assert items[..i] == items;
    r := Ok(processed);
  }

  // ---------------------------------------------------------------------
  // The rows the atomic write produces
  // ---------------------------------------------------------------------

  /** One `book.update` of the stock column. */
  function SetStock(books: map<Id, Book>, id: Id, stock: int): map<Id, Book> {
    if id in books then books[id := books[id].(stockQuantity := stock)] else books
  }

  /** The stock loop of the atomic write: each line overwrites its book's
      stock with the value computed during validation, in line order. */
  function ApplyStock(books: map<Id, Book>, lines: seq<Line>): map<Id, Book> {
    if lines == [] then books
    else
      var last := lines[|lines| - 1];
      SetStock(ApplyStock(books, lines[..|lines| - 1]), last.bookId, last.newStock)
  }

  /** The `createMany` rows: one order item per line, in line order. */
  function NewItems(orderId: Id, lines: seq<Line>): seq<OrderItem> {
    if lines == [] then []
    else
      var last := lines[|lines| - 1];
      NewItems(orderId, lines[..|lines| - 1]) + [OrderItem(orderId, last.bookId, last.quantity)]
  }

  predicate Named(lines: seq<Line>, id: Id) {
    exists k :: 0 <= k < |lines| && lines[k].bookId == id
  }

  /** Exactly one new order item per line: same order, same book and
      quantity, all pointing at the new order. */
  lemma {:induction false} NewItemsMatchLines(orderId: Id, lines: seq<Line>)
    ensures |NewItems(orderId, lines)| == |lines|
    ensures forall k :: 0 <= k < |lines| ==>
      NewItems(orderId, lines)[k] == OrderItem(orderId, lines[k].bookId, lines[k].quantity)
  {
    if lines != [] {
      NewItemsMatchLines(orderId, lines[..|lines| - 1]);
    }
  }

  /** The stock loop touches nothing but stock: the same books, each with
      every other column unchanged, and a book no line names unchanged. */
  lemma {:induction false} ApplyStockFrame(books: map<Id, Book>, lines: seq<Line>)
    ensures ApplyStock(books, lines).Keys == books.Keys
    ensures forall id :: id in books ==>
      ApplyStock(books, lines)[id] == books[id].(stockQuantity := ApplyStock(books, lines)[id].stockQuantity)
    ensures forall id :: id in books && !Named(lines, id) ==> ApplyStock(books, lines)[id] == books[id]
  {
    if lines != [] {
      var front := lines[..|lines| - 1];
      ApplyStockFrame(books, front);
    }
  }

  /** The later write wins: a book's stock after the loop is the value
      computed for the last line that names it. */
  lemma {:induction false} ApplyStockLastWrite(books: map<Id, Book>, lines: seq<Line>, id: Id, k: nat)
    requires id in books
    requires k < |lines| && lines[k].bookId == id
    requires forall j :: k < j < |lines| ==> lines[j].bookId != id
    ensures id in ApplyStock(books, lines)
    ensures ApplyStock(books, lines)[id].stockQuantity == lines[k].newStock
    decreases |lines|
  {
    ApplyStockFrame(books, lines);
    var front := lines[..|lines| - 1];
    ApplyStockFrame(books, front);
    if k < |lines| - 1 {
      ApplyStockLastWrite(books, front, id, k);
    }
  }

  /** What the stock loop does with validated lines (`ValidatedLinesFit`):
      every book named in the request ends with the stock read during
      validation minus the quantity of the last item naming it, which is
      never negative; every other book is unchanged. */
  lemma OrderStockOutcome(books: map<Id, Book>, lines: seq<Line>)
    requires LinesFit(books, lines)
    ensures var after := ApplyStock(books, lines);
      && after.Keys == books.Keys
      && (forall id :: id in books && !Named(lines, id) ==> after[id] == books[id])
      && (forall id, k ::
            (0 <= k < |lines| && lines[k].bookId == id && forall j :: k < j < |lines| ==> lines[j].bookId != id) ==>
              && id in books
              && after[id] == books[id].(stockQuantity := books[id].stockQuantity - lines[k].quantity)
              && after[id].stockQuantity >= 0)
  {
    ApplyStockFrame(books, lines);
    forall id, k | 0 <= k < |lines| && lines[k].bookId == id
      && (forall j :: k < j < |lines| ==> lines[j].bookId != id)
      ensures id in books
      ensures ApplyStock(books, lines)[id] == books[id].(stockQuantity := books[id].stockQuantity - lines[k].quantity)
      ensures books[id].stockQuantity - lines[k].quantity >= 0
    {
      LastItemOutcome(books, lines, id, k);
    }
  }

  /** One book of `OrderStockOutcome`: the last line naming it decides its stock. */
  lemma LastItemOutcome(books: map<Id, Book>, lines: seq<Line>, id: Id, k: nat)
    requires LinesFit(books, lines)
    requires k < |lines| && lines[k].bookId == id
    requires forall j :: k < j < |lines| ==> lines[j].bookId != id
    ensures id in books && id in ApplyStock(books, lines)
    ensures ApplyStock(books, lines)[id] == books[id].(stockQuantity := books[id].stockQuantity - lines[k].quantity)
    ensures books[id].stockQuantity - lines[k].quantity >= 0
  {
    ApplyStockFrame(books, lines);
    ApplyStockLastWrite(books, lines, id, k);
  }

  /** A book ordered twice in one request is checked twice against the same
      stock and written twice, so 6 + 6 copies of a book with 10 in stock
      both pass and the stock ends at 4: twelve copies are sold from ten. */
  lemma DuplicateItemsOversell()
    ensures var book := Book("Dune", "Herbert", "Chilton", None, None, 50, 10, "g", false);
      var books := map["b" := book];
      var item := Obj(map["bookId" := Str("b"), "quantity" := Num(6)]);
      var v := Validate(books, [item, item]);
      && v.Ok?
      && TotalQuantity(v.value) == 12
      && "b" in ApplyStock(books, v.value)
      && ApplyStock(books, v.value)["b"].stockQuantity == 4
  {
    var book := Book("Dune", "Herbert", "Chilton", None, None, 50, 10, "g", false);
    var books := map["b" := book];
    var item := Obj(map["bookId" := Str("b"), "quantity" := Num(6)]);
    var line := Line("b", 50, 4, 6);
    assert CheckItem(books, item) == Ok(line);
    var one, two := [item], [item, item];
    assert one[..0] == [] && two[..1] == one;
    assert Validate(books, one[..0]) == Ok([]);
    assert one[0] == item && two[1] == item;
    assert [] + [line] == [line] && [line] + [line] == [line, line];
    assert Validate(books, one) == Ok([line]);
    assert Validate(books, two) == Ok([line, line]);
    var lines := [line, line];
    assert lines[..1] == [line] && [line][..0] == [];
    assert ApplyStock(books, [line][..0]) == books;
    assert ApplyStock(books, [line])["b"].stockQuantity == 4;
    assert TotalQuantity([line]) == 6;
  }

  // ---------------------------------------------------------------------
  // Order detail and the list's per-order quantity
  // ---------------------------------------------------------------------

  /** A line of the detail response; the subtotal uses the book's current price. */
  datatype DetailLine = DetailLine(bookId: Id, bookTitle: string, quantity: int, subtotalPrice: int)

  datatype Detail = Detail(id: Id, userId: Id, items: seq<DetailLine>, totalQuantity: int, totalPrice: int)

  /** The items of one order, in table order. */
  function ItemsOf(items: seq<OrderItem>, orderId: Id): seq<OrderItem> {
    if items == [] then []
    else
      var last := items[|items| - 1];
      ItemsOf(items[..|items| - 1], orderId) + (if last.orderId == orderId then [last] else [])
  }

  /** The sum of the items' quantities. */
  function ItemQuantities(items: seq<OrderItem>): int {
    if items == [] then 0 else ItemQuantities(items[..|items| - 1]) + items[|items| - 1].quantity
  }

  /** The list endpoint's `totalQuantity` of one order. */
  function OrderQuantity(items: seq<OrderItem>, orderId: Id): int {
    ItemQuantities(ItemsOf(items, orderId))
  }

  /** Joins each item with its book; a missing book makes the join fail. */
  function DetailLines(books: map<Id, Book>, items: seq<OrderItem>): (r: Result<seq<DetailLine>>)
    ensures r.Err? <==> exists k :: 0 <= k < |items| && items[k].bookId !in books
    ensures r.Err? ==> r.error == Internal
    ensures r.Ok? ==> |r.value| == |items| && forall k :: 0 <= k < |items| ==>
      var book := books[items[k].bookId];
      r.value[k] == DetailLine(items[k].bookId, book.title, items[k].quantity, items[k].quantity * book.price)
  {
    if items == [] then Ok([])
    else
      var last := items[|items| - 1];
      match DetailLines(books, items[..|items| - 1])
      case Err(e) => Err(e)
      case Ok(lines) =>
        if last.bookId !in books then Err(Internal)
        else
          var book := books[last.bookId];
          Ok(lines + [DetailLine(last.bookId, book.title, last.quantity, last.quantity * book.price)])
  }

  function LineQuantities(lines: seq<DetailLine>): int {
    if lines == [] then 0 else LineQuantities(lines[..|lines| - 1]) + lines[|lines| - 1].quantity
  }

  function LineSubtotals(lines: seq<DetailLine>): int {
    if lines == [] then 0 else LineSubtotals(lines[..|lines| - 1]) + lines[|lines| - 1].subtotalPrice
  }

  /** `GET /:id`: the order with its lines, subtotals and totals. */
  function OrderDetail(books: map<Id, Book>, orders: map<Id, Order>, items: seq<OrderItem>, orderId: Id): Result<Detail> {
    if orderId == "" then Err(InvalidRequest)
    else if orderId !in orders then Err(NotFound)
    else
      match DetailLines(books, ItemsOf(items, orderId))
      case Err(e) => Err(e)
      case Ok(lines) => Ok(Detail(orderId, orders[orderId].userId, lines, LineQuantities(lines), LineSubtotals(lines)))
  }

  /** The price of items at the books' current prices. */
  function CurrentPrice(books: map<Id, Book>, items: seq<OrderItem>): int
    requires forall k :: 0 <= k < |items| ==> items[k].bookId in books
  {
    if items == [] then 0
    else
      var last := items[|items| - 1];
      CurrentPrice(books, items[..|items| - 1]) + last.quantity * books[last.bookId].price
  }

  lemma {:induction false} ItemsOfAppend(a: seq<OrderItem>, b: seq<OrderItem>, orderId: Id)
    ensures ItemsOf(a + b, orderId) == ItemsOf(a, orderId) + ItemsOf(b, orderId)
    decreases |b|
  {
    if b == [] {
      assert a + b == a;
    } else {
      var b' := b[..|b| - 1];
      assert (a + b)[..|a + b| - 1] == a + b';
      ItemsOfAppend(a, b', orderId);
    }
  }

  lemma {:induction false} ItemsOfNone(items: seq<OrderItem>, orderId: Id)
    requires forall k :: 0 <= k < |items| ==> items[k].orderId != orderId
    ensures ItemsOf(items, orderId) == []
  {
    if items != [] {
      ItemsOfNone(items[..|items| - 1], orderId);
    }
  }

  lemma {:induction false} ItemsOfAll(items: seq<OrderItem>, orderId: Id)
    requires forall k :: 0 <= k < |items| ==> items[k].orderId == orderId
    ensures ItemsOf(items, orderId) == items
  {
    if items != [] {
      ItemsOfAll(items[..|items| - 1], orderId);
    }
  }

  lemma {:induction false} DetailSums(books: map<Id, Book>, items: seq<OrderItem>)
    requires DetailLines(books, items).Ok?
    ensures LineQuantities(DetailLines(books, items).value) == ItemQuantities(items)
    ensures LineSubtotals(DetailLines(books, items).value) == CurrentPrice(books, items)
  {
    if items != [] {
      DetailSums(books, items[..|items| - 1]);
    }
  }

  /** The detail of a known order: every line's subtotal is its quantity
      times the book's current price, `totalPrice` is the sum of the
      subtotals at current prices and `totalQuantity` equals the quantity the
      list endpoint shows for the order. An unknown id gives NotFound, and
      when every item's book exists the detail always succeeds. */
  lemma DetailTotals(books: map<Id, Book>, orders: map<Id, Order>, items: seq<OrderItem>, orderId: Id)
    ensures orderId != "" && orderId !in orders ==> OrderDetail(books, orders, items, orderId) == Err(NotFound)
    ensures orderId in orders && orderId != "" && (forall k :: 0 <= k < |items| ==> items[k].bookId in books) ==>
      OrderDetail(books, orders, items, orderId).Ok?
    ensures OrderDetail(books, orders, items, orderId).Ok? ==>
      var d := OrderDetail(books, orders, items, orderId).value;
      var mine := ItemsOf(items, orderId);
      && |d.items| == |mine|
      && (forall k :: 0 <= k < |mine| ==>
            mine[k].bookId in books && d.items[k].subtotalPrice == mine[k].quantity * books[mine[k].bookId].price)
      && d.totalQuantity == OrderQuantity(items, orderId)
      && d.totalPrice == CurrentPrice(books, mine)
  {
    if orderId in orders && orderId != "" {
      var mine := ItemsOf(items, orderId);
      if forall k :: 0 <= k < |items| ==> items[k].bookId in books {
        ItemsOfSubset(items, orderId);
      }
      if DetailLines(books, mine).Ok? {
        DetailSums(books, mine);
      }
    }
  }

  lemma {:induction false} ItemsOfSubset(items: seq<OrderItem>, orderId: Id)
    ensures forall k :: 0 <= k < |ItemsOf(items, orderId)| ==> ItemsOf(items, orderId)[k] in items
  {
    if items != [] {
      ItemsOfSubset(items[..|items| - 1], orderId);
    }
  }

  lemma {:induction false} NewItemsSums(books: map<Id, Book>, after: map<Id, Book>, orderId: Id, lines: seq<Line>)
    requires forall k :: 0 <= k < |lines| ==> lines[k].bookId in after && after[lines[k].bookId].price == lines[k].price
    ensures forall k :: 0 <= k < |NewItems(orderId, lines)| ==> NewItems(orderId, lines)[k].bookId in after
    ensures ItemQuantities(NewItems(orderId, lines)) == TotalQuantity(lines)
    ensures CurrentPrice(after, NewItems(orderId, lines)) == TotalPrice(lines)
  {
    NewItemsMatchLines(orderId, lines);
    if lines != [] {
      var front := lines[..|lines| - 1];
      NewItemsSums(books, after, orderId, front);
      var last := lines[|lines| - 1];
      assert last.quantity * after[last.bookId].price == last.price * last.quantity;
    }
  }

  /** The detail of an order just placed reproduces the receipt: with the
      stock rewritten and the new rows added, and no price changed since,
      `totalQuantity` and `totalPrice` equal those placement answered. */
  lemma FreshOrderDetail(books: map<Id, Book>, orders: map<Id, Order>, items: seq<OrderItem>,
                         requestItems: seq<Json>, orderId: Id, userId: Id)
    requires Validate(books, requestItems).Ok?
    requires orderId != "" && orderId !in orders
    requires forall k :: 0 <= k < |items| ==> items[k].orderId in orders
    ensures var lines := Validate(books, requestItems).value;
      var d := OrderDetail(ApplyStock(books, lines), orders[orderId := Order(userId)],
                           items + NewItems(orderId, lines), orderId);
      && d.Ok?
      && d.value.totalQuantity == TotalQuantity(lines)
      && d.value.totalPrice == TotalPrice(lines)
  {
    var lines := Validate(books, requestItems).value;
    ValidatedLinesFit(books, requestItems);
    FreshDetailOfLines(books, orders, items, lines, orderId, userId);
  }

  lemma FreshDetailOfLines(books: map<Id, Book>, orders: map<Id, Order>, items: seq<OrderItem>,
                           lines: seq<Line>, orderId: Id, userId: Id)
    requires LinesFit(books, lines)
    requires orderId != "" && orderId !in orders
    requires forall k :: 0 <= k < |items| ==> items[k].orderId in orders
    ensures var d := OrderDetail(ApplyStock(books, lines), orders[orderId := Order(userId)],
                                 items + NewItems(orderId, lines), orderId);
      && d.Ok?
      && d.value.totalQuantity == TotalQuantity(lines)
      && d.value.totalPrice == TotalPrice(lines)
  {
    var after := ApplyStock(books, lines);
    var created := NewItems(orderId, lines);
    PricesKept(books, lines);
    FreshItemsOf(orders, items, lines, orderId);
    NewItemsSums(books, after, orderId, lines);
    DetailSums(after, created);
  }

  /** The stock rewrites keep every named book and its price. */
  lemma PricesKept(books: map<Id, Book>, lines: seq<Line>)
    requires LinesFit(books, lines)
    ensures forall k :: 0 <= k < |lines| ==>
      lines[k].bookId in ApplyStock(books, lines) && ApplyStock(books, lines)[lines[k].bookId].price == lines[k].price
  {
    ApplyStockFrame(books, lines);
  }

  /** The items of a fresh order are exactly the rows created for it. */
  lemma FreshItemsOf(orders: map<Id, Order>, items: seq<OrderItem>, lines: seq<Line>, orderId: Id)
    requires orderId !in orders
    requires forall k :: 0 <= k < |items| ==> items[k].orderId in orders
    ensures ItemsOf(items + NewItems(orderId, lines), orderId) == NewItems(orderId, lines)
  {
    NewItemsMatchLines(orderId, lines);
    ItemsOfAppend(items, NewItems(orderId, lines), orderId);
    ItemsOfNone(items, orderId);
    ItemsOfAll(NewItems(orderId, lines), orderId);
  }
}
