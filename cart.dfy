/** The browser's shopping cart. The React state holds a list of cart
    entries that every operation replaces wholesale, so each operation is a
    function from the previous list to the next one. */
module Cart {
  import opened Common

  /** One cart entry: a book with the title and price shown at the time it
      was first added, and the quantity wanted. */
  datatype CartItem = CartItem(id: Id, title: string, price: int, quantity: int)

  /** The book as the catalog page hands it to `addToCart`. */
  datatype BookRef = BookRef(id: Id, title: string, price: int)

  predicate InCart(cart: seq<CartItem>, id: Id) {
    exists i :: 0 <= i < |cart| && cart[i].id == id
  }

  predicate DistinctIds(cart: seq<CartItem>) {
    forall i, j :: 0 <= i < j < |cart| ==> cart[i].id != cart[j].id
  }

  /** The `map` branch of `addToCart`: every entry carrying `id` gets
      `quantity` more. */
  function MergeQuantity(cart: seq<CartItem>, id: Id, quantity: int): seq<CartItem> {
    if cart == [] then []
    else
      var head := if cart[0].id == id then cart[0].(quantity := cart[0].quantity + quantity) else cart[0];
      [head] + MergeQuantity(cart[1..], id, quantity)
  }

  /** `addToCart(book, quantity)`: merge into the entry for the book when
      there is one, otherwise append a new entry at the end. */
  function AddToCart(cart: seq<CartItem>, book: BookRef, quantity: int): seq<CartItem> {
    if InCart(cart, book.id) then MergeQuantity(cart, book.id, quantity)
    else cart + [CartItem(book.id, book.title, book.price, quantity)]
  }

  /** `removeFromCart(id)`: `filter(item => item.id !== id)`. */
  function RemoveFromCart(cart: seq<CartItem>, id: Id): seq<CartItem> {
    if cart == [] then []
    else (if cart[0].id == id then [] else [cart[0]]) + RemoveFromCart(cart[1..], id)
  }

  /** `clearCart()`, after checkout. */
  function ClearCart(): (r: seq<CartItem>)
    ensures |r| == 0 && CartTotal(r) == 0 && TotalItems(r) == 0
  {
    []
  }

  /** `getCartTotal()`: the sum of price times quantity. */
  function CartTotal(cart: seq<CartItem>): int {
    if cart == [] then 0 else cart[0].price * cart[0].quantity + CartTotal(cart[1..])
  }

  /** `getTotalItems()`: the sum of quantities. */
  function TotalItems(cart: seq<CartItem>): int {
    if cart == [] then 0 else cart[0].quantity + TotalItems(cart[1..])
  }

  /** How many entries carry `id`. */
  function Count(cart: seq<CartItem>, id: Id): nat {
    if cart == [] then 0 else (if cart[0].id == id then 1 else 0) + Count(cart[1..], id)
  }

  /** The sum of the stored prices of the entries carrying `id`. */
  function PriceOf(cart: seq<CartItem>, id: Id): int {
    if cart == [] then 0 else (if cart[0].id == id then cart[0].price else 0) + PriceOf(cart[1..], id)
  }

  lemma {:induction false} MergeQuantityAt(cart: seq<CartItem>, id: Id, quantity: int)
    ensures |MergeQuantity(cart, id, quantity)| == |cart|
    ensures forall i :: 0 <= i < |cart| ==>
      MergeQuantity(cart, id, quantity)[i] ==
        if cart[i].id == id then cart[i].(quantity := cart[i].quantity + quantity) else cart[i]
  {
    if cart != [] {
      MergeQuantityAt(cart[1..], id, quantity);
    }
  }

  /** Adding a book already in the cart keeps the length, the order, every
      id, title and price, and raises only the matching quantity. */
  lemma AddToCartMerges(cart: seq<CartItem>, book: BookRef, quantity: int)
    requires InCart(cart, book.id)
    ensures var r := AddToCart(cart, book, quantity);
      && |r| == |cart|
      && forall i :: 0 <= i < |cart| ==>
           && r[i].id == cart[i].id && r[i].title == cart[i].title && r[i].price == cart[i].price
           && r[i].quantity == cart[i].quantity + (if cart[i].id == book.id then quantity else 0)
  {
    MergeQuantityAt(cart, book.id, quantity);
  }

  /** Adding a book not in the cart appends exactly one entry, carrying the
      book's id, title and price and the given quantity. */
  lemma AddToCartAppends(cart: seq<CartItem>, book: BookRef, quantity: int)
    requires !InCart(cart, book.id)
    ensures var r := AddToCart(cart, book, quantity);
      && |r| == |cart| + 1 && r[..|cart|] == cart
      && r[|cart|] == CartItem(book.id, book.title, book.price, quantity)
      && InCart(r, book.id)
  {
    var r := AddToCart(cart, book, quantity);
    assert r[|cart|].id == book.id;
  }

  /** A cart whose ids are distinct keeps them distinct under `addToCart`. */
  lemma AddToCartKeepsIdsDistinct(cart: seq<CartItem>, book: BookRef, quantity: int)
    requires DistinctIds(cart)
    ensures DistinctIds(AddToCart(cart, book, quantity))
  {
    if InCart(cart, book.id) {
      MergeQuantityAt(cart, book.id, quantity);
    }
  }

  lemma {:induction false} TotalsAppend(cart: seq<CartItem>, e: CartItem)
    ensures TotalItems(cart + [e]) == TotalItems(cart) + e.quantity
    ensures CartTotal(cart + [e]) == CartTotal(cart) + e.price * e.quantity
  {
    if cart != [] {
      assert (cart + [e])[1..] == cart[1..] + [e];
      TotalsAppend(cart[1..], e);
    }
  }

  lemma {:induction false} MergeQuantityTotals(cart: seq<CartItem>, id: Id, quantity: int)
    ensures TotalItems(MergeQuantity(cart, id, quantity)) == TotalItems(cart) + quantity * Count(cart, id)
    ensures CartTotal(MergeQuantity(cart, id, quantity)) == CartTotal(cart) + quantity * PriceOf(cart, id)
  {
    if cart != [] {
      MergeQuantityTotals(cart[1..], id, quantity);
      var m := MergeQuantity(cart, id, quantity);
      assert m[1..] == MergeQuantity(cart[1..], id, quantity);
      var p := cart[0].price;
      if cart[0].id == id {
        Distribute(p, cart[0].quantity, quantity);
        Distribute(quantity, p, PriceOf(cart[1..], id));
      }
      Distribute(quantity, if cart[0].id == id then 1 else 0, Count(cart[1..], id));
    }
  }

  lemma Distribute(a: int, b: int, c: int)
    ensures a * (b + c) == a * b + a * c
    ensures (b + c) * a == b * a + c * a
  {
  }

  /** `addToCart(book, q)` raises `getTotalItems` by q for every entry of the
      book (once, when it is new) and `getCartTotal` by q times the price
      already stored for it (the book's given price, when it is new). */
  lemma AddToCartTotals(cart: seq<CartItem>, book: BookRef, quantity: int)
    ensures var r := AddToCart(cart, book, quantity);
      && (InCart(cart, book.id) ==>
            && TotalItems(r) == TotalItems(cart) + quantity * Count(cart, book.id)
            && CartTotal(r) == CartTotal(cart) + quantity * PriceOf(cart, book.id))
      && (!InCart(cart, book.id) ==>
            && TotalItems(r) == TotalItems(cart) + quantity
            && CartTotal(r) == CartTotal(cart) + book.price * quantity)
  {
    if InCart(cart, book.id) {
      MergeQuantityTotals(cart, book.id, quantity);
    } else {
      TotalsAppend(cart, CartItem(book.id, book.title, book.price, quantity));
    }
  }

  lemma {:induction false} SingleEntry(cart: seq<CartItem>, k: int)
    requires DistinctIds(cart) && 0 <= k < |cart|
    ensures Count(cart, cart[k].id) == 1 && PriceOf(cart, cart[k].id) == cart[k].price
  {
    var id := cart[k].id;
    if k == 0 {
      AbsentCounts(cart[1..], id);
    } else {
      SingleEntry(cart[1..], k - 1);
    }
  }

  lemma {:induction false} AbsentCounts(cart: seq<CartItem>, id: Id)
    requires forall i :: 0 <= i < |cart| ==> cart[i].id != id
    ensures Count(cart, id) == 0 && PriceOf(cart, id) == 0
  {
    if cart != [] {
      AbsentCounts(cart[1..], id);
    }
  }

  /** In a cart with distinct ids, `addToCart(book, q)` raises
      `getTotalItems` by exactly q, and `getCartTotal` by exactly q times
      the price stored in the book's entry, or the given price for a new one. */
  lemma {:induction false} AddToCartTotalsDistinct(cart: seq<CartItem>, book: BookRef, quantity: int)
    requires DistinctIds(cart)
    ensures var r := AddToCart(cart, book, quantity);
      && TotalItems(r) == TotalItems(cart) + quantity
      && (forall k :: 0 <= k < |cart| && cart[k].id == book.id ==>
            CartTotal(r) == CartTotal(cart) + quantity * cart[k].price)
      && (!InCart(cart, book.id) ==> CartTotal(r) == CartTotal(cart) + quantity * book.price)
  {
    var r := AddToCart(cart, book, quantity);
    AddToCartTotals(cart, book, quantity);
    if InCart(cart, book.id) {
      var k :| 0 <= k < |cart| && cart[k].id == book.id;
      SingleEntry(cart, k);
      assert TotalItems(r) == TotalItems(cart) + quantity;
      assert CartTotal(r) == CartTotal(cart) + quantity * cart[k].price;
      forall k' | 0 <= k' < |cart| && cart[k'].id == book.id
        ensures cart[k'].price == cart[k].price
      {
        assert k' == k;
      }
    }
  }

  /** `removeFromCart` keeps order: it acts on each part of a list
      separately, and on one entry it drops it exactly when it carries `id`. */
  lemma {:induction false} RemoveFromCartKeepsOrder(a: seq<CartItem>, b: seq<CartItem>, id: Id)
    ensures RemoveFromCart(a + b, id) == RemoveFromCart(a, id) + RemoveFromCart(b, id)
    ensures forall e :: RemoveFromCart([e], id) == if e.id == id then [] else [e]
  {
    RemoveFromCartAppend(a, b, id);
    forall e ensures RemoveFromCart([e], id) == if e.id == id then [] else [e] {
      assert [e][1..] == [];
    }
  }

  lemma {:induction false} RemoveFromCartAppend(a: seq<CartItem>, b: seq<CartItem>, id: Id)
    ensures RemoveFromCart(a + b, id) == RemoveFromCart(a, id) + RemoveFromCart(b, id)
  {
    if a == [] {
      assert a + b == b;
    } else {
      var ab := a + b;
      assert ab[0] == a[0];
      assert ab[1..] == a[1..] + b;
      RemoveFromCartAppend(a[1..], b, id);
      var head := if a[0].id == id then [] else [a[0]];
      assert RemoveFromCart(ab, id) == head + RemoveFromCart(ab[1..], id);
      assert RemoveFromCart(a, id) == head + RemoveFromCart(a[1..], id);
    }
  }

  /** After `removeFromCart(id)` no entry carries `id`, every other entry
      is still there, nothing new appears, and exactly the entries with
      `id` are gone. */
  lemma {:induction false} RemoveFromCartRemoves(cart: seq<CartItem>, id: Id)
    ensures var r := RemoveFromCart(cart, id);
      && !InCart(r, id)
      && (forall e :: e in r <==> e in cart && e.id != id)
      && |r| == |cart| - Count(cart, id)
  {
    if cart != [] {
      RemoveFromCartRemoves(cart[1..], id);
    }
  }

  /** Removing an id that is not in the cart changes nothing. */
  lemma {:induction false} RemoveAbsentIsIdentity(cart: seq<CartItem>, id: Id)
    requires !InCart(cart, id)
    ensures RemoveFromCart(cart, id) == cart
  {
    if cart != [] {
      assert !InCart(cart[1..], id) by {
        forall i | 0 <= i < |cart[1..]| ensures cart[1..][i].id != id {
          assert cart[1..][i] == cart[i + 1];
        }
      }
      RemoveAbsentIsIdentity(cart[1..], id);
    }
  }

  /** Removing the same id twice is the same as removing it once. */
  lemma RemoveFromCartIdempotent(cart: seq<CartItem>, id: Id)
    ensures RemoveFromCart(RemoveFromCart(cart, id), id) == RemoveFromCart(cart, id)
  {
    RemoveFromCartRemoves(cart, id);
    RemoveAbsentIsIdentity(RemoveFromCart(cart, id), id);
  }
}
