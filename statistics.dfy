/** `GET /statistics` of `transaction.routes.ts`: the order count, the sales
    per genre name and the most- and least-sold genre. */
module Statistics {
  import opened Common
  import opened Schema

  /** A dictionary from names to totals in insertion order: the result of
      the database's `groupBy`. */
  type Tally = seq<(string, int)>

  datatype GenreSales = GenreSales(name: string, totalItemsSold: int)

  datatype Stats = Stats(
    totalTransactions: nat,
    mostSoldGenre: Option<GenreSales>,
    leastSoldGenre: Option<GenreSales>)

  /** Add to the key's entry, or append a new entry at the end. */
  function Bump(t: Tally, key: string, amount: int): Tally {
    if t == [] then [(key, amount)]
    else if t[0].0 == key then [(key, t[0].1 + amount)] + t[1..]
    else [t[0]] + Bump(t[1..], key, amount)
  }

  function KeysOf<V>(t: seq<(string, V)>): set<string> {
    set k | 0 <= k < |t| :: t[k].0
  }

  predicate DistinctKeys<V>(t: seq<(string, V)>) {
    forall i, j :: 0 <= i < j < |t| ==> t[i].0 != t[j].0
  }

  /** The sum of the entries whose key is in `keys`. */
  function SumIn(t: Tally, keys: set<string>): int {
    if t == [] then 0 else (if t[0].0 in keys then t[0].1 else 0) + SumIn(t[1..], keys)
  }

  /** The database's `groupBy bookId` with the sum of quantities, one group
      per book in order of first appearance. */
  function Groups(items: seq<OrderItem>): Tally {
    if items == [] then []
    else
      var last := items[|items| - 1];
      Bump(Groups(items[..|items| - 1]), last.bookId, last.quantity)
  }

  // ---------------------------------------------------------------------
  // `salesByGenre`, a plain JavaScript object
  // ---------------------------------------------------------------------

  /** The value of an own property of `salesByGenre`: a number, or the
      string JavaScript makes of `<inherited function> + quantity`. */
  datatype Sales = Number(n: int) | Text

  /** The object's own properties in insertion order, which is the order in
      which `for … in` enumerates them. */
  type SalesTable = seq<(string, Sales)>

  /** The property names every plain object inherits from `Object.prototype`.
      Reading one that is not an own property yields a function (or, for
      `__proto__`, the prototype object), which is truthy. */
  const InheritedNames: set<string> := {
    "constructor", "hasOwnProperty", "isPrototypeOf", "propertyIsEnumerable",
    "toLocaleString", "toString", "valueOf", "__defineGetter__", "__defineSetter__",
    "__lookupGetter__", "__lookupSetter__", "__proto__"}

  predicate Inherited(name: string) {
    name in InheritedNames
  }

  /** Assigning a primitive to `__proto__` is ignored: it never becomes an own property. */
  const ProtoKey := "__proto__"

  /** `x + amount` for an own property's value `x`. */
  function Plus(v: Sales, amount: int): Sales {
    match v
    case Number(n) => Number(n + amount)
    case Text => Text
  }

  /** `d[name] = (d[name] || 0) + amount`. */
  function Assign(t: SalesTable, name: string, amount: int): SalesTable {
    if name == ProtoKey then t else Add(t, name, amount)
  }

  /** The assignment to a name other than `__proto__`: an own property is
      updated in place; otherwise a new one is appended, holding a number
      unless the read fell through to an inherited function. */
  function Add(t: SalesTable, name: string, amount: int): SalesTable {
    if t == [] then [(name, if Inherited(name) then Text else Number(amount))]
    else if t[0].0 == name then [(name, Plus(t[0].1, amount))] + t[1..]
    else [t[0]] + Add(t[1..], name, amount)
  }

  /** Every entry holds a number exactly when its name is not inherited. */
  predicate Typed(t: SalesTable) {
    forall i :: 0 <= i < |t| ==> (t[i].1.Number? <==> !Inherited(t[i].0))
  }

  /** The shape `salesByGenre` keeps: distinct names, no `__proto__`, and
      numbers exactly under names that are not inherited. */
  predicate Shaped(t: SalesTable) {
    DistinctKeys(t) && ProtoKey !in KeysOf(t) && Typed(t)
  }

  /** The sum of the numeric entries whose name is in `names`. */
  function Sold(t: SalesTable, names: set<string>): int {
    if t == [] then 0
    else (if t[0].0 in names && t[0].1.Number? then t[0].1.n else 0) + Sold(t[1..], names)
  }

  /** The genre name of a book, through `booksWithGenre`: the book and its
      genre are looked up whether or not they are soft-deleted. */
  function GenreOf(books: map<Id, Book>, genres: map<Id, Genre>, bookId: Id): Option<string> {
    if bookId in books && books[bookId].genreId in genres then Some(genres[books[bookId].genreId].name)
    else None
  }

  /** The first loop: each group's total is added under its book's genre
      name; a group whose book or genre is missing is skipped. */
  function SalesByGenre(books: map<Id, Book>, genres: map<Id, Genre>, groups: Tally): SalesTable {
    if groups == [] then []
    else
      var t := SalesByGenre(books, genres, groups[..|groups| - 1]);
      var last := groups[|groups| - 1];
      match GenreOf(books, genres, last.0)
      case None => t
      case Some(name) => Assign(t, name, last.1)
  }

  /** The reference definition: the quantity over all order items whose
      book belongs to a genre named `name`. */
  function GenreSold(books: map<Id, Book>, genres: map<Id, Genre>, items: seq<OrderItem>, name: string): int {
    if items == [] then 0
    else
      var last := items[|items| - 1];
      GenreSold(books, genres, items[..|items| - 1], name)
        + (if GenreOf(books, genres, last.bookId) == Some(name) then last.quantity else 0)
  }

  /** Entry `j` passes the scan's `typeof sales === 'number'` test. */
  predicate Counted(t: SalesTable, j: int) {
    0 <= j < |t| && t[j].1.Number?
  }

  /** Entry `k` is the first counted entry with the largest total. */
  ghost predicate FirstMax(t: SalesTable, k: int) {
    && Counted(t, k)
    && (forall j :: Counted(t, j) ==> t[j].1.n <= t[k].1.n)
    && (forall j :: Counted(t, j) && j < k ==> t[j].1.n < t[k].1.n)
  }

  /** Entry `k` is the first counted entry with the smallest total. */
  ghost predicate FirstMin(t: SalesTable, k: int) {
    && Counted(t, k)
    && (forall j :: Counted(t, j) ==> t[k].1.n <= t[j].1.n)
    && (forall j :: Counted(t, j) && j < k ==> t[k].1.n < t[j].1.n)
  }

  lemma FirstExtremeUnique(t: SalesTable, a: int, b: int)
    ensures FirstMax(t, a) && FirstMax(t, b) ==> a == b
    ensures FirstMin(t, a) && FirstMin(t, b) ==> a == b
  {
  }

  // ---------------------------------------------------------------------
  // The two loops
  // ---------------------------------------------------------------------

  /** The loop filling `salesByGenre`. */
  method TallyByGenre(books: map<Id, Book>, genres: map<Id, Genre>, groups: Tally) returns (salesByGenre: SalesTable)
    ensures salesByGenre == SalesByGenre(books, genres, groups)
  {
    salesByGenre := [];
    for i := 0 to |groups|
      invariant salesByGenre == SalesByGenre(books, genres, groups[..i])
    {
      assert groups[..i + 1][..i] == groups[..i];
      var (bookId, sold) := groups[i];
      if bookId in books && books[bookId].genreId in genres {
        var genreName := genres[books[bookId].genreId].name;
        salesByGenre := Assign(salesByGenre, genreName, sold);
      }
    }
    assert groups[..|groups|] == groups;
  }

  /** The min/max scan over the own properties. An entry that is not a
      number is skipped; the first number seeds both results; later ones
      replace them only when strictly larger or strictly smaller, so ties
      keep the entry seen first. */
  method ScanExtremes(salesByGenre: SalesTable) returns (most: Option<(string, int)>, least: Option<(string, int)>)
    ensures most.None? <==> forall j :: !Counted(salesByGenre, j)
    ensures least.None? <==> forall j :: !Counted(salesByGenre, j)
    ensures most.Some? ==>
      exists k :: FirstMax(salesByGenre, k) && salesByGenre[k].0 == most.value.0 && salesByGenre[k].1.n == most.value.1
    ensures least.Some? ==>
      exists k :: FirstMin(salesByGenre, k) && salesByGenre[k].0 == least.value.0 && salesByGenre[k].1.n == least.value.1
  {
    var t := salesByGenre;
    var mostSoldGenre: Option<string> := None;
    var leastSoldGenre: Option<string> := None;
    var maxSales := -1;
    var minSales := 0;  // stands for Infinity: the first number overwrites it before any comparison
    var isFirstGenre := true;
    ghost var mostAt, leastAt := 0, 0;
    for i := 0 to |t|
      invariant isFirstGenre <==> forall j :: Counted(t, j) ==> i <= j
      invariant isFirstGenre ==> mostSoldGenre.None? && leastSoldGenre.None?
      invariant !isFirstGenre ==>
        && Counted(t, mostAt) && mostAt < i
        && mostSoldGenre == Some(t[mostAt].0) && maxSales == t[mostAt].1.n
        && (forall j :: Counted(t, j) && j < i ==> t[j].1.n <= maxSales)
        && (forall j :: Counted(t, j) && j < mostAt ==> t[j].1.n < maxSales)
      invariant !isFirstGenre ==>
        && Counted(t, leastAt) && leastAt < i
        && leastSoldGenre == Some(t[leastAt].0) && minSales == t[leastAt].1.n
        && (forall j :: Counted(t, j) && j < i ==> minSales <= t[j].1.n)
        && (forall j :: Counted(t, j) && j < leastAt ==> minSales < t[j].1.n)
    {
      var (genreName, sales) := t[i];
      if sales.Number? {
        assert Counted(t, i);
        if isFirstGenre {
          mostSoldGenre, leastSoldGenre := Some(genreName), Some(genreName);
          maxSales, minSales := sales.n, sales.n;
          mostAt, leastAt := i, i;
          isFirstGenre := false;
        } else {
          if sales.n > maxSales {
            maxSales, mostSoldGenre, mostAt := sales.n, Some(genreName), i;
          }
          if sales.n < minSales {
            minSales, leastSoldGenre, leastAt := sales.n, Some(genreName), i;
          }
        }
      }
    }
    most := if mostSoldGenre.Some? then Some((mostSoldGenre.value, maxSales)) else None;
    least := if leastSoldGenre.Some? then Some((leastSoldGenre.value, minSales)) else None;
    if !isFirstGenre {
      assert FirstMax(t, mostAt);
      assert FirstMin(t, leastAt);
    }
  }

  /** `name ? { name, totalItemsSold } : null`: an empty genre name is falsy. */
  function Report(e: Option<(string, int)>): (r: Option<GenreSales>)
    ensures r.Some? <==> e.Some? && e.value.0 != ""
    ensures r.Some? ==> r.value == GenreSales(e.value.0, e.value.1)
  {
    if e.Some? && e.value.0 != "" then Some(GenreSales(e.value.0, e.value.1)) else None
  }

  /** The reported most-sold genre is the first largest counted entry, and
      it is null only when that entry's name is empty or nothing is counted. */
  ghost predicate MostReported(t: SalesTable, r: Option<GenreSales>) {
    && (r.Some? ==>
          && r.value.name != ""
          && exists k :: FirstMax(t, k) && t[k].0 == r.value.name && t[k].1.n == r.value.totalItemsSold)
    && (r.None? ==> forall k :: FirstMax(t, k) ==> t[k].0 == "")
  }

  /** The same for the least-sold genre. */
  ghost predicate LeastReported(t: SalesTable, r: Option<GenreSales>) {
    && (r.Some? ==>
          && r.value.name != ""
          && exists k :: FirstMin(t, k) && t[k].0 == r.value.name && t[k].1.n == r.value.totalItemsSold)
    && (r.None? ==> forall k :: FirstMin(t, k) ==> t[k].0 == "")
  }

  lemma ScanReported(t: SalesTable, most: Option<(string, int)>, least: Option<(string, int)>)
    requires most.None? <==> forall j :: !Counted(t, j)
    requires least.None? <==> forall j :: !Counted(t, j)
    requires most.Some? ==>
      exists k :: FirstMax(t, k) && t[k].0 == most.value.0 && t[k].1.n == most.value.1
    requires least.Some? ==>
      exists k :: FirstMin(t, k) && t[k].0 == least.value.0 && t[k].1.n == least.value.1
    ensures MostReported(t, Report(most)) && LeastReported(t, Report(least))
  {
    forall a, b ensures FirstMax(t, a) && FirstMax(t, b) ==> a == b
      ensures FirstMin(t, a) && FirstMin(t, b) ==> a == b
    {
      FirstExtremeUnique(t, a, b);
    }
    if most.Some? {
      var k :| FirstMax(t, k) && t[k].0 == most.value.0 && t[k].1.n == most.value.1;
    }
    if least.Some? {
      var k :| FirstMin(t, k) && t[k].0 == least.value.0 && t[k].1.n == least.value.1;
    }
  }

  /** The statistics response. */
  method SalesStatistics(books: map<Id, Book>, genres: map<Id, Genre>, orders: map<Id, Order>, items: seq<OrderItem>)
    returns (s: Stats)
    ensures s.totalTransactions == |orders|
    ensures MostReported(SalesByGenre(books, genres, Groups(items)), s.mostSoldGenre)
    ensures LeastReported(SalesByGenre(books, genres, Groups(items)), s.leastSoldGenre)
  {
    var groups := Groups(items);
    var salesByGenre := TallyByGenre(books, genres, groups);
    var most, least := ScanExtremes(salesByGenre);
    ScanReported(salesByGenre, most, least);
    s := Stats(|orders|, Report(most), Report(least));
  }

  // ---------------------------------------------------------------------
  // What the per-genre totals mean
  // ---------------------------------------------------------------------

  lemma BumpFacts(t: Tally, key: string, amount: int, keys: set<string>)
    ensures SumIn(Bump(t, key, amount), keys) == SumIn(t, keys) + (if key in keys then amount else 0)
    ensures KeysOf(Bump(t, key, amount)) == KeysOf(t) + {key}
    ensures DistinctKeys(t) ==> DistinctKeys(Bump(t, key, amount))
  {
    BumpSum(t, key, amount, keys);
    BumpKeys(t, key, amount);
    if DistinctKeys(t) {
      BumpDistinct(t, key, amount);
    }
  }

  /** Bumping adds the amount to the sum over any key set holding the key. */
  lemma {:induction false} BumpSum(t: Tally, key: string, amount: int, keys: set<string>)
    ensures SumIn(Bump(t, key, amount), keys) == SumIn(t, keys) + (if key in keys then amount else 0)
  {
    if t != [] {
      BumpSum(t[1..], key, amount, keys);
      var b := Bump(t, key, amount);
      if t[0].0 == key {
        assert b[1..] == t[1..];
      } else {
        assert b[1..] == Bump(t[1..], key, amount);
      }
    }
  }

  lemma KeysCons<V>(t: seq<(string, V)>)
    requires t != []
    ensures KeysOf(t) == {t[0].0} + KeysOf(t[1..])
  {
    forall x | x in KeysOf(t) ensures x in {t[0].0} + KeysOf(t[1..]) {
      var k :| 0 <= k < |t| && t[k].0 == x;
      if k > 0 { assert t[1..][k - 1].0 == x; }
    }
    forall x | x in KeysOf(t[1..]) ensures x in KeysOf(t) {
      var k :| 0 <= k < |t[1..]| && t[1..][k].0 == x;
      assert t[k + 1].0 == x;
    }
    assert t[0].0 in KeysOf(t);
  }

  lemma DistinctTail<V>(t: seq<(string, V)>)
    requires t != [] && DistinctKeys(t)
    ensures DistinctKeys(t[1..])
  {
    forall i, j | 0 <= i < j < |t[1..]| ensures t[1..][i].0 != t[1..][j].0 {
      assert t[1..][i] == t[i + 1] && t[1..][j] == t[j + 1];
    }
  }

  /** Bumping adds the key to the key set and nothing else. */
  lemma {:induction false} BumpKeys(t: Tally, key: string, amount: int)
    ensures KeysOf(Bump(t, key, amount)) == KeysOf(t) + {key}
  {
    var b := Bump(t, key, amount);
    if t == [] {
      assert b[0].0 == key;
    } else {
      KeysCons(t);
      KeysCons(b);
      if t[0].0 == key {
        assert b[1..] == t[1..];
      } else {
        assert b[1..] == Bump(t[1..], key, amount);
        BumpKeys(t[1..], key, amount);
      }
    }
  }

  /** Bumping keeps the keys distinct. */
  lemma {:induction false} BumpDistinct(t: Tally, key: string, amount: int)
    requires DistinctKeys(t)
    ensures DistinctKeys(Bump(t, key, amount))
  {
    if t != [] && t[0].0 != key {
      var b := Bump(t, key, amount);
      var rest := Bump(t[1..], key, amount);
      assert b == [t[0]] + rest;
      DistinctTail(t);
      BumpDistinct(t[1..], key, amount);
      BumpKeys(t[1..], key, amount);
      KeysCons(t);
      forall i, j | 0 <= i < j < |b| ensures b[i].0 != b[j].0 {
        if i == 0 {
          assert b[j].0 in KeysOf(rest) by { assert rest[j - 1] == b[j]; }
        } else {
          assert b[i] == rest[i - 1] && b[j] == rest[j - 1];
        }
      }
    }
  }

  lemma {:induction false} SumInAppend(t: Tally, e: (string, int), keys: set<string>)
    ensures SumIn(t + [e], keys) == SumIn(t, keys) + (if e.0 in keys then e.1 else 0)
  {
    if t != [] {
      assert (t + [e])[1..] == t[1..] + [e];
      SumInAppend(t[1..], e, keys);
    }
  }

  lemma {:induction false} SumInMissing(t: Tally, keys: set<string>)
    requires forall i :: 0 <= i < |t| ==> t[i].0 !in keys
    ensures SumIn(t, keys) == 0
  {
    if t != [] {
      SumInMissing(t[1..], keys);
    }
  }

  /** An assignment to a name other than `__proto__` adds the amount to the
      numeric sum over any name set holding the name, unless the name is
      inherited, whose entry is text. */
  lemma {:induction false} AddSum(t: SalesTable, name: string, amount: int, names: set<string>)
    requires Typed(t)
    ensures Sold(Add(t, name, amount), names) == Sold(t, names) + (if name in names && !Inherited(name) then amount else 0)
  {
    var a := Add(t, name, amount);
    if t == [] {
      assert a[1..] == [];
    } else if t[0].0 == name {
      assert a[1..] == t[1..];
    } else {
      assert a[1..] == Add(t[1..], name, amount);
      assert Typed(t[1..]) by {
        forall i | 0 <= i < |t[1..]| ensures t[1..][i].1.Number? <==> !Inherited(t[1..][i].0) {
          assert t[1..][i] == t[i + 1];
        }
      }
      AddSum(t[1..], name, amount, names);
    }
  }

  lemma {:induction false} AddKeys(t: SalesTable, name: string, amount: int)
    ensures KeysOf(Add(t, name, amount)) == KeysOf(t) + {name}
  {
    var a := Add(t, name, amount);
    if t == [] {
      assert a[0].0 == name;
    } else {
      KeysCons(t);
      KeysCons(a);
      if t[0].0 == name {
        assert a[1..] == t[1..];
      } else {
        assert a[1..] == Add(t[1..], name, amount);
        AddKeys(t[1..], name, amount);
      }
    }
  }

  lemma {:induction false} AddDistinct(t: SalesTable, name: string, amount: int)
    requires DistinctKeys(t)
    ensures DistinctKeys(Add(t, name, amount))
  {
    if t != [] && t[0].0 != name {
      var a := Add(t, name, amount);
      var rest := Add(t[1..], name, amount);
      assert a == [t[0]] + rest;
      DistinctTail(t);
      AddDistinct(t[1..], name, amount);
      AddKeys(t[1..], name, amount);
      KeysCons(t);
      forall i, j | 0 <= i < j < |a| ensures a[i].0 != a[j].0 {
        if i == 0 {
          assert a[j].0 in KeysOf(rest) by { assert rest[j - 1] == a[j]; }
        } else {
          assert a[i] == rest[i - 1] && a[j] == rest[j - 1];
        }
      }
    }
  }

  lemma {:induction false} AddTyped(t: SalesTable, name: string, amount: int)
    requires Typed(t)
    ensures Typed(Add(t, name, amount))
  {
    var a := Add(t, name, amount);
    if t != [] {
      if t[0].0 == name {
        forall i | 0 <= i < |a| ensures a[i].1.Number? <==> !Inherited(a[i].0) {
          if i > 0 { assert a[i] == t[i]; }
        }
      } else {
        var rest := Add(t[1..], name, amount);
        assert a == [t[0]] + rest;
        assert Typed(t[1..]) by {
          forall i | 0 <= i < |t[1..]| ensures t[1..][i].1.Number? <==> !Inherited(t[1..][i].0) {
            assert t[1..][i] == t[i + 1];
          }
        }
        AddTyped(t[1..], name, amount);
        forall i | 0 <= i < |a| ensures a[i].1.Number? <==> !Inherited(a[i].0) {
          if i > 0 { assert a[i] == rest[i - 1]; }
        }
      }
    }
  }

  /** `d[name] = (d[name] || 0) + amount` keeps the object's shape, adds the
      amount to the numeric sum over any name set holding a name that is not
      inherited, and adds the name to the own properties unless it is
      `__proto__`. */
  lemma AssignFacts(t: SalesTable, name: string, amount: int, names: set<string>)
    requires Shaped(t)
    ensures Shaped(Assign(t, name, amount))
    ensures Sold(Assign(t, name, amount), names) == Sold(t, names) + (if name in names && !Inherited(name) then amount else 0)
    ensures KeysOf(Assign(t, name, amount)) == KeysOf(t) + (if name == ProtoKey then {} else {name})
  {
    if name != ProtoKey {
      AddSum(t, name, amount, names);
      AddKeys(t, name, amount);
      AddDistinct(t, name, amount);
      AddTyped(t, name, amount);
    } else {
      assert Inherited(name);
    }
  }

  /** In a table with distinct names, a numeric entry is the sum over its name alone. */
  lemma {:induction false} EntrySold(t: SalesTable, k: int)
    requires DistinctKeys(t) && Counted(t, k)
    ensures t[k].1.n == Sold(t, {t[k].0})
  {
    if k == 0 {
      SoldMissing(t[1..], {t[0].0});
    } else {
      DistinctTail(t);
      assert t[1..][k - 1] == t[k];
      EntrySold(t[1..], k - 1);
    }
  }

  lemma {:induction false} SoldMissing(t: SalesTable, names: set<string>)
    requires forall i :: 0 <= i < |t| ==> t[i].0 !in names
    ensures Sold(t, names) == 0
  {
    if t != [] {
      SoldMissing(t[1..], names);
    }
  }

  /** The grouping keeps each book's quantities: summing the groups of any
      set of books gives the items' quantity for those books. */
  lemma {:induction false} GroupsKeepQuantities(items: seq<OrderItem>, bookIds: set<string>)
    ensures DistinctKeys(Groups(items))
    ensures SumIn(Groups(items), bookIds) ==
      ItemsIn(items, bookIds)
  {
    if items != [] {
      var last := items[|items| - 1];
      GroupsKeepQuantities(items[..|items| - 1], bookIds);
      BumpFacts(Groups(items[..|items| - 1]), last.bookId, last.quantity, bookIds);
    }
  }

  /** The items' quantity over a set of books. */
  function ItemsIn(items: seq<OrderItem>, bookIds: set<string>): int {
    if items == [] then 0
    else
      var last := items[|items| - 1];
      ItemsIn(items[..|items| - 1], bookIds) + (if last.bookId in bookIds then last.quantity else 0)
  }

  /** The books whose genre is named `name`. */
  function BooksOfGenre(books: map<Id, Book>, genres: map<Id, Genre>, name: string): set<string> {
    set id | id in books && GenreOf(books, genres, id) == Some(name)
  }

  /** `salesByGenre` keeps its shape, and its own properties are exactly the
      genre names of the groups' books, except `__proto__`. */
  lemma {:induction false} SalesByGenreKeys(books: map<Id, Book>, genres: map<Id, Genre>, groups: Tally)
    ensures Shaped(SalesByGenre(books, genres, groups))
    ensures forall n :: n in KeysOf(SalesByGenre(books, genres, groups)) <==>
      n != ProtoKey && exists i :: 0 <= i < |groups| && GenreOf(books, genres, groups[i].0) == Some(n)
  {
    if groups != [] {
      var front := groups[..|groups| - 1];
      var last := groups[|groups| - 1];
      SalesByGenreKeys(books, genres, front);
      var t := SalesByGenre(books, genres, front);
      var u := SalesByGenre(books, genres, groups);
      match GenreOf(books, genres, last.0)
      case None =>
        assert u == t;
      case Some(n) =>
        AssignFacts(t, n, last.1, {});
        assert u == Assign(t, n, last.1);
      forall m ensures m in KeysOf(u) <==>
        m != ProtoKey && exists i :: 0 <= i < |groups| && GenreOf(books, genres, groups[i].0) == Some(m)
      {
        if m in KeysOf(t) {
          var i :| 0 <= i < |front| && GenreOf(books, genres, front[i].0) == Some(m);
          assert groups[i] == front[i];
        }
        if m != ProtoKey && exists i :: 0 <= i < |groups| && GenreOf(books, genres, groups[i].0) == Some(m) {
          var i :| 0 <= i < |groups| && GenreOf(books, genres, groups[i].0) == Some(m);
          if i < |front| {
            assert front[i] == groups[i];
          }
        }
      }
    }
  }

  /** The numeric total under a name is the groups' sum over that genre's
      books, or nothing for an inherited name. */
  lemma {:induction false} SalesByGenreSums(books: map<Id, Book>, genres: map<Id, Genre>, groups: Tally, name: string)
    ensures Sold(SalesByGenre(books, genres, groups), {name}) ==
      if Inherited(name) then 0 else SumIn(groups, BooksOfGenre(books, genres, name))
  {
    if groups != [] {
      var front := groups[..|groups| - 1];
      var last := groups[|groups| - 1];
      SalesByGenreSums(books, genres, front, name);
      SalesByGenreKeys(books, genres, front);
      assert groups == front + [last];
      SumInAppend(front, last, BooksOfGenre(books, genres, name));
      var t := SalesByGenre(books, genres, front);
      match GenreOf(books, genres, last.0)
      case None =>
        assert last.0 !in BooksOfGenre(books, genres, name);
      case Some(n) =>
        AssignFacts(t, n, last.1, {name});
        assert (last.0 in BooksOfGenre(books, genres, name)) == (n == name);
    }
  }

  lemma {:induction false} ItemsInGenre(books: map<Id, Book>, genres: map<Id, Genre>, items: seq<OrderItem>, name: string)
    ensures ItemsIn(items, BooksOfGenre(books, genres, name)) == GenreSold(books, genres, items, name)
  {
    if items != [] {
      ItemsInGenre(books, genres, items[..|items| - 1], name);
    }
  }

  /** `salesByGenre` is right where it holds numbers: its names are distinct,
      `__proto__` is never among them, an entry is a number exactly when its
      name is not inherited, each numeric entry is the quantity sold over all
      order items whose book has a genre of that name, and every name in it
      is an existing genre's. */
  lemma SalesByGenreIsGenreSold(books: map<Id, Book>, genres: map<Id, Genre>, items: seq<OrderItem>)
    ensures var t := SalesByGenre(books, genres, Groups(items));
      && DistinctKeys(t)
      && ProtoKey !in KeysOf(t)
      && (forall k :: 0 <= k < |t| ==> (t[k].1.Number? <==> !Inherited(t[k].0)))
      && (forall k :: Counted(t, k) ==> t[k].1.n == GenreSold(books, genres, items, t[k].0))
      && (forall n :: n in KeysOf(t) ==> exists g :: g in genres && genres[g].name == n)
  {
    var groups := Groups(items);
    var t := SalesByGenre(books, genres, groups);
    SalesByGenreKeys(books, genres, groups);
    forall k | Counted(t, k) ensures t[k].1.n == GenreSold(books, genres, items, t[k].0) {
      var name := t[k].0;
      EntrySold(t, k);
      SalesByGenreSums(books, genres, groups, name);
      GroupsKeepQuantities(items, BooksOfGenre(books, genres, name));
      ItemsInGenre(books, genres, items, name);
    }
    forall n | n in KeysOf(t) ensures exists g :: g in genres && genres[g].name == n {
      var i :| 0 <= i < |groups| && GenreOf(books, genres, groups[i].0) == Some(n);
      assert books[groups[i].0].genreId in genres;
    }
  }

  /** A genre name missing from `salesByGenre` sold nothing, unless it is
      `__proto__`, which is never stored. */
  lemma AbsentGenreSoldNothing(books: map<Id, Book>, genres: map<Id, Genre>, items: seq<OrderItem>, name: string)
    requires name !in KeysOf(SalesByGenre(books, genres, Groups(items)))
    ensures name != ProtoKey ==> GenreSold(books, genres, items, name) == 0
  {
    var groups := Groups(items);
    SalesByGenreKeys(books, genres, groups);
    if name != ProtoKey {
      forall i | 0 <= i < |groups| ensures groups[i].0 !in BooksOfGenre(books, genres, name) {
      }
      SumInMissing(groups, BooksOfGenre(books, genres, name));
      GroupsKeepQuantities(items, BooksOfGenre(books, genres, name));
      ItemsInGenre(books, genres, items, name);
    }
  }

  /** Genres named "toString" (3 sold), "Fiction" (5 sold) and "__proto__"
      (2 sold): the first is kept as text and the third not at all, so the
      scan's only candidate, for both most and least sold, is "Fiction". */
  lemma InheritedGenreNames()
    ensures var books := map[
        "b1" := Book("A", "w", "p", None, None, 10, 1, "g1", false),
        "b2" := Book("B", "w", "p", None, None, 10, 1, "g2", false),
        "b3" := Book("C", "w", "p", None, None, 10, 1, "g3", false)];
      var genres := map["g1" := Genre("toString", false), "g2" := Genre("Fiction", false), "g3" := Genre(ProtoKey, false)];
      var items := [OrderItem("o", "b1", 3), OrderItem("o", "b2", 5), OrderItem("o", "b3", 2)];
      var t := SalesByGenre(books, genres, Groups(items));
      && t == [("toString", Text), ("Fiction", Number(5))]
      && GenreSold(books, genres, items, ProtoKey) == 2
      && FirstMax(t, 1) && FirstMin(t, 1)
  {
    var books := map[
        "b1" := Book("A", "w", "p", None, None, 10, 1, "g1", false),
        "b2" := Book("B", "w", "p", None, None, 10, 1, "g2", false),
        "b3" := Book("C", "w", "p", None, None, 10, 1, "g3", false)];
    var genres := map["g1" := Genre("toString", false), "g2" := Genre("Fiction", false), "g3" := Genre(ProtoKey, false)];
    var items := [OrderItem("o", "b1", 3), OrderItem("o", "b2", 5), OrderItem("o", "b3", 2)];
    var groups := [("b1", 3), ("b2", 5), ("b3", 2)];
    assert items[..2][..1] == items[..1];
    assert Groups(items[..1]) == [("b1", 3)];
    assert [("b1", 3)][1..] == [];
    assert Groups(items[..2]) == Bump([("b1", 3)], "b2", 5) == [("b1", 3), ("b2", 5)];
    assert [("b1", 3), ("b2", 5)][1..] == [("b2", 5)];
    assert [("b2", 5)][1..] == [];
    assert items[..|items| - 1] == items[..2];
    assert Groups(items) == Bump([("b1", 3), ("b2", 5)], "b3", 2) == groups;
    assert groups[..2][..1] == groups[..1];
    assert SalesByGenre(books, genres, groups[..1]) == [("toString", Text)];
    assert [("toString", Text)][1..] == [];
    assert SalesByGenre(books, genres, groups[..2]) == Assign([("toString", Text)], "Fiction", 5);
    assert groups[..|groups| - 1] == groups[..2];
    assert items[..1][..0] == [];
    assert GenreSold(books, genres, items[..1], ProtoKey) == 0;
    assert GenreSold(books, genres, items[..2], ProtoKey) == 0;
  }
}
