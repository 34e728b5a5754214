# Bookstore core in Dafny

This project models the rules of a small online bookstore: an Express/Prisma
backend and a React client. The model covers:

- **Order engine** (`transaction.routes.ts`). It places an order in four steps: request check, per-item lookup and stock check, totals, and one atomic write of the order, its items and the stock rewrites. It also derives an order's detail totals from current book prices, the per-order quantity of the order list, and the sales statistics per genre.
- **Catalog management** (`bookController.ts`, `genre.routes.ts`). Books and genres can be created, updated and soft-deleted. Each operation runs an ordered series of guards. Listing has filters, sort keys and pagination.
- **Shopping cart** (`cartcontext.tsx`). Add-or-merge, remove, clear and the two totals.

## Layout

- `common.dfy`
  - `Common`: ids, `Option`, `Result`, the error kinds, request JSON with JavaScript truthiness, ASCII lower-casing and substring search.
  - `Schema`: one datatype per table. Soft deletion is a `deleted` flag.
- `pagination.dfy`: `Pagination`. Page/limit defaults, `skip`, `Math.ceil`, `totalPages` and the prev/next links.
- `cart.dfy`: `Cart`. The cart is a sequence, and each operation is a function from one cart to the next, as the React state is replaced whole.
- `orders.dfy`: `Orders`. Covers:
  - request and item validation;
  - the item loop as a method proved against the `Validate` specification;
  - the rows of the atomic write;
  - the order detail.
- `statistics.dfy`: `Statistics`. The per-genre tally loop and the min/max scan, both as methods, plus their meaning as lemmas.
- `books.dfy`, `genres.dfy`: `Books` and `Genres`. Request checks, detail lookups, listings, the update whitelist loop, and the row a create builds.
- `catalog.dfy`: `Store`. The database as the class `Catalog`: book, genre, order and order-item tables as fields, and every writing endpoint as a method with a `modifies` clause.
  - Each method keeps `Valid()`: unique titles and names over all rows, foreign keys, positive item quantities, and "an active book has an active genre".
  - On any error, each method writes nothing.

## Modelling decisions

- The ORM is replaced by maps and a sequence. `prisma.$transaction` is one method. Its guards run before any write, so a failure leaves the object unchanged.
- Fresh UUIDs are method parameters. A taken id is refused as `Internal`, as a primary-key violation would be.
- Request bodies are `map<string, Json>`. `!x` and `typeof` tests are modelled exactly through `Truthy` and the `Json` constructors.
- A value of the wrong type that reaches the database is answered `Internal`, as Prisma's validation error is. Examples: a numeric title, a non-string `bookId` in an order item, a boolean description.
- Numbers are integers. Prices are in minor currency units.
- Titles and genre names are unique columns. The duplicate checks use `findUnique`, which does not filter on `deletedAt`, so a soft-deleted genre's name blocks a new genre (`Conflict`). Renaming onto a soft-deleted genre's name passes the active-only conflict check but violates the unique column (`Internal`).

Behaviour of the code that the model keeps on purpose:

- **Overwrite, not decrement.** Order placement overwrites each book's stock with the stock read during validation minus the item's quantity. If a request names the same book twice, both items are checked against the same original stock and the later write wins. `Orders.DuplicateItemsOversell` exhibits 6 + 6 copies sold from a stock of 10, leaving 4. Stock is overwritten with the value computed during validation, not decremented at write time.
- **Soft-deleted books can be ordered.** The order lookup ignores soft deletion.
- **Stock can be negative.** `createBook` and `updateBook` accept any number as stock. No orders-only invariant is claimed over all books: `Orders.OrderStockOutcome` proves that an order never writes a negative stock.
- **Current prices in the detail.** Order detail totals use the books' current prices, because no price is stored with an order item. `Orders.FreshOrderDetail` shows the detail matches the receipt as long as no price has changed.
- **Genre names inherited from `Object.prototype`.** `salesByGenre` is a plain object, so `salesByGenre[name] || 0` reads an inherited function for a genre named, say, "toString": the entry becomes text, which the scan's `typeof` test skips. A genre named "__proto__" is never stored at all. `Statistics.InheritedGenreNames` exhibits both: with "toString" (3 sold), "Fiction" (5) and "__proto__" (2), "Fiction" is both the most and the least sold genre.
- **Title is always the first sort key.** The title direction is always `'asc'` or `'desc'`, so title always leads the book listing's sort keys and the `createdAt` fallback is dead code (`Books.BuildBookQuery`).

## Model

| member | source | states |
|---|---|---|
| Pagination.ParamDefaults | pweb-express-p12-2025/src/controllers/bookController.ts:67-68 | page and limit are never zero, and 1 and 10 when absent; the `skip` handed to the database is negative (and the listing fails) exactly for a negative page with a positive limit or a page past the first with a negative limit |
| Pagination.CeilDiv | pweb-express-p12-2025/src/controllers/bookController.ts:114 | `Math.ceil(a / b)` is the integer r with (r-1)·b < a ≤ r·b for b > 0, and the mirrored bounds for b < 0 |
| Pagination.TotalPagesCoverRows | pweb-express-p12-2025/src/controllers/bookController.ts:114 | with a positive limit, totalPages is the least page count holding every row, and zero exactly when there are no rows |
| Pagination.LinksFollowRows | pweb-express-p12-2025/src/controllers/bookController.ts:114-126 | next_page is page+1 exactly when rows remain after this page; prev_page is page-1 exactly when skip > 0 |
| Pagination.PagesInRangeAreNonEmpty | pweb-express-p12-2025/src/controllers/bookController.ts:69 | every page from 1 to totalPages starts at an existing row (0 ≤ skip < totalItems) |
| Cart.ClearCart | it-literature-shop-frontend/src/contexts/cartcontext.tsx:61-63 | the cleared cart is empty, with both totals zero |
| Cart.MergeQuantityAt | it-literature-shop-frontend/src/contexts/cartcontext.tsx:45-47 | the `map` keeps length and position and raises only the entries carrying the id |
| Cart.AddToCartMerges | it-literature-shop-frontend/src/contexts/cartcontext.tsx:41-47 | adding a book already in the cart keeps length, order, ids, titles and prices and raises only that book's quantity by the amount |
| Cart.AddToCartAppends | it-literature-shop-frontend/src/contexts/cartcontext.tsx:48-51 | adding a new book appends exactly one entry at the end with the given id, title, price and quantity and leaves the prefix unchanged |
| Cart.AddToCartKeepsIdsDistinct | it-literature-shop-frontend/src/contexts/cartcontext.tsx:39-52 | distinct ids stay distinct after addToCart |
| Cart.TotalsAppend | it-literature-shop-frontend/src/contexts/cartcontext.tsx:66-73 | appending an entry adds its quantity to getTotalItems and price × quantity to getCartTotal |
| Cart.MergeQuantityTotals | it-literature-shop-frontend/src/contexts/cartcontext.tsx:45-47 | merging q into an id adds q per matching entry to getTotalItems and q × their stored prices to getCartTotal |
| Cart.AddToCartTotals | it-literature-shop-frontend/src/contexts/cartcontext.tsx:39-73 | the change of both totals under addToCart, for a merged and for a new book |
| Cart.AddToCartTotalsDistinct | it-literature-shop-frontend/src/contexts/cartcontext.tsx:39-73 | in a cart with distinct ids, getTotalItems rises by exactly q and getCartTotal by exactly q × the stored price (the given price for a new book) |
| Cart.RemoveFromCartKeepsOrder | it-literature-shop-frontend/src/contexts/cartcontext.tsx:56-58 | the filter distributes over concatenation and drops a single entry exactly when it carries the id, so survivors keep their order |
| Cart.RemoveFromCartRemoves | it-literature-shop-frontend/src/contexts/cartcontext.tsx:56-58 | no entry with the id remains; an entry survives iff it was there with another id; the length drops by the number of matching entries |
| Cart.RemoveAbsentIsIdentity | it-literature-shop-frontend/src/contexts/cartcontext.tsx:56-58 | removing an id not in the cart changes nothing |
| Cart.RemoveFromCartIdempotent | it-literature-shop-frontend/src/contexts/cartcontext.tsx:56-58 | removing the same id twice equals removing it once |
| Orders.RequestItems | pweb-express-p12-2025/src/routes/transaction.routes.ts:66-71 | the request passes iff userId is truthy and items is a non-empty array; otherwise InvalidRequest |
| Orders.CheckItem | pweb-express-p12-2025/src/routes/transaction.routes.ts:79-103 | an item passes iff its shape is right, its book exists and the stock covers the quantity; each failure kind holds exactly under its condition; a passing line carries the book's price and stock − quantity ≥ 0 |
| Orders.ValidatePrefixFailure | pweb-express-p12-2025/src/routes/transaction.routes.ts:78-104 | once a prefix of the items fails, the whole request fails with the same error |
| Orders.ValidateLines | pweb-express-p12-2025/src/routes/transaction.routes.ts:78-104 | a successful validation yields one line per item, in input order, each that item's own check result |
| Orders.ValidateFirstFailure | pweb-express-p12-2025/src/routes/transaction.routes.ts:78-104 | validation succeeds iff every item passes, and otherwise fails with the error of the first failing item |
| Orders.CheckOrderItems | pweb-express-p12-2025/src/routes/transaction.routes.ts:74-104 | the item loop's outcome is `Validate`'s, and on success the accumulated total is Σ price × quantity |
| Orders.NewItemsMatchLines | pweb-express-p12-2025/src/routes/transaction.routes.ts:116-124 | exactly one order item per line, in line order, with the line's book and quantity and the new order's id |
| Orders.ApplyStockFrame | pweb-express-p12-2025/src/routes/transaction.routes.ts:130-136 | the stock loop keeps the set of books and every column but stock, and leaves books no line names unchanged |
| Orders.ApplyStockLastWrite | pweb-express-p12-2025/src/routes/transaction.routes.ts:130-136 | a book's final stock is the value computed for the last line naming it |
| Orders.ValidatedLinesFit | pweb-express-p12-2025/src/routes/transaction.routes.ts:79-103 | a successful validation yields one line per item, each naming an existing book with a positive quantity, that book's price, and a new stock of stock − quantity that is never negative |
| Orders.OrderStockOutcome | pweb-express-p12-2025/src/routes/transaction.routes.ts:92-136 | for validated lines, each named book ends with its original stock minus the quantity of the last line naming it, never negative; other books are unchanged |
| Orders.DuplicateItemsOversell | pweb-express-p12-2025/src/routes/transaction.routes.ts:78-136 | two items of 6 for a book with stock 10 both pass, totalQuantity is 12 and the stock ends at 4 |
| Orders.DetailLines | pweb-express-p12-2025/src/routes/transaction.routes.ts:349-355 | one detail line per item, with the book's title, the quantity and quantity × current price; the join fails iff some item's book is missing |
| Orders.DetailSums | pweb-express-p12-2025/src/routes/transaction.routes.ts:345-358 | the detail's quantity and subtotal sums equal the items' quantity and their price at current prices |
| Orders.DetailTotals | pweb-express-p12-2025/src/routes/transaction.routes.ts:339-358 | an unknown order is NotFound; with all books present the detail succeeds; subtotals are quantity × current price, totalQuantity equals the order list's per-order quantity (line 182) and totalPrice is the current-price sum |
| Orders.FreshOrderDetail | pweb-express-p12-2025/src/routes/transaction.routes.ts:142-151 | the detail of a just-placed order reproduces the receipt's totalQuantity and totalPrice |
| Orders.FreshDetailOfLines | pweb-express-p12-2025/src/routes/transaction.routes.ts:108-151 | for validated lines written as a fresh order, the detail succeeds with the lines' total quantity and total price |
| Orders.FreshItemsOf | pweb-express-p12-2025/src/routes/transaction.routes.ts:116-127 | the items the detail finds for a fresh order are exactly the rows its transaction created |
| Orders.PricesKept | pweb-express-p12-2025/src/routes/transaction.routes.ts:130-136 | the stock rewrites keep every named book and its price |
| Orders.LastItemOutcome | pweb-express-p12-2025/src/routes/transaction.routes.ts:130-136 | for validated lines, a named book ends with its original row except stock, which is the original stock minus the last naming line's quantity and never negative |
| Statistics.TallyByGenre | pweb-express-p12-2025/src/routes/transaction.routes.ts:237-247 | the loop's object equals the fold `SalesByGenre` of single assignments, which skips groups whose book or genre is missing |
| Statistics.AssignFacts | pweb-express-p12-2025/src/routes/transaction.routes.ts:243 | `d[k] = (d[k] \|\| 0) + q` keeps the object's shape (distinct names, no `__proto__`, a number exactly under a name not inherited from `Object.prototype`), adds q to the numeric sum over any name set holding k unless k is inherited, and adds k to the own properties unless it is `__proto__` |
| Statistics.ScanExtremes | pweb-express-p12-2025/src/routes/transaction.routes.ts:251-285 | entries that are not numbers are skipped; both results are absent iff no entry is a number; the most-sold is the first counted entry with the largest total, the least-sold the first counted entry with the smallest (strict comparisons keep the first seen) |
| Statistics.Report | pweb-express-p12-2025/src/routes/transaction.routes.ts:296-297 | a genre is reported iff the scan found one with a non-empty name, carrying that name and total |
| Statistics.ScanReported | pweb-express-p12-2025/src/routes/transaction.routes.ts:251-297 | the reported most- and least-sold genres are the scan's first extreme entries, and are null only when nothing is counted or that entry's name is empty |
| Statistics.SalesStatistics | pweb-express-p12-2025/src/routes/transaction.routes.ts:205-299 | totalTransactions is the order count; each reported genre has a non-empty name and is the first counted entry with the largest (smallest) total; it is null only when no entry is a number or that entry's name is empty |
| Statistics.BumpFacts | pweb-express-p12-2025/src/routes/transaction.routes.ts:222-225 | the groupBy's accumulation adds q to every key-set sum containing the book, adds the book to the keys, and keeps keys distinct |
| Statistics.GroupsKeepQuantities | pweb-express-p12-2025/src/routes/transaction.routes.ts:222-225 | the groupBy has one entry per book, and its sum over any set of books is the items' quantity for those books |
| Statistics.SalesByGenreKeys | pweb-express-p12-2025/src/routes/transaction.routes.ts:237-247 | the object's own properties are exactly the genre names of the grouped books other than `__proto__`; names are distinct and hold a number exactly when not inherited |
| Statistics.SalesByGenreSums | pweb-express-p12-2025/src/routes/transaction.routes.ts:237-247 | the numeric total under a name is the groups' sum over that genre's books, and zero for an inherited name |
| Statistics.SalesByGenreIsGenreSold | pweb-express-p12-2025/src/routes/transaction.routes.ts:222-247 | names are distinct and never `__proto__`; an entry is a number exactly when its name is not inherited; each numeric entry is the quantity sold over all order items whose book has a genre of that name; each name is an existing genre's |
| Statistics.AbsentGenreSoldNothing | pweb-express-p12-2025/src/routes/transaction.routes.ts:237-247 | a genre name missing from the object sold nothing, unless it is `__proto__` |
| Statistics.InheritedGenreNames | pweb-express-p12-2025/src/routes/transaction.routes.ts:237-285 | genres "toString" (3 sold), "Fiction" (5) and "__proto__" (2): the object holds text for "toString" and nothing for "__proto__", which sold 2, and "Fiction" is the first largest and the first smallest counted entry |
| Cart.AddToCart | it-literature-shop-frontend/src/contexts/cartcontext.tsx:39-52 | addToCart: merge into the entry with the id if one exists, else append; its outcome is stated by `Cart.AddToCartMerges`, `Cart.AddToCartAppends` and `Cart.AddToCartTotals` |
| Cart.MergeQuantity | it-literature-shop-frontend/src/contexts/cartcontext.tsx:45-47 | the `map` raising the quantity of entries with the id; stated position by position by `Cart.MergeQuantityAt` |
| Cart.RemoveFromCart | it-literature-shop-frontend/src/contexts/cartcontext.tsx:56-58 | the `filter` dropping entries with the id; stated by `Cart.RemoveFromCartRemoves` and `Cart.RemoveFromCartKeepsOrder` |
| Cart.CartTotal | it-literature-shop-frontend/src/contexts/cartcontext.tsx:66-68 | getCartTotal, Σ price × quantity; its change under each cart operation is stated by `Cart.TotalsAppend`, `Cart.MergeQuantityTotals` and `Cart.AddToCartTotals` |
| Cart.TotalItems | it-literature-shop-frontend/src/contexts/cartcontext.tsx:71-73 | getTotalItems, Σ quantity; stated by the same lemmas as `Cart.CartTotal` |
| Orders.Validate | pweb-express-p12-2025/src/routes/transaction.routes.ts:78-104 | the item loop as a specification: lines in order, or the first item's error; stated by `Orders.ValidateFirstFailure` and `Orders.ValidateLines` |
| Orders.TotalPrice | pweb-express-p12-2025/src/routes/transaction.routes.ts:96 | Σ price × quantity over the lines, the loop's `calculatedTotalAmount`; tied to the loop by `Orders.CheckOrderItems` and to the detail by `Orders.FreshOrderDetail` |
| Orders.TotalQuantity | pweb-express-p12-2025/src/routes/transaction.routes.ts:142 | Σ quantity over the lines, the receipt's `totalQuantity`; equal to the endpoint's sum over the request items by `Orders.ReceiptQuantity`, and tied to the detail by `Orders.FreshOrderDetail` |
| Orders.RequestQuantity | pweb-express-p12-2025/src/routes/transaction.routes.ts:142 | the `reduce` over the request items' quantities; stated by `Orders.ReceiptQuantity` |
| Orders.ReceiptQuantity | pweb-express-p12-2025/src/routes/transaction.routes.ts:142 | for a validated request, the sum of the request items' quantities equals `TotalQuantity` of the validated lines, so the receipt's totalQuantity is the same either way |
| Orders.NewItems | pweb-express-p12-2025/src/routes/transaction.routes.ts:120-127 | the order-item rows of the transaction; stated by `Orders.NewItemsMatchLines` |
| Orders.ApplyStock | pweb-express-p12-2025/src/routes/transaction.routes.ts:130-136 | the stock overwrites in line order; stated by `Orders.ApplyStockFrame`, `Orders.ApplyStockLastWrite` and `Orders.OrderStockOutcome` |
| Orders.OrderDetail | pweb-express-p12-2025/src/routes/transaction.routes.ts:317-378 | the detail endpoint; stated by `Orders.DetailTotals` |
| Orders.OrderQuantity | pweb-express-p12-2025/src/routes/transaction.routes.ts:182 | the order list's per-order `totalQuantity`; equal to the detail's by `Orders.DetailTotals` |
| Statistics.Bump | pweb-express-p12-2025/src/routes/transaction.routes.ts:222-225 | one step of the groupBy's accumulation; stated by `Statistics.BumpFacts` |
| Statistics.Groups | pweb-express-p12-2025/src/routes/transaction.routes.ts:222-225 | the groupBy over the order items; stated by `Statistics.GroupsKeepQuantities` |
| Statistics.Assign | pweb-express-p12-2025/src/routes/transaction.routes.ts:243 | one assignment to `salesByGenre`; stated by `Statistics.AssignFacts` |
| Statistics.SalesByGenre | pweb-express-p12-2025/src/routes/transaction.routes.ts:237-247 | the tally loop as a fold; stated by `Statistics.SalesByGenreKeys`, `Statistics.SalesByGenreSums` and `Statistics.SalesByGenreIsGenreSold` |
| Pagination.ParamOr | pweb-express-p12-2025/src/controllers/bookController.ts:67-68 | `parseInt(x) \|\| d`; stated by `Pagination.ParamDefaults` |
| Pagination.PageMeta | pweb-express-p12-2025/src/controllers/bookController.ts:114-126 | the listing's `meta`; stated by `Pagination.TotalPagesCoverRows` and `Pagination.LinksFollowRows` |
| Books.Matching | pweb-express-p12-2025/src/controllers/bookController.ts:75-88 | the books the `where` lets through; stated by `Books.ListBooks` |
| Books.BuildBookQuery | pweb-express-p12-2025/src/controllers/bookController.ts:71-97 | genre and search filters are set iff truthy; the sort keys start with title (desc iff the lower-cased parameter is 'desc'), add publicationYear iff 'asc' or 'desc', and never fall back to createdAt |
| Books.ListBooks | pweb-express-p12-2025/src/controllers/bookController.ts:66-128 | empty genre route id is InvalidRequest, a missing or deleted genre NotFound, negative skip Internal; listed books are exactly the active ones of the genre matching the search; the sort keys are title first (desc iff requested), then publicationYear iff its parameter is 'asc' or 'desc'; meta is the page arithmetic over their count |
| Books.BookDetail | pweb-express-p12-2025/src/controllers/bookController.ts:157-174 | an empty id is InvalidRequest, a missing or soft-deleted book NotFound, otherwise the stored book with its genre's name, present exactly when the genre row exists |
| Books.CollectUpdates | pweb-express-p12-2025/src/controllers/bookController.ts:191-204 | a body with its own `hasOwnProperty` key throws (Internal) before anything else; otherwise refused iff price or stockQuantity is present and not a number; otherwise exactly the allowed keys the body has, with their values |
| Books.ApplyUpdates | pweb-express-p12-2025/src/controllers/bookController.ts:230-233 | only description, price and stock change, each as the data gives it; a value of the wrong type is refused |
| Books.WhitelistedUpdate | pweb-express-p12-2025/src/controllers/bookController.ts:191-233 | after the whitelist the write fails only for a description that is not a string or null, and takes price and stock as given |
| Books.CreateRequestCheck | pweb-express-p12-2025/src/controllers/bookController.ts:13-24 | the request passes iff the required fields are present (0 allowed for price and stock), price and stock are numbers, genreId a string and the year absent or a number |
| Books.NewBook | pweb-express-p12-2025/src/controllers/bookController.ts:40-51 | the created row carries exactly the body's values (title, writer, publisher, price, stock, genre, and the year and description when given) and is active; it exists iff every column has a type the database takes |
| Genres.GenreDetail | pweb-express-p12-2025/src/routes/genre.routes.ts:99-119 | an empty id is InvalidRequest, a missing or soft-deleted genre NotFound, otherwise the stored genre |
| Genres.ListGenres | pweb-express-p12-2025/src/routes/genre.routes.ts:48-87 | listed genres are exactly the active ones whose name contains the search, ignoring case; order is by name, desc iff requested; meta is the page arithmetic; negative skip is Internal |
| Genres.DeletedGenreHidden | pweb-express-p12-2025/src/routes/genre.routes.ts:56-58 | a soft-deleted genre is neither found nor listed |
| Store.Catalog.CreateGenre | pweb-express-p12-2025/src/routes/genre.routes.ts:16-36 | a missing or non-string name is InvalidRequest, a name held by any genre Conflict; otherwise exactly one active genre is added; errors write nothing |
| Store.Catalog.RenameGenre | pweb-express-p12-2025/src/routes/genre.routes.ts:135-168 | InvalidRequest, then NotFound for a missing or deleted genre; a changed name held by an active genre is Conflict; keeping the name succeeds; on success only that genre's name changes |
| Store.Catalog.DeleteGenre | pweb-express-p12-2025/src/routes/genre.routes.ts:183-218 | InvalidRequest, then NotFound, then refused while an active book references the genre; otherwise only its deleted marker is set and it is no longer found |
| Store.Catalog.CreateBook | pweb-express-p12-2025/src/controllers/bookController.ts:8-53 | the checks in order (request, title, genre active), each failure writing nothing; on success exactly one book, the body's, is added |
| Store.Catalog.UpdateBook | pweb-express-p12-2025/src/controllers/bookController.ts:187-235 | a body with its own `hasOwnProperty` key fails as Internal with nothing written; otherwise the whitelist errors, an empty update and an empty id are InvalidRequest; a missing or deleted book NotFound; on success only that book's description, price and stock change, as the body gives them |
| Store.Catalog.DeleteBook | pweb-express-p12-2025/src/controllers/bookController.ts:248-267 | an empty id is InvalidRequest, a missing or deleted book NotFound; otherwise only its deleted marker is set, and it is then neither found nor listed |
| Store.Catalog.RewriteStock | pweb-express-p12-2025/src/routes/transaction.routes.ts:130-136 | the stock loop leaves the book table equal to `ApplyStock` of the lines and touches no other table |
| Store.Catalog.CommitOrder | pweb-express-p12-2025/src/routes/transaction.routes.ts:108-137 | the transaction body adds exactly the new order, appends one item per line and sets the book table to `ApplyStock` of the lines, keeping the store consistent |
| Store.Catalog.PlaceOrder | pweb-express-p12-2025/src/routes/transaction.routes.ts:63-153 | request and item errors as validated, writing nothing; on success one order, one item per request item, the stock rewrites, and a receipt with Σ quantity and Σ price × quantity |
| Store.PlacedOrderConsistent | pweb-express-p12-2025/src/routes/transaction.routes.ts:108-137 | for validated lines and a known user, the order transaction keeps the store's constraints: new items reference the new order and existing books with positive quantities, and titles, genres and deletion markers are untouched |
| Store.RewrittenBookConsistent | pweb-express-p12-2025/src/controllers/bookController.ts:230-233 | rewriting one book that keeps its title and genre and does not leave soft deletion keeps the store's constraints, as `updateBook` and `deleteBook` do |

## Left out

- The React pages and components, `authcontext.tsx`, `api.ts`, `auth.routes.ts`, `index.ts` and `books.routes.ts`: rendering, routing, bcrypt/JWT and HTTP plumbing. The cart's `localStorage` persistence (`cartcontext.tsx` lines 25-36) is I/O.
- The checkout page's cart-to-request mapping and the order list's sort toggle: page glue outside the core.
- Prisma's UUID-format errors ("Invalid UUID" branches): ids are arbitrary strings here.
- Timestamps: `deletedAt` is a flag, and `createdAt`/`updatedAt` are not kept. The order list's `createdAt` order and its user/book includes are therefore not modelled; only its per-order `totalQuantity` is (`Orders.OrderQuantity`).
- `averageItemsPerOrder`: a floating-point database average.
- Floating point: prices and quantities are integers, so a fractional quantity that passes `typeof === 'number'` is not representable. The scan's `isFinite` test therefore always holds for a number entry; its `typeof` test is modelled (`Statistics.Counted`).
- Concurrency: cross-request races on stock are outside a sequential model. The transaction is one atomic step.
- `console.log` tracing, HTTP status codes and messages (reduced to error kinds).
- Query strings: `parseInt` is taken as already applied (`Option<int>`, None for NaN). Array-valued query parameters are not modelled.
- Case-insensitive matching folds ASCII letters only.
- Books.ListBooks: states the matching set, sort keys, skip, take and meta, but not the page rows themselves, which the database sorts and cuts.
- Genres.ListGenres: as for books, the page rows the database returns are not modelled.
- Statistics.SalesStatistics: the genre tally keeps insertion order for every name. A JavaScript object enumerates integer-like keys (a genre named "42") first in numeric order, which would change which tied genre is scanned first; that ordering is not modelled.
- Orders.ItemsOf: the detail's `include: { items }` has no `orderBy`, so the database promises no line order; the model assumes the detail lines come in insertion order (the order of the order-item table).
- Statistics.GroupsKeepQuantities: the database's `groupBy` promises no row order; the model takes groups in order of first appearance in the order-item table, so first-seen tie-breaking is relative to that order.
