# Shuttler storefront: the cart and catalog reducers

This project models the two Redux Toolkit slices of the Shuttler badminton
storefront and proves properties of them.

- **Cart.** The cart slice keeps an ordered list of lines `{product, quantity}` and two running
  totals, `totalItems` and `totalAmount`. It has five reducers: add, remove, increase, decrease
  and clear.
- **Catalog.** The products slice keeps the full product list and a derived `filteredProducts`
  view. It also keeps the selected product and the last category, subcategory and search
  parameters. The reducers:
  - add, update or delete products;
  - select a product by id;
  - filter the view by category, subcategory or a case-insensitive search;
  - sort the view by price, name or rating.

Each slice is modelled twice:

- **Transition functions** (modules `Cart` and `Catalog`). Redux Toolkit runs each reducer on an
  Immer draft and publishes a fresh immutable state, so each reducer is a function from the old
  state and the action payload to the new state. The properties are proved about these
  functions: the cart invariant, idempotence, how the reducers compose, and the sort's order,
  permutation and stability.
- **Stores** (classes `CartStore.Store` and `CatalogStore.Store`). These perform the reducers'
  steps by assignment to fields. Each method is proved to end in exactly the state the
  transition function gives. The catalog's `filteredProducts` is an array. `sortProducts` sorts
  it in place with a stable insertion sort (`Ordering.SortInPlace`). That sort is proved equal to
  the sequence specification `Ordering.SortBy`.

Modelling choices:

- Prices and ratings are integers, for example minor currency units and tenths of a star.
- `toLowerCase` is ASCII lower-casing.
- `includes` is substring search.
- `localeCompare` is lexicographic order on character codes.
- `Array.prototype.sort` is specified by its observable result: a stable sort by the comparator.
  ECMAScript 2019 and later require the sort to be stable.
- `null` becomes `Option.None`.
- `findIndex`'s `-1` becomes `None`.

Modules:

| file | contents |
|---|---|
| Wrappers.dfy | `Option` |
| Seqs.dfy | `filter`, `findIndex` and `find` as functions over sequences, with their algebra |
| Text.dfy | lower-casing, `includes`, `localeCompare` and its order |
| Types.dfy | `Product` and `CartItem` |
| Cart.dfy | the cart state, its invariant, the five reducers and the lemmas about them |
| CartStore.dfy | the cart store as a class |
| Ordering.dfy | the sort keys and comparators, the stable sort and its proofs, the in-place array sort |
| Catalog.dfy | the catalog state, the ten reducers and the lemmas about them |
| CatalogStore.dfy | the catalog store as a class with an array-backed view |

## Model

| member | source | states |
|---|---|---|
| Cart.AddToCart | src/store/slices/cartSlice.ts:20-32 | totalItems grows by 1 and totalAmount by the payload's price, with no stock check. A new id is appended as `{product, quantity: 1}` after the unchanged earlier lines. For an id already present, only that line's quantity rises by 1, and the line count and every line's product are unchanged. |
| Cart.AddToCartQuantityOf | src/store/slices/cartSlice.ts:20-28 | After `addToCart(p)`, the quantity held for `p.id` is one more than before. The quantity for every other id is unchanged. |
| Cart.AddToCartIsIncrease | src/store/slices/cartSlice.ts:20-32 | On an id already in the cart, at the price the line was added at, `addToCart` gives the same state as `increaseQuantity` of that id. |
| Cart.RemoveFromCart | src/store/slices/cartSlice.ts:33-42 | An absent id leaves the state unchanged. A present id has its line's quantity subtracted from totalItems and price × quantity subtracted from totalAmount. The lines become the order-preserving filter of the other ids, so no line with that id remains. |
| Cart.RemoveFromCartIdempotent | src/store/slices/cartSlice.ts:33-42 | Removing an id twice is the same as removing it once. |
| Cart.IncreaseQuantity | src/store/slices/cartSlice.ts:43-52 | An absent id is a no-op. Otherwise only the first matching line changes, its quantity rising by 1. totalItems grows by 1 and totalAmount by that line's price. |
| Cart.DecreaseQuantity | src/store/slices/cartSlice.ts:53-66 | An absent id is a no-op. A line with quantity above 1 loses one unit and every other line is unchanged. A line with quantity 1 is removed. In both cases the totals drop by one unit and one price of that line. A line with quantity below 1 leaves the state unchanged. |
| Cart.DecreaseLastIsRemove | src/store/slices/cartSlice.ts:53-66 | When the id's quantity is 1, `decreaseQuantity` gives the same state as `removeFromCart`. |
| Cart.ClearCart | src/store/slices/cartSlice.ts:67-71 | From any state: no lines and both totals zero. |
| Cart.QuantityOf | src/store/slices/cartSlice.ts:22 | The quantity of the first line with the id, the one `find` returns. It is 0 when there is none, and non-negative when all quantities are positive. |
| Cart.InitialConsistent | src/store/slices/cartSlice.ts:10-14 | `initialState` has no lines and zero totals, and satisfies the cart invariant. |
| Cart.AddToCartKeepsConsistent | src/store/slices/cartSlice.ts:20-32 | `addToCart` keeps the cart invariant (totalItems = Σ quantity, totalAmount = Σ price × quantity, unique ids, quantities ≥ 1), provided every line with the payload's id was added at the payload's price. |
| Cart.RemoveFromCartKeepsConsistent | src/store/slices/cartSlice.ts:33-42 | `removeFromCart` keeps the cart invariant. |
| Cart.IncreaseQuantityKeepsConsistent | src/store/slices/cartSlice.ts:43-52 | `increaseQuantity` keeps the cart invariant. |
| Cart.DecreaseQuantityKeepsConsistent | src/store/slices/cartSlice.ts:53-66 | `decreaseQuantity` keeps the cart invariant in both branches. |
| Cart.ClearCartKeepsConsistent | src/store/slices/cartSlice.ts:67-71 | The cleared cart satisfies the invariant whatever the state before. |
| Cart.StepLineKeepsConsistent | src/store/slices/cartSlice.ts:47-50 | Moving one line's quantity by d (to at least 1), with totalItems moved by d and totalAmount by d × the line's price, keeps the invariant. |
| Cart.DropLineKeepsConsistent | src/store/slices/cartSlice.ts:37-40 | Filtering out a line's id while subtracting its quantity and price × quantity keeps the invariant. |
| Cart.WithoutLine | src/store/slices/cartSlice.ts:40 | With unique ids, the `filter` on another id drops exactly the one matching line and keeps the rest in order. |
| Cart.DropLine | src/store/slices/cartSlice.ts:38-40 | Dropping a line subtracts its quantity and price × quantity from the two sums. It keeps ids unique and quantities positive. |
| Cart.SumReplace | src/store/slices/cartSlice.ts:25 | Replacing one line changes the two sums by exactly the difference of that line's contributions. |
| Cart.SumConcat | src/store/slices/cartSlice.ts:27 | Both sums distribute over concatenation, so `push` adds the new line's share. |
| Cart.AddTimesFromEmpty | src/store/slices/cartSlice.ts:20-31 | Adding the same product n ≥ 1 times to the empty cart gives exactly one line of quantity n, with totalItems = n and totalAmount = n × price. |
| Cart.AddEachTotals | src/store/slices/cartSlice.ts:30-31 | After any sequence of adds, totalItems has grown by the number of adds and totalAmount by the sum of their prices. |
| Cart.AddToCartRepricedDrifts | src/store/slices/cartSlice.ts:24-31 | Adding a product at 100 and then the same id at 120 gives a cart whose totalAmount (220) disagrees with its line (2 × 100). Removing that line leaves an empty cart with totalAmount 20. |
| CartStore.Store.constructor | src/store/slices/cartSlice.ts:10-14 | The store starts in `initialState`, which satisfies the invariant. |
| CartStore.Store.AddToCart | src/store/slices/cartSlice.ts:20-32 | The in-place updates end in `Cart.AddToCart` of the old state. They keep the invariant when the payload is priced like its existing line. |
| CartStore.Store.RemoveFromCart | src/store/slices/cartSlice.ts:33-42 | Ends in `Cart.RemoveFromCart` of the old state and keeps the invariant. |
| CartStore.Store.IncreaseQuantity | src/store/slices/cartSlice.ts:43-52 | Ends in `Cart.IncreaseQuantity` of the old state and keeps the invariant. |
| CartStore.Store.DecreaseQuantity | src/store/slices/cartSlice.ts:53-66 | Ends in `Cart.DecreaseQuantity` of the old state and keeps the invariant. |
| CartStore.Store.ClearCart | src/store/slices/cartSlice.ts:67-71 | Ends in the empty cart, which satisfies the invariant. |
| Seqs.Filter | src/store/slices/productsSlice.ts:41 | `filter`: the result is no longer than the input. Every kept element passes the test, and every passing input element is kept. |
| Seqs.FilterAppend | src/store/slices/productsSlice.ts:41 | `filter` distributes over concatenation, so it keeps the input order. |
| Seqs.FilterKeepsAll | src/store/slices/cartSlice.ts:40 | A `filter` every element passes returns its input. |
| Seqs.FilterMultiset | src/store/slices/productsSlice.ts:41 | `filter` keeps each passing element as many times as it occurred and drops every failing one. |
| Seqs.FilterFilter | src/store/slices/productsSlice.ts:53-65 | Two filters in a row equal one filter on the conjunction of their tests. |
| Seqs.FindIndex | src/store/slices/productsSlice.ts:35 | `findIndex`: the index of the first match, or none exactly when nothing matches. |
| Seqs.Find | src/store/slices/productsSlice.ts:44 | `find`: the first matching element, and some element exactly when one matches. |
| Seqs.FindIndexAppend | src/store/slices/cartSlice.ts:22-27 | The first match in `a + b` is the first in `a`, or else the first in `b` shifted past `a`. |
| Seqs.FindIndexSameMatches | src/store/slices/productsSlice.ts:35 | `findIndex` depends only on which positions match. |
| Text.LowerChar | src/store/slices/productsSlice.ts:69 | ASCII lower-casing of a character. Capitals move to lower case and nothing else changes. |
| Text.Lower | src/store/slices/productsSlice.ts:69 | `toLowerCase` keeps the length and lower-cases each character. |
| Text.LowerIdempotent | src/store/slices/productsSlice.ts:69 | Lower-casing twice is lower-casing once. |
| Text.Includes | src/store/slices/productsSlice.ts:77-80 | `includes` is true exactly when some position starts an occurrence of the query. |
| Text.LocaleCompare | src/store/slices/productsSlice.ts:100 | `localeCompare` is 0 exactly for equal names and negative exactly when the first sorts before the second. |
| Text.LocaleCompareFlip | src/store/slices/productsSlice.ts:100-103 | Swapping the names flips the sign of `localeCompare`, so `name_desc` is `name_asc` reversed. |
| Text.LocaleCompareTransitive | src/store/slices/productsSlice.ts:100 | The "sorts no later than" relation of `localeCompare` is transitive. |
| Text.LexLessIrreflexive | src/store/slices/productsSlice.ts:100 | No name sorts strictly before itself. |
| Text.LexLessTransitive | src/store/slices/productsSlice.ts:100 | The strict name order is transitive. |
| Text.LexLessTrichotomy | src/store/slices/productsSlice.ts:100 | Any two distinct names are ordered one way, never both. |
| Ordering.ParseSortKey | src/store/slices/productsSlice.ts:92-110 | The switch recognises exactly the five payload strings, and each maps to its own key: 'price_asc', 'price_desc', 'name_asc', 'name_desc' and 'rating'. Any other string reaches `default`. |
| Ordering.Compare | src/store/slices/productsSlice.ts:93-107 | Each comparator puts `a` after `b` exactly when the key demands it and ties exactly on equal keys. price_asc means a higher price, price_desc a lower price, name_asc a later name, name_desc an earlier name, and rating a lower rating. |
| Ordering.CompareFlip | src/store/slices/productsSlice.ts:93-107 | Each of the five comparators is antisymmetric in sign. |
| Ordering.CompareTransitive | src/store/slices/productsSlice.ts:93-107 | Each of the five comparators orders transitively. |
| Ordering.ComparatorIsPreorder | src/store/slices/productsSlice.ts:93-107 | Each comparator passed to `sort` is a consistent comparator (a total preorder), so the sort's result is well defined. |
| Ordering.SortedMeans | src/store/slices/productsSlice.ts:93-107 | In a view sorted by a key: price_asc means prices never fall, price_desc means they never rise, name_asc and name_desc mean names in that order, and rating means ratings never rise. |
| Ordering.Insert | src/store/slices/productsSlice.ts:94 | Insertion grows the sorted prefix by one element. |
| Ordering.SortBy | src/store/slices/productsSlice.ts:94 | The sort keeps the view's length. |
| Ordering.SortByPermutes | src/store/slices/productsSlice.ts:94 | The sorted view is a permutation of the view. |
| Ordering.SortBySorted | src/store/slices/productsSlice.ts:94 | The sorted view is in the comparator's order. |
| Ordering.SortByStable | src/store/slices/productsSlice.ts:94 | Products that compare equal keep their relative order, so the sort is stable. |
| Ordering.InsertPermutes | src/store/slices/productsSlice.ts:94 | Inserting adds exactly that element. |
| Ordering.InsertSorted | src/store/slices/productsSlice.ts:94 | Inserting into a sorted prefix keeps it sorted. |
| Ordering.InsertTies | src/store/slices/productsSlice.ts:94 | Inserting keeps the order of the elements tied with any product. |
| Ordering.InsertAt | src/store/slices/productsSlice.ts:94 | Insertion places the element just after the last element that does not sort after it. |
| Ordering.ShiftGreater | src/store/slices/productsSlice.ts:94 | The in-place shift moves the run of elements that sort after the new one right by one place and leaves a gap for it. |
| Ordering.InsertLast | src/store/slices/productsSlice.ts:94 | One in-place step turns the array's prefix into `Insert` of the old prefix and the next element, and leaves the rest unchanged. |
| Ordering.SortInPlace | src/store/slices/productsSlice.ts:94 | Sorting the array in place leaves exactly `SortBy` of its old contents. |
| Catalog.AddProduct | src/store/slices/productsSlice.ts:31-33 | `addProduct` appends exactly one product at the end and changes nothing else. |
| Catalog.UpdateProduct | src/store/slices/productsSlice.ts:34-39 | Only the first product with the payload's id is replaced, every other index is unchanged, and with no match nothing changes. |
| Catalog.DeleteProduct | src/store/slices/productsSlice.ts:40-42 | The list becomes the order-preserving `filter` of the products with another id. No product with the id remains, every other product is kept, and nothing but the list changes. |
| Catalog.DeleteKeepsOthers | src/store/slices/productsSlice.ts:40-42 | A delete keeps every product with another id as many times as it occurred. |
| Catalog.SetSelectedProduct | src/store/slices/productsSlice.ts:43-46 | The selection is the first product in the full list with the id. It is null exactly when no product has the id. Nothing else changes. |
| Catalog.ClearSelectedProduct | src/store/slices/productsSlice.ts:47-49 | The selection becomes null and nothing else changes. |
| Catalog.UpdateThenSelect | src/store/slices/productsSlice.ts:34-46 | After updating a product that exists, selecting its id yields the new product. |
| Catalog.DeleteThenSelect | src/store/slices/productsSlice.ts:40-46 | After deleting an id, selecting it yields null. |
| Catalog.FilterByCategory | src/store/slices/productsSlice.ts:50-56 | Sets the category and clears the subcategory. The view holds exactly the products of that category, in list order. The list, selection and query are unchanged. |
| Catalog.FilterBySubCategory | src/store/slices/productsSlice.ts:57-66 | A no-op while the category is null or empty. Otherwise it sets the subcategory. The view becomes the order-preserving `filter` of the list on the current category and that subcategory, so it holds exactly those products. Nothing else changes. |
| Catalog.SubCategoryNeedsCategory | src/store/slices/productsSlice.ts:58 | With the category null or the empty string (which JavaScript treats as false), the subcategory filter leaves the state unchanged. |
| Catalog.SubCategoryThenCategory | src/store/slices/productsSlice.ts:50-66 | Filtering by subcategory and then by category gives the same state as the category filter alone. |
| Catalog.CategoryThenSubCategory | src/store/slices/productsSlice.ts:50-66 | Filtering by a non-empty category and then a subcategory narrows the category's view, in order, to that subcategory. |
| Catalog.RacketGripsExample | src/store/slices/productsSlice.ts:50-66 | Concretely, the 'rackets' category narrowed to 'grips' keeps the grip and drops a clothing item. |
| Catalog.SearchProducts | src/store/slices/productsSlice.ts:67-82 | Stores the query verbatim. An empty query shows the whole list. Otherwise the view becomes the order-preserving `filter` of the list on the lower-cased query, so it holds exactly the products whose lower-cased name, description, category or subcategory contains it. Nothing else changes. |
| Catalog.MatchesMeans | src/store/slices/productsSlice.ts:76-81 | A product passes the search test exactly when the lower-cased query occurs at some position of its lower-cased name, description, category or (when present) subcategory. |
| Catalog.SearchIgnoresCase | src/store/slices/productsSlice.ts:67-82 | A query and its lower-cased form select the same products. |
| Catalog.ClearFilters | src/store/slices/productsSlice.ts:83-88 | The view is the whole list again. Category, subcategory and query are reset. The list and selection are unchanged. |
| Catalog.SortProducts | src/store/slices/productsSlice.ts:89-111 | An unrecognised payload changes nothing. The view keeps its length. Only the view changes. |
| Catalog.SortProductsOrders | src/store/slices/productsSlice.ts:89-111 | With a recognised key, the view ends up in the key's order. It is a permutation of the old view. Products that tie keep their relative order. The full list is untouched. |
| Catalog.PriceAscExample | src/store/slices/productsSlice.ts:93-95 | Concretely, prices 30, 10, 20 sorted with 'price_asc' come out 10, 20, 30. |
| Catalog.Initial | src/store/slices/productsSlice.ts:16-25 | `initialState` shows the whole seed list, with no filter parameters and no selection: clearing the filters and the selection leaves it unchanged. |
| CatalogStore.ToArray | src/store/slices/productsSlice.ts:53-55 | A fresh array holding exactly the sequence a `filter` returns. |
| CatalogStore.Store.constructor | src/store/slices/productsSlice.ts:16-25 | The store starts in `initialState` over the seed list. |
| CatalogStore.Store.AddProduct | src/store/slices/productsSlice.ts:31-33 | Ends in `Catalog.AddProduct` of the old state; the view array is not replaced. |
| CatalogStore.Store.UpdateProduct | src/store/slices/productsSlice.ts:34-39 | Ends in `Catalog.UpdateProduct` of the old state. |
| CatalogStore.Store.DeleteProduct | src/store/slices/productsSlice.ts:40-42 | Ends in `Catalog.DeleteProduct` of the old state. |
| CatalogStore.Store.SetSelectedProduct | src/store/slices/productsSlice.ts:43-46 | Ends in `Catalog.SetSelectedProduct` of the old state. |
| CatalogStore.Store.ClearSelectedProduct | src/store/slices/productsSlice.ts:47-49 | Ends in `Catalog.ClearSelectedProduct` of the old state. |
| CatalogStore.Store.FilterByCategory | src/store/slices/productsSlice.ts:50-56 | Ends in `Catalog.FilterByCategory` of the old state, with a fresh view array. |
| CatalogStore.Store.FilterBySubCategory | src/store/slices/productsSlice.ts:57-66 | Ends in `Catalog.FilterBySubCategory` of the old state. |
| CatalogStore.Store.SearchProducts | src/store/slices/productsSlice.ts:67-82 | Ends in `Catalog.SearchProducts` of the old state, with a fresh view array. |
| CatalogStore.Store.ClearFilters | src/store/slices/productsSlice.ts:83-88 | Ends in `Catalog.ClearFilters` of the old state, with a fresh view array. |
| CatalogStore.Store.SortProducts | src/store/slices/productsSlice.ts:89-111 | Sorting the view array in place ends in `Catalog.SortProducts` of the old state. |

## Left out

- The `loading` and `error` fields of the products state: no reducer writes them.
- Floating-point arithmetic: prices and ratings are integers. The display-time tax and `toFixed(2)` rounding belong to the cart and checkout pages.
- Unicode case mapping and locale-aware collation: `toLowerCase` is ASCII lower-casing and `localeCompare` is lexicographic order on character codes.
- The sorting algorithm the JavaScript engine uses: only its observable result, a stable sort by the comparator, is modelled, by an insertion sort.
- The comparators' behaviour on `NaN` prices or ratings: integers cannot be `NaN`.
- The product fields no reducer reads: `imageUrl`, `specifications` and `featured`.
- The static seed data: the catalog's initial state takes the seed list as a parameter.
- Redux Toolkit and Immer plumbing (`createSlice`, action creators, draft finalisation): each reducer is a state transition, and the stores are called directly.
- Sharing between the cart line objects and the catalog's product objects, and between `products` and `filteredProducts`: Immer publishes immutable values, so the model holds values and no update through one field can show through another.
- The React pages and components, routing, the mock login and its timers.
- Cart.AddToCartKeepsConsistent: holds only when every cart line with the payload's id was added at the payload's price. `addToCart` on an existing line adds the payload's price to totalAmount but keeps the line's stored product. After the product is re-priced (for instance by `updateProduct`), the totals drift from the lines, as `Cart.AddToCartRepricedDrifts` shows.
- CartStore.Store.AddToCart: keeps the invariant only under the same price condition, for the same reason.
