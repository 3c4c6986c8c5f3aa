/**
 * The catalog reducer (src/store/slices/productsSlice.ts) as pure state
 * transitions: the full product list, the filtered view derived from it,
 * the selected product and the last filter parameters. The class in
 * CatalogStore.dfy performs the same steps on a store whose view is an
 * array sorted in place.
 */
module Catalog {
  import opened Wrappers
  import opened Types
  import opened Seqs
  import opened Text
  import opened Ordering

  /** `ProductsState`, without `loading` and `error`, which no reducer writes. */
  datatype CatalogState = CatalogState(
    products: seq<Product>,
    selectedProduct: Option<Product>,
    filteredProducts: seq<Product>,
    searchQuery: string,
    currentCategory: Option<string>,
    currentSubCategory: Option<string>)

  /** `initialState` over the seed list: everything shown, nothing selected or filtered. */
  function Initial(seed: seq<Product>): (r: CatalogState)
    ensures r.products == seed && r.filteredProducts == seed
    ensures ClearSelectedProduct(ClearFilters(r)) == r
  {
    CatalogState(seed, None, seed, "", None, None)
  }

  /** `p => p.id === id`. */
  function HasId(id: string): Product -> bool
  {
    (p: Product) => p.id == id
  }

  /** `p => p.id !== id`. */
  function OtherId(id: string): Product -> bool
  {
    (p: Product) => p.id != id
  }

  /** `product => product.category === category`. */
  function InCategory(category: string): Product -> bool
  {
    (p: Product) => p.category == category
  }

  /** Both the current category and the requested subcategory match. */
  function InSubCategory(category: string, subCategory: string): Product -> bool
  {
    (p: Product) => p.category == category && p.subCategory == Some(subCategory)
  }

  /** `product => product.subCategory === subCategory`. */
  function HasSubCategory(subCategory: string): Product -> bool
  {
    (p: Product) => p.subCategory == Some(subCategory)
  }

  /** The search test for an already lower-cased query. */
  function Matches(query: string): Product -> bool
  {
    (p: Product) =>
      || Includes(Lower(p.name), query)
      || Includes(Lower(p.description), query)
      || Includes(Lower(p.category), query)
      || (p.subCategory.Some? && Includes(Lower(p.subCategory.value), query))
  }

  /** The fields the search looks at: name, description, category and, when present, subcategory. */
  function SearchFields(p: Product): seq<string>
  {
    [p.name, p.description, p.category] + (if p.subCategory.Some? then [p.subCategory.value] else [])
  }

  /** A product matches a lower-cased query exactly when the query occurs in one of its lower-cased search fields. */
  lemma MatchesMeans(query: string, p: Product)
    ensures Matches(query)(p) <==> exists f, i: nat :: f in SearchFields(p) && OccursAt(Lower(f), query, i)
  {
    var fs := SearchFields(p);
    assert fs[0] == p.name && fs[1] == p.description && fs[2] == p.category;
    assert p.subCategory.Some? ==> fs[3] == p.subCategory.value;
    if exists f, i: nat :: f in fs && OccursAt(Lower(f), query, i) {
      var f, i: nat :| f in fs && OccursAt(Lower(f), query, i);
      assert Includes(Lower(f), query);
    }
  }

  /** A category is set when it is neither null nor the empty string. */
  predicate CategorySet(c: Option<string>)
  {
    c.Some? && c.value != ""
  }

  // ---------------------------------------------------------------------------
  // Admin operations on the product list

  /** `addProduct`: appends one product; nothing else changes. */
  function AddProduct(st: CatalogState, p: Product): (r: CatalogState)
    ensures |r.products| == |st.products| + 1
    ensures r.products[..|st.products|] == st.products && r.products[|st.products|] == p
    ensures r.(products := st.products) == st
  {
    st.(products := st.products + [p])
  }

  /** `updateProduct`: replaces the first product with the payload's id, if any. */
  function UpdateProduct(st: CatalogState, p: Product): (r: CatalogState)
    ensures |r.products| == |st.products|
    ensures forall j :: 0 <= j < |st.products| ==>
      r.products[j] == if FindIndex(st.products, HasId(p.id)) == Some(j) then p else st.products[j]
    ensures FindIndex(st.products, HasId(p.id)).None? ==> r == st
    ensures r.(products := st.products) == st
  {
    match FindIndex(st.products, HasId(p.id))
    case None => st
    case Some(i) => st.(products := st.products[i := p])
  }

  /** `deleteProduct`: drops every product with that id. */
  function DeleteProduct(st: CatalogState, id: string): (r: CatalogState)
    ensures forall j :: 0 <= j < |r.products| ==> r.products[j].id != id
    ensures r.products == Filter(st.products, OtherId(id))
    ensures forall j :: 0 <= j < |st.products| && st.products[j].id != id ==> st.products[j] in r.products
    ensures r.(products := st.products) == st
  {
    st.(products := Filter(st.products, OtherId(id)))
  }

  // ---------------------------------------------------------------------------
  // Selection

  /** `setSelectedProduct`: the first product in the full list with that id, or none. */
  function SetSelectedProduct(st: CatalogState, id: string): (r: CatalogState)
    ensures r.selectedProduct.Some? <==> exists j :: 0 <= j < |st.products| && st.products[j].id == id
    ensures r.selectedProduct.Some? ==>
      exists j :: 0 <= j < |st.products| && st.products[j] == r.selectedProduct.value && st.products[j].id == id &&
        forall m :: 0 <= m < j ==> st.products[m].id != id
    ensures r.(selectedProduct := st.selectedProduct) == st
  {
    st.(selectedProduct := Find(st.products, HasId(id)))
  }

  /** `clearSelectedProduct`. */
  function ClearSelectedProduct(st: CatalogState): (r: CatalogState)
    ensures r.selectedProduct.None?
    ensures r.(selectedProduct := st.selectedProduct) == st
  {
    st.(selectedProduct := None)
  }

  // ---------------------------------------------------------------------------
  // The filtered view

  /** `filterByCategory`: exactly the products of that category, in list order. */
  function FilterByCategory(st: CatalogState, category: string): (r: CatalogState)
    ensures r.currentCategory == Some(category) && r.currentSubCategory.None?
    ensures forall q :: q in r.filteredProducts <==> q in st.products && q.category == category
    ensures r.filteredProducts == Filter(st.products, InCategory(category))
    ensures r.products == st.products && r.selectedProduct == st.selectedProduct
    ensures r.searchQuery == st.searchQuery
  {
    st.(currentCategory := Some(category),
        currentSubCategory := None,
        filteredProducts := Filter(st.products, InCategory(category)))
  }

  /** `filterBySubCategory`: narrows to the current category's subcategory; ignored while no category is set. */
  function FilterBySubCategory(st: CatalogState, subCategory: string): (r: CatalogState)
    ensures !CategorySet(st.currentCategory) ==> r == st
    ensures CategorySet(st.currentCategory) ==>
      && r.currentSubCategory == Some(subCategory)
      && (forall q :: q in r.filteredProducts <==>
            q in st.products && q.category == st.currentCategory.value && q.subCategory == Some(subCategory))
      && r.filteredProducts == Filter(st.products, InSubCategory(st.currentCategory.value, subCategory))
      && r.(currentSubCategory := st.currentSubCategory, filteredProducts := st.filteredProducts) == st
  {
    if !CategorySet(st.currentCategory) then st
    else
      st.(currentSubCategory := Some(subCategory),
          filteredProducts := Filter(st.products, InSubCategory(st.currentCategory.value, subCategory)))
  }

  /** `searchProducts`: keeps the query verbatim and filters case-insensitively; the empty query shows everything. */
  function SearchProducts(st: CatalogState, query: string): (r: CatalogState)
    ensures r.searchQuery == query
    ensures query == "" ==> r.filteredProducts == st.products
    ensures query != "" ==> forall q :: q in r.filteredProducts <==> q in st.products && Matches(Lower(query))(q)
    ensures query != "" ==> r.filteredProducts == Filter(st.products, Matches(Lower(query)))
    ensures r.(searchQuery := st.searchQuery, filteredProducts := st.filteredProducts) == st
  {
    var lowered := Lower(query);
    if lowered == "" then st.(searchQuery := query, filteredProducts := st.products)
    else st.(searchQuery := query, filteredProducts := Filter(st.products, Matches(lowered)))
  }

  /** `clearFilters`: the whole list again, with no filter parameters. */
  function ClearFilters(st: CatalogState): (r: CatalogState)
    ensures r.filteredProducts == st.products
    ensures r.currentCategory.None? && r.currentSubCategory.None? && r.searchQuery == ""
    ensures r.products == st.products && r.selectedProduct == st.selectedProduct
  {
    st.(filteredProducts := st.products, currentCategory := None, currentSubCategory := None, searchQuery := "")
  }

  /** `sortProducts`: reorders the filtered view by the key; an unknown payload changes nothing. */
  function SortProducts(st: CatalogState, sortType: string): (r: CatalogState)
    ensures ParseSortKey(sortType).None? ==> r == st
    ensures |r.filteredProducts| == |st.filteredProducts|
    ensures r.(filteredProducts := st.filteredProducts) == st
  {
    match ParseSortKey(sortType)
    case None => st
    case Some(k) => st.(filteredProducts := SortBy(Comparator(k), st.filteredProducts))
  }

  // ---------------------------------------------------------------------------
  // How the reducers relate to each other

  /**
   * The category page dispatches the subcategory filter before the category
   * filter; the category filter then discards everything the first one did.
   */
  lemma SubCategoryThenCategory(st: CatalogState, subCategory: string, category: string)
    ensures FilterByCategory(FilterBySubCategory(st, subCategory), category) == FilterByCategory(st, category)
  {
  }

  /** With no category, or the empty one (JavaScript treats '' as false), the subcategory filter is ignored. */
  lemma SubCategoryNeedsCategory(st: CatalogState, subCategory: string)
    requires st.currentCategory == None || st.currentCategory == Some("")
    ensures FilterBySubCategory(st, subCategory) == st
  {
  }

  /** In the other order the subcategory filter narrows the category's view, keeping its order. */
  lemma CategoryThenSubCategory(st: CatalogState, category: string, subCategory: string)
    requires category != ""
    ensures
      var byCategory := FilterByCategory(st, category);
      FilterBySubCategory(byCategory, subCategory).filteredProducts ==
        Filter(byCategory.filteredProducts, HasSubCategory(subCategory))
  {
    FilterFilter(st.products, InCategory(category), HasSubCategory(subCategory), InSubCategory(category, subCategory));
  }

  /** The search is case-insensitive: a query and its lower-cased form select the same products. */
  lemma SearchIgnoresCase(st: CatalogState, query: string)
    ensures SearchProducts(st, query).filteredProducts == SearchProducts(st, Lower(query)).filteredProducts
  {
    LowerIdempotent(query);
  }

  /** After an update, looking the id up finds the new product. */
  lemma UpdateThenSelect(st: CatalogState, p: Product)
    requires exists j :: 0 <= j < |st.products| && st.products[j].id == p.id
    ensures SetSelectedProduct(UpdateProduct(st, p), p.id).selectedProduct == Some(p)
  {
    var r := UpdateProduct(st, p);
    FindIndexSameMatches(r.products, st.products, HasId(p.id), HasId(p.id));
  }

  /** After a delete, looking the id up finds nothing. */
  lemma DeleteThenSelect(st: CatalogState, id: string)
    ensures SetSelectedProduct(DeleteProduct(st, id), id).selectedProduct.None?
  {
  }

  /** A delete keeps every other product, as many times as it occurred. */
  lemma DeleteKeepsOthers(st: CatalogState, id: string, q: Product)
    requires q.id != id
    ensures multiset(DeleteProduct(st, id).products)[q] == multiset(st.products)[q]
  {
    FilterMultiset(st.products, OtherId(id), q);
  }

  /**
   * With a recognised key the view ends up in the key's order, as a
   * permutation of itself, with products that tie keeping their relative
   * order; the full list is untouched.
   */
  lemma SortProductsOrders(st: CatalogState, sortType: string, k: SortKey)
    requires ParseSortKey(sortType) == Some(k)
    ensures Sorted(Comparator(k), SortProducts(st, sortType).filteredProducts)
    ensures multiset(SortProducts(st, sortType).filteredProducts) == multiset(st.filteredProducts)
    ensures forall p :: Filter(SortProducts(st, sortType).filteredProducts, Ties(Comparator(k), p)) ==
                        Filter(st.filteredProducts, Ties(Comparator(k), p))
    ensures SortProducts(st, sortType).products == st.products
  {
    var cmp := Comparator(k);
    ComparatorIsPreorder(k);
    SortBySorted(cmp, st.filteredProducts);
    SortByPermutes(cmp, st.filteredProducts);
    forall p ensures Filter(SortBy(cmp, st.filteredProducts), Ties(cmp, p)) == Filter(st.filteredProducts, Ties(cmp, p)) {
      SortByStable(cmp, st.filteredProducts, p);
    }
  }

  /** Prices 30, 10, 20 sorted with 'price_asc' come out 10, 20, 30. */
  lemma PriceAscExample(st: CatalogState, a: Product, b: Product, c: Product)
    requires a.price == 30 && b.price == 10 && c.price == 20
    requires st.filteredProducts == [a, b, c]
    ensures SortProducts(st, "price_asc").filteredProducts == [b, c, a]
  {
    var cmp := Comparator(PriceAsc);
    var s := [a, b, c];
    assert s[..2] == [a, b] && [a, b][..1] == [a] && [a][..0] == [];
    assert SortBy(cmp, [a]) == [a];
    assert Insert(cmp, [a], b) == [b, a] by {
      assert [a][..0] == [];
    }
    assert SortBy(cmp, [a, b]) == [b, a];
    assert Insert(cmp, [b, a], c) == [b, c, a] by {
      assert [b, a][..1] == [b];
    }
  }

  /** Category 'rackets' narrowed to 'grips' keeps the racket grip and drops the clothing. */
  lemma RacketGripsExample(st: CatalogState, grip: Product, shirt: Product)
    requires grip.category == "rackets" && grip.subCategory == Some("grips")
    requires shirt.category == "clothes"
    requires st.products == [grip, shirt]
    ensures FilterBySubCategory(FilterByCategory(st, "rackets"), "grips").filteredProducts == [grip]
  {
    var f := InSubCategory("rackets", "grips");
    assert [grip, shirt][1..] == [shirt] && [shirt][1..] == [];
    assert Filter([shirt], f) == [];
    assert Filter([grip, shirt], f) == [grip];
  }
}
