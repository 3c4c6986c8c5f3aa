/**
 * The catalog reducers as Redux Toolkit runs them, on a draft updated in
 * place. The product list is reassigned (`push`, index assignment,
 * `filter`); the filtered view is an array that filters replace with a
 * fresh one and `sortProducts` reorders in place. Each method lands in the
 * state the matching transition of module Catalog describes.
 */
module CatalogStore {
  import opened Wrappers
  import opened Types
  import opened Seqs
  import opened Text
  import opened Ordering
  import Catalog

  /** A fresh array holding `s`: the new array a `filter` call or a whole-list assignment produces. */
  method ToArray(s: seq<Product>) returns (a: array<Product>)
    ensures fresh(a) && a[..] == s
  {
    a := new Product[|s|](i requires 0 <= i < |s| => s[i]);
  }

  /** The products slice's state. */
  class Store {
    var products: seq<Product>
    var selectedProduct: Option<Product>
    var filteredProducts: array<Product>
    var searchQuery: string
    var currentCategory: Option<string>
    var currentSubCategory: Option<string>

    ghost function View(): Catalog.CatalogState
      reads this, filteredProducts
    {
      Catalog.CatalogState(products, selectedProduct, filteredProducts[..], searchQuery,
                           currentCategory, currentSubCategory)
    }

    /** `initialState` over the seed list. */
    constructor (seed: seq<Product>)
      ensures View() == Catalog.Initial(seed)
    {
      var view := ToArray(seed);
      products := seed;
      selectedProduct := None;
      filteredProducts := view;
      searchQuery := "";
      currentCategory := None;
      currentSubCategory := None;
    }

    method AddProduct(product: Product)
      modifies this
      ensures View() == Catalog.AddProduct(old(View()), product)
      ensures filteredProducts == old(filteredProducts)
    {
      products := products + [product];
    }

    method UpdateProduct(product: Product)
      modifies this
      ensures View() == Catalog.UpdateProduct(old(View()), product)
      ensures filteredProducts == old(filteredProducts)
    {
      match FindIndex(products, Catalog.HasId(product.id)) {
        case None =>
        case Some(index) =>
          products := products[index := product];
      }
    }

    method DeleteProduct(productId: string)
      modifies this
      ensures View() == Catalog.DeleteProduct(old(View()), productId)
      ensures filteredProducts == old(filteredProducts)
    {
      products := Filter(products, Catalog.OtherId(productId));
    }

    method SetSelectedProduct(productId: string)
      modifies this
      ensures View() == Catalog.SetSelectedProduct(old(View()), productId)
      ensures filteredProducts == old(filteredProducts)
    {
      selectedProduct := Find(products, Catalog.HasId(productId));
    }

    method ClearSelectedProduct()
      modifies this
      ensures View() == Catalog.ClearSelectedProduct(old(View()))
      ensures filteredProducts == old(filteredProducts)
    {
      selectedProduct := None;
    }

    method FilterByCategory(category: string)
      modifies this
      ensures View() == Catalog.FilterByCategory(old(View()), category)
      ensures fresh(filteredProducts)
    {
      currentCategory := Some(category);
      currentSubCategory := None;
      filteredProducts := ToArray(Filter(products, Catalog.InCategory(category)));
    }

    method FilterBySubCategory(subCategory: string)
      modifies this
      ensures View() == Catalog.FilterBySubCategory(old(View()), subCategory)
    {
      if !Catalog.CategorySet(currentCategory) {
        return;
      }
      currentSubCategory := Some(subCategory);
      filteredProducts := ToArray(Filter(products, Catalog.InSubCategory(currentCategory.value, subCategory)));
    }

    method SearchProducts(query: string)
      modifies this
      ensures View() == Catalog.SearchProducts(old(View()), query)
      ensures fresh(filteredProducts)
    {
      searchQuery := query;
      var lowered := Lower(query);
      if lowered == "" {
        filteredProducts := ToArray(products);
        return;
      }
      filteredProducts := ToArray(Filter(products, Catalog.Matches(lowered)));
    }

    method ClearFilters()
      modifies this
      ensures View() == Catalog.ClearFilters(old(View()))
      ensures fresh(filteredProducts)
    {
      filteredProducts := ToArray(products);
      currentCategory := None;
      currentSubCategory := None;
      searchQuery := "";
    }

    /** Sorts the view in place; the product list is a different value and cannot change. */
    method SortProducts(sortType: string)
      modifies filteredProducts
      ensures View() == Catalog.SortProducts(old(View()), sortType)
    {
      match ParseSortKey(sortType) {
        case None =>
        case Some(k) => SortInPlace(filteredProducts, Comparator(k));
      }
    }
  }
}
