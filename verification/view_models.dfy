/** The view models the MVC controllers fill in: the product list with its
    paging flags, the product detail page, and the dashboard. */
module ViewModels {
  import opened Optional
  import opened Numeric
  import opened Loading

  /** `ProductListViewModel`. */
  datatype ProductListViewModel = ProductListViewModel(
    products: seq<LoadedProduct>,
    currentCategory: Option<CategoryDetail>,
    searchTerm: Option<string>,
    currentPage: int32,
    totalPages: int32)

  /** `new ProductListViewModel()`: no products, no category, no search
      term, on page 1 of 0. */
  const EmptyProductList := ProductListViewModel([], None, None, 1, 0)

  /** `HasNextPage`. */
  predicate HasNextPage(vm: ProductListViewModel) {
    vm.currentPage < vm.totalPages
  }

  /** `HasPreviousPage`. */
  predicate HasPreviousPage(vm: ProductListViewModel) {
    vm.currentPage > 1
  }

  /** A fresh list view shows neither paging link. */
  lemma EmptyProductListFlags()
    ensures !HasNextPage(EmptyProductList) && !HasPreviousPage(EmptyProductList)
    ensures EmptyProductList.products == [] && EmptyProductList.currentCategory.None?
  {
  }

  /** Both links show exactly on an inner page; with at most one page
      counted, the next-page link never shows on a page from 1 on. */
  lemma PagingFlagsMeaning(vm: ProductListViewModel)
    ensures HasNextPage(vm) && HasPreviousPage(vm) <==> 1 < vm.currentPage < vm.totalPages
    ensures vm.totalPages <= 1 && vm.currentPage >= 1 ==> !HasNextPage(vm)
  {
  }

  /** `ProductDetailViewModel`. */
  datatype ProductDetailViewModel = ProductDetailViewModel(product: LoadedProduct, relatedProducts: seq<LoadedProduct>)

  /** `CategorySummary`. */
  datatype CategorySummary = CategorySummary(categoryId: int, categoryName: string, description: Option<string>, productCount: int)

  /** `HomeViewModel`; the inventory value is in minor units. */
  datatype HomeViewModel = HomeViewModel(
    categoryCount: int,
    productCount: int,
    supplierCount: int,
    reorderAlertCount: int,
    totalInventoryValue: int,
    featuredCategories: seq<CategorySummary>)
}
