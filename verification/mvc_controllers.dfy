/** The MVC products controller: which view or status each action yields,
    and what the view is handed, as functions of the store and the cache. */
module MvcProducts {
  import opened Optional
  import opened Numeric
  import opened Entities
  import opened Store
  import opened Loading
  import opened MemoryCache
  import opened ViewModels
  import Seqs
  import Text
  import ProductService
  import CategoryService

  /** What an action returns: a view with its model, or a bare status. */
  datatype Outcome =
    | ListView(list: ProductListViewModel)
    | DetailView(detail: ProductDetailViewModel)
    | BadRequest
    | NotFound

  /** `Index(filter)`: the filtered page, echoing the page number and the
      search term; the current category is looked up only when the filter
      names one. */
  function Index(s: Store, cache: Cache, filter: Option<ProductService.ProductFilter>): (r: Served<ProductListViewModel>)
    ensures var f := filter.GetOr(ProductService.DefaultFilter);
      && r.value.products == ProductService.GetAll(s, Some(f))
      && r.value.searchTerm == f.searchTerm
      && r.value.currentPage == f.page
      && r.value.totalPages == 0
      && (f.categoryId.None? ==> r.value.currentCategory.None? && r.cache == cache)
      && (f.categoryId.Some? ==>
            Served(r.value.currentCategory, r.cache) == CategoryService.GetById(s, cache, f.categoryId.value))
  {
    var f := filter.GetOr(ProductService.DefaultFilter);
    var items := ProductService.GetAll(s, Some(f));
    var vm := EmptyProductList.(products := items, searchTerm := f.searchTerm, currentPage := f.page);
    if f.categoryId.Some? then
      var current := CategoryService.GetById(s, cache, f.categoryId.value);
      Served(vm.(currentCategory := current.value), current.cache)
    else
      Served(vm, cache)
  }

  /** `Index` with no filter lists the first ten active products and no
      category; it never sets the page count, so the next-page link never
      shows for a page from 0 on, and the previous-page link shows exactly
      past page 1. */
  lemma IndexPaging(s: Store, cache: Cache, filter: Option<ProductService.ProductFilter>)
    ensures var vm := Index(s, cache, filter).value;
      && (vm.currentPage >= 0 ==> !HasNextPage(vm))
      && (HasPreviousPage(vm) <==> filter.GetOr(ProductService.DefaultFilter).page > 1)
      && |vm.products| <= ProductService.MaxPageSize as int
    ensures filter.None? ==>
      var vm := Index(s, cache, filter).value;
      && |vm.products| <= 10
      && vm.currentCategory.None? && vm.currentPage == 1
      && forall i :: 0 <= i < |vm.products| ==> !vm.products[i].product.discontinued
  {
    ProductService.GetAllDefaultFirstPage(s);
  }

  /** The related products shown next to product `id`: at most four of the
      category's list, skipping the product itself, in list order. */
  function Related(candidates: seq<LoadedProduct>, id: int): (r: seq<LoadedProduct>)
    ensures |r| <= 4
    ensures forall i :: 0 <= i < |r| ==> r[i].product.productId != id && r[i] in candidates
  {
    Seqs.Take(Seqs.Filter(candidates, (q: LoadedProduct) => q.product.productId != id), 4)
  }

  /** The related products are the first of the other candidates, in their
      order: four of them whenever there are at least four. */
  lemma RelatedIsPrefix(candidates: seq<LoadedProduct>, id: int)
    ensures var others := Seqs.Filter(candidates, (q: LoadedProduct) => q.product.productId != id);
      && Related(candidates, id) == others[..|Related(candidates, id)|]
      && (|others| >= 4 <==> |Related(candidates, id)| == 4)
  {
  }

  /** `Details(id)`: BadRequest without an id, NotFound for a missing
      product, otherwise the product with up to four others from its
      category (none when it has no category). */
  function Details(s: Store, cache: Cache, id: Option<int>): (r: Served<Outcome>)
    ensures id.None? ==> r == Served(BadRequest, cache)
    ensures id.Some? ==>
      var got := ProductService.GetById(s, cache, id.value);
      && (r.value.NotFound? <==> got.value.None?)
      && (r.value.DetailView? <==> got.value.Some?)
      && (r.value.DetailView? ==>
            && r.value.detail.product == got.value.value
            && |r.value.detail.relatedProducts| <= 4
            && (forall i :: 0 <= i < |r.value.detail.relatedProducts| ==>
                  r.value.detail.relatedProducts[i].product.productId != id.value)
            && (got.value.value.product.categoryId.None? ==> r.value.detail.relatedProducts == []))
  {
    if id.None? then Served(BadRequest, cache)
    else
      var got := ProductService.GetById(s, cache, id.value);
      match got.value
      case None => Served(NotFound, got.cache)
      case Some(p) =>
        if p.product.categoryId.Some? then
          var list := ProductService.GetByCategory(s, got.cache, p.product.categoryId.value);
          Served(DetailView(ProductDetailViewModel(p, Related(list.value, id.value))), list.cache)
        else
          Served(DetailView(ProductDetailViewModel(p, [])), got.cache)
  }

  /** With neither the product nor its category's list cached, the related
      products are other active products of the same category. */
  lemma DetailsRelatedFresh(s: Store, cache: Cache, id: int, i: int)
    requires TryGetProduct(cache, ProductKey(id)).None?
    requires HasProduct(s, id)
    requires var p := FindProduct(s, id).value;
      p.categoryId.Some? ==> TryGetProductList(cache, ProductsByCategoryKey(p.categoryId.value)).None?
    requires var d := Details(s, cache, Some(id)).value;
      d.DetailView? && 0 <= i < |d.detail.relatedProducts|
    ensures var d := Details(s, cache, Some(id)).value;
      var q := d.detail.relatedProducts[i].product;
      && q in s.products && !q.discontinued && q.productId != id
      && q.categoryId == d.detail.product.product.categoryId
  {
    var p := FindProduct(s, id).value;
    var got := ProductService.GetById(s, cache, id);
    assert got.value == Some(Load(s, p, true, true));
    var cid := p.categoryId.value;
    MemoryCache.CacheKeysDistinct(id, cid);
    assert TryGetProductList(got.cache, ProductsByCategoryKey(cid)).None?;
  }

  /** `Search(q)`: a blank query shows the empty list without reading the
      store; otherwise the service's search results, echoing the query. */
  function Search(s: Store, q: Option<string>): (r: Outcome)
    ensures r.ListView?
    ensures Text.IsNullOrWhiteSpace(q) ==> r.list == EmptyProductList
    ensures !Text.IsNullOrWhiteSpace(q) ==>
      r.list == EmptyProductList.(products := ProductService.Search(s, q), searchTerm := q)
  {
    if Text.IsNullOrWhiteSpace(q) then ListView(EmptyProductList)
    else ListView(EmptyProductList.(products := ProductService.Search(s, q), searchTerm := q))
  }

  /** A blank query gives the same page whatever the store holds; any other
      shows at most twenty active products whose names contain it. */
  lemma SearchResults(s: Store, other: Store, q: Option<string>)
    ensures Text.IsNullOrWhiteSpace(q) ==> Search(s, q) == Search(other, q)
    ensures var items := Search(s, q).list.products;
      && |items| <= 20
      && forall i :: 0 <= i < |items| ==>
           !items[i].product.discontinued && Text.Contains(items[i].product.productName, q.value)
  {
  }

  /** `ByCategory(id)`: NotFound for a missing category, without asking for
      its products; otherwise that category and its products. */
  function ByCategory(s: Store, cache: Cache, id: int): (r: Served<Outcome>)
    ensures var category := CategoryService.GetById(s, cache, id);
      && (category.value.None? ==> r == Served(NotFound, category.cache))
      && (category.value.Some? ==>
            var items := ProductService.GetByCategory(s, category.cache, id);
            && r.value == ListView(EmptyProductList.(products := items.value, currentCategory := category.value))
            && r.cache == items.cache)
  {
    var category := CategoryService.GetById(s, cache, id);
    if category.value.None? then Served(NotFound, category.cache)
    else
      var items := ProductService.GetByCategory(s, category.cache, id);
      Served(ListView(EmptyProductList.(products := items.value, currentCategory := category.value)), items.cache)
  }

  /** With nothing cached, a category's page lists exactly its active
      products in name order, and a missing category is NotFound. */
  lemma ByCategoryFresh(s: Store, cache: Cache, id: int, x: LoadedProduct)
    requires TryGetCategory(cache, CategoryItemKey(id)).None?
    requires TryGetProductList(cache, ProductsByCategoryKey(id)).None?
    ensures ByCategory(s, cache, id).value.NotFound? <==> !HasCategory(s, id)
    ensures HasCategory(s, id) ==>
      var items := ByCategory(s, cache, id).value.list.products;
      && Seqs.SortedBy(items, ByProductName())
      && (x in items <==> exists i :: 0 <= i < |s.products| && s.products[i].categoryId == Some(id)
                                      && !s.products[i].discontinued && x == Load(s, s.products[i], false, true))
  {
    var category := CategoryService.GetById(s, cache, id);
    MemoryCache.CacheKeysDistinct(id, id);
    assert TryGetProductList(category.cache, ProductsByCategoryKey(id)).None?;
    ProductService.CategoryProductsMembers(s, id, x);
  }

  /** `ReorderAlerts()`: the reorder list in the list view. */
  function ReorderAlerts(s: Store): (r: Outcome)
    ensures r.ListView? && r.list.currentCategory.None? && r.list.searchTerm.None?
    ensures Seqs.SortedBy(r.list.products, ByUnitsInStock())
    ensures forall i :: 0 <= i < |r.list.products| ==> NeedsReorder(r.list.products[i].product)
    ensures r.list.products == ProductService.GetNeedingReorder(s)
    ensures multiset(r.list.products) == multiset(Listing(s, NeedsReorder, true, true))
  {
    ListView(EmptyProductList.(products := ProductService.GetNeedingReorder(s)))
  }

  /** The product served for `id`, from the store or from its own cache
      entry, carries that id, provided cached entries are keyed by their
      product's id. */
  lemma ProductIdOfServed(s: Store, cache: Cache, id: int)
    requires ProductEntriesKeyed(cache)
    ensures var got := ProductService.GetById(s, cache, id);
      got.value.Some? ==> got.value.value.product.productId == id
  {
    var key := ProductKey(id);
    if TryGetProduct(cache, key).Some? {
      var p := cache[key].product;
      assert ProductKey(p.product.productId) == key;
      MemoryCache.CacheKeysDistinct(p.product.productId, id);
    }
  }

  /** Every product entry of the cache is stored under its own id's key, as
      `GetByIdAsync` stores them. */
  predicate ProductEntriesKeyed(cache: Cache) {
    forall k :: k in cache && cache[k].ProductItem? ==> k == ProductKey(cache[k].product.product.productId)
  }

  /** The product lookups keep the cache keyed that way. */
  lemma GetByIdKeepsKeyed(s: Store, cache: Cache, id: int)
    requires ProductEntriesKeyed(cache)
    ensures ProductEntriesKeyed(ProductService.GetById(s, cache, id).cache)
  {
  }

  /** So the details page always shows the product that was asked for. */
  lemma DetailsShowsRequested(s: Store, cache: Cache, id: int)
    requires ProductEntriesKeyed(cache)
    ensures Details(s, cache, Some(id)).value.DetailView? ==>
      Details(s, cache, Some(id)).value.detail.product.product.productId == id
  {
    ProductIdOfServed(s, cache, id);
  }
}

/** The MVC categories controller. */
module MvcCategories {
  import opened Optional
  import opened Store
  import opened Loading
  import opened MemoryCache
  import CategoryService

  datatype Outcome =
    | CountsView(rows: seq<CategoryWithProductCount>)
    | CategoryView(detail: CategoryDetail)
    | BadRequest
    | NotFound

  /** `Index()`: the per-category counts, passed through unchanged. */
  function Index(s: Store, cache: Cache): (r: Served<Outcome>)
    ensures r.value.CountsView?
    ensures var counts := CategoryService.GetWithProductCounts(s, cache);
      r.value.rows == counts.value && r.cache == counts.cache
  {
    var counts := CategoryService.GetWithProductCounts(s, cache);
    Served(CountsView(counts.value), counts.cache)
  }

  /** `Details(id)`: BadRequest without an id (the service is not asked),
      NotFound for a missing category, otherwise a view of exactly the
      category the service returned. */
  function Details(s: Store, cache: Cache, id: Option<int>): (r: Served<Outcome>)
    ensures id.None? ==> r == Served(BadRequest, cache)
    ensures id.Some? ==>
      var got := CategoryService.GetById(s, cache, id.value);
      && r.cache == got.cache
      && (r.value.NotFound? <==> got.value.None?)
      && (got.value.Some? ==> r.value == CategoryView(got.value.value))
  {
    if id.None? then Served(BadRequest, cache)
    else
      var got := CategoryService.GetById(s, cache, id.value);
      match got.value
      case None => Served(NotFound, got.cache)
      case Some(c) => Served(CategoryView(c), got.cache)
  }

  /** With nothing cached for it, a present category's page lists exactly
      its active products; an absent one is NotFound. */
  lemma DetailsFresh(s: Store, cache: Cache, id: int)
    requires TryGetCategory(cache, CategoryItemKey(id)).None?
    ensures Details(s, cache, Some(id)).value.NotFound? <==> !HasCategory(s, id)
    ensures HasCategory(s, id) ==>
      && Details(s, cache, Some(id)).value.CategoryView?
      && Details(s, cache, Some(id)).value.detail.category.categoryId == id
      && Details(s, cache, Some(id)).value.detail.products == CategoryService.ActiveProductsOf(s, id)
  {
  }
}

/** The MVC home controller's dashboard, computed step by step. */
module MvcHome {
  import opened Optional
  import opened Entities
  import opened Store
  import opened Loading
  import opened MemoryCache
  import opened ViewModels
  import Seqs
  import ProductService
  import CategoryService

  const FeaturedCount := 4

  function ActiveCountOf(c: CategoryWithProductCount): int { c.activeProductCount }

  /** `(p.UnitPrice ?? 0) * (p.UnitsInStock ?? 0)`, as the query sums it. */
  function StockValue(p: Product): (r: int)
    ensures r == InventoryValue(p)
    ensures p.unitPrice.None? || p.unitsInStock.None? ==> r == 0
  {
    p.unitPrice.GetOr(0) * (if p.unitsInStock.Some? then p.unitsInStock.value as int else 0)
  }

  function Summary(c: CategoryWithProductCount): (r: CategorySummary)
    ensures r.categoryId == c.categoryId && r.categoryName == c.categoryName
    ensures r.description == c.description && r.productCount == c.activeProductCount
  {
    CategorySummary(c.categoryId, c.categoryName, c.description, c.activeProductCount)
  }

  /** `Index()`: the category rows (through the cache), the reorder list,
      the value of active stock and the supplier count. */
  function Index(s: Store, cache: Cache): (r: Served<HomeViewModel>)
    ensures var cats := CategoryService.GetWithProductCounts(s, cache).value;
      && r.cache == CategoryService.GetWithProductCounts(s, cache).cache
      && r.value.categoryCount == |cats|
      && r.value.productCount == Seqs.Sum(cats, ActiveCountOf)
      && r.value.supplierCount == |s.suppliers|
      && r.value.reorderAlertCount == |ProductService.GetNeedingReorder(s)|
      && |r.value.featuredCategories| == (if |cats| < FeaturedCount then |cats| else FeaturedCount)
      && forall i :: 0 <= i < |r.value.featuredCategories| ==> r.value.featuredCategories[i] == Summary(cats[i])
  {
    var counts := CategoryService.GetWithProductCounts(s, cache);
    var cats := counts.value;
    var reorder := ProductService.GetNeedingReorder(s);
    var inventory := Seqs.Sum(Seqs.Filter(s.products, (p: Product) => !p.discontinued), StockValue);
    var featured := Seqs.Map(Seqs.Take(cats, FeaturedCount), Summary);
    Served(HomeViewModel(|cats|, Seqs.Sum(cats, ActiveCountOf), |s.suppliers|, |reorder|, inventory, featured), counts.cache)
  }

  /** The inventory figure is the sum of the products' own `InventoryValue`
      over the active products. */
  lemma InventoryIsSumOfValues(s: Store, cache: Cache)
    ensures Index(s, cache).value.totalInventoryValue
         == Seqs.Sum(Seqs.Filter(s.products, (p: Product) => !p.discontinued), InventoryValue)
  {
    var active := Seqs.Filter(s.products, (p: Product) => !p.discontinued);
    forall i | 0 <= i < |active| ensures StockValue(active[i]) == InventoryValue(active[i]) {
    }
    Seqs.SumCongruent(active, StockValue, InventoryValue);
  }

  /** The reorder count is the number of products needing reorder. */
  lemma ReorderCountIsNeedsReorderCount(s: Store, cache: Cache)
    ensures Index(s, cache).value.reorderAlertCount == Seqs.Count(s.products, NeedsReorder)
  {
  }

  /** With the counts not yet cached, the dashboard counts every category,
      and its product count is the sum of the active counts over the
      categories in table order, whatever order the rows come in. */
  lemma IndexFresh(s: Store, cache: Cache)
    requires TryGetCountList(cache, CategoryCountsKey).None?
    ensures Index(s, cache).value.categoryCount == |s.categories|
    ensures Index(s, cache).value.productCount
         == Seqs.Sum(s.categories, (c: Category) => CategoryService.CountRow(s, c).activeProductCount)
  {
    var rows := CategoryService.CountRows(s);
    var m := Seqs.Map(s.categories, (c: Category) => CategoryService.CountRow(s, c));
    Seqs.SumPermutation(rows, m, ActiveCountOf);
    MapSum(s, s.categories);
  }

  /** Summing over the projected rows is summing over the categories. */
  lemma {:induction false} MapSum(s: Store, cs: seq<Category>)
    ensures Seqs.Sum(Seqs.Map(cs, (c: Category) => CategoryService.CountRow(s, c)), ActiveCountOf)
         == Seqs.Sum(cs, (c: Category) => CategoryService.CountRow(s, c).activeProductCount)
    decreases |cs|
  {
    if |cs| > 0 {
      MapSum(s, cs[1..]);
      assert Seqs.Map(cs, (c: Category) => CategoryService.CountRow(s, c))[1..]
          == Seqs.Map(cs[1..], (c: Category) => CategoryService.CountRow(s, c));
    }
  }
}
