/** The MVC product service: filtered, name-ordered, paged listing; lookup
    by id and by category through the shared cache; the reorder query; and
    the capped name search. */
module ProductService {
  import opened Optional
  import opened Numeric
  import opened Entities
  import opened Store
  import opened Loading
  import opened MemoryCache
  import Seqs
  import Text

  const MaxPageSize: int32 := 100
  const DefaultPageSize: int32 := 10
  const SearchLimit := 20

  /** `ProductFilter`; prices in hundredths. */
  datatype ProductFilter = ProductFilter(
    categoryId: Option<int>,
    supplierId: Option<int>,
    includeDiscontinued: bool,
    minPrice: Option<int>,
    maxPrice: Option<int>,
    searchTerm: Option<string>,
    page: int32,
    pageSize: int32)

  /** `new ProductFilter()`. */
  const DefaultFilter := ProductFilter(None, None, false, None, None, None, 1, DefaultPageSize)

  /** The `Where` clauses `GetAllAsync` adds, each only when its criterion
      is set; chained `Where`s keep what passes all of them. Comparisons
      with a null price are false. */
  predicate Matches(f: ProductFilter, p: Product) {
    && (f.includeDiscontinued || !p.discontinued)
    && (f.categoryId.Some? ==> p.categoryId == f.categoryId)
    && (f.supplierId.Some? ==> p.supplierId == f.supplierId)
    && (f.minPrice.Some? ==> LiftedLe(f.minPrice, p.unitPrice))
    && (f.maxPrice.Some? ==> LiftedLe(p.unitPrice, f.maxPrice))
    && (!Text.IsNullOrWhiteSpace(f.searchTerm) ==> Text.Contains(p.productName, f.searchTerm.value))
  }

  /** The default filter restricts nothing but the discontinued flag. */
  lemma DefaultFilterMatches(p: Product)
    ensures Matches(DefaultFilter, p) <==> !p.discontinued
    ensures DefaultFilter.page == 1 && DefaultFilter.pageSize == 10
  {
  }

  /** `Math.Min(filter.PageSize, MaxPageSize)`. */
  function EffectivePageSize(f: ProductFilter): (ps: int32)
    ensures ps <= MaxPageSize && ps <= f.pageSize
    ensures ps == MaxPageSize || ps == f.pageSize
  {
    Min(f.pageSize, MaxPageSize)
  }

  /** `(filter.Page - 1) * pageSize` in unchecked 32-bit arithmetic. */
  function PageOffset(f: ProductFilter): (off: int32)
    ensures Int32Min <= f.page - 1 && Int32Min <= (f.page - 1) * EffectivePageSize(f) <= Int32Max ==>
      off == (f.page - 1) * EffectivePageSize(f)
  {
    Wrap32(Wrap32(f.page - 1) * EffectivePageSize(f))
  }

  /** Every product matching the filter, with category and supplier, in
      name order. */
  function MatchingByName(s: Store, f: ProductFilter): seq<LoadedProduct> {
    Seqs.SortBy(Listing(s, p => Matches(f, p), true, true), ByProductName())
  }

  /** The sorted matches are a name-ordered permutation of the matches. */
  lemma MatchingByNameMembers(s: Store, f: ProductFilter, x: LoadedProduct)
    ensures Seqs.SortedBy(MatchingByName(s, f), ByProductName())
    ensures x in MatchingByName(s, f) <==>
      exists i :: 0 <= i < |s.products| && Matches(f, s.products[i]) && x == Load(s, s.products[i], true, true)
  {
    ByStringTotalPreorder(ProductNameOf);
    Seqs.SortBySorted(Listing(s, p => Matches(f, p), true, true), ByProductName());
    ListingMembers(s, p => Matches(f, p), true, true, x);
    assert x in MatchingByName(s, f) <==> x in multiset(MatchingByName(s, f));
  }

  /** `GetAllAsync(filter)`; a null filter is the default one. */
  function GetAll(s: Store, filter: Option<ProductFilter>): (r: seq<LoadedProduct>)
    ensures var f := filter.GetOr(DefaultFilter);
      && |r| <= (if EffectivePageSize(f) < 0 then 0 else EffectivePageSize(f) as int)
      && Seqs.SortedBy(r, ByProductName())
      && forall i :: 0 <= i < |r| ==>
           && r[i].product in s.products
           && Matches(f, r[i].product)
           && r[i] == Load(s, r[i].product, true, true)
  {
    var f := filter.GetOr(DefaultFilter);
    PageOfMatches(s, f, PageOffset(f), EffectivePageSize(f));
    Seqs.Page(MatchingByName(s, f), PageOffset(f), EffectivePageSize(f))
  }

  /** Any window of the sorted matches is name-ordered and holds matching
      products loaded with their category and supplier. */
  lemma PageOfMatches(s: Store, f: ProductFilter, offset: int, size: int)
    ensures var r := Seqs.Page(MatchingByName(s, f), offset, size);
      && Seqs.SortedBy(r, ByProductName())
      && forall i :: 0 <= i < |r| ==>
           && r[i].product in s.products
           && Matches(f, r[i].product)
           && r[i] == Load(s, r[i].product, true, true)
  {
    var r := Seqs.Page(MatchingByName(s, f), offset, size);
    MatchingByNameMembers(s, f, LoadedProduct(NewProduct, None, None));
    Seqs.PageOfSorted(MatchingByName(s, f), ByProductName(), offset, size);
    forall i | 0 <= i < |r|
      ensures r[i].product in s.products && Matches(f, r[i].product) && r[i] == Load(s, r[i].product, true, true)
    {
      assert r[i] in MatchingByName(s, f);
      MatchingByNameMembers(s, f, r[i]);
    }
  }

  /** When the offset does not overflow, a page is the window of the sorted
      matches that starts at `(Page - 1) * ps` and holds at most `ps` of
      them; a non-positive offset starts at the beginning. */
  lemma GetAllIsSlice(s: Store, f: ProductFilter)
    requires Int32Min <= f.page - 1
    requires Int32Min <= (f.page - 1) * EffectivePageSize(f) <= Int32Max
    ensures var all := MatchingByName(s, f);
      var ps := EffectivePageSize(f) as int;
      var off := (f.page - 1) * ps;
      var lo := if off <= 0 then 0 else if off >= |all| then |all| else off;
      var hi := if ps <= 0 then lo else if lo + ps >= |all| then |all| else lo + ps;
      GetAll(s, Some(f)) == all[lo..hi]
  {
    Seqs.PageWindow(MatchingByName(s, f), PageOffset(f), EffectivePageSize(f));
  }

  /** With no filter, `GetAll` returns the first ten active products in
      name order. */
  lemma GetAllDefaultFirstPage(s: Store)
    ensures var all := MatchingByName(s, DefaultFilter);
      GetAll(s, None) == all[..if |all| < 10 then |all| else 10]
    ensures forall i :: 0 <= i < |GetAll(s, None)| ==> !GetAll(s, None)[i].product.discontinued
  {
    GetAllIsSlice(s, DefaultFilter);
  }

  /** Which products match does not depend on the paging fields. */
  lemma MatchingIgnoresPaging(s: Store, f: ProductFilter, page: int32)
    ensures MatchingByName(s, f.(page := page)) == MatchingByName(s, f)
  {
    var g := f.(page := page);
    Seqs.FilterCongruent(s.products, p => Matches(f, p), p => Matches(g, p));
  }

  lemma PageOfIndex(k: int, ps: int)
    requires 0 <= k && 1 <= ps
    ensures 0 <= (k / ps) * ps <= k < (k / ps) * ps + ps
    ensures 0 <= k / ps <= k
  {
  }

  /** The sorted match at index `k` is on the page whose offset is the
      largest multiple of the page size not above `k`. */
  lemma OnItsPage(s: Store, f: ProductFilter, k: int, q: int, ps: int, lo: int)
    requires 0 <= k < |MatchingByName(s, f)|
    requires EffectivePageSize(f) as int == ps && 1 <= ps && k <= Int32Max
    requires Int32Min <= f.page - 1 == q
    requires q * ps == lo && 0 <= lo <= k < lo + ps
    ensures MatchingByName(s, f)[k] in GetAll(s, Some(f))
  {
    var all := MatchingByName(s, f);
    assert PageOffset(f) == lo;
    Seqs.InPage(all, PageOffset(f), EffectivePageSize(f), k);
    assert GetAll(s, Some(f)) == Seqs.Page(all, PageOffset(f), EffectivePageSize(f));
  }

  /** Paging loses nothing: every stored product that matches the filter is
      on some page, as long as the table's row count fits in an `int`. */
  lemma {:induction false} GetAllPagesCover(s: Store, f: ProductFilter, i: int) returns (page: int32)
    requires |s.products| <= Int32Max
    requires 0 <= i < |s.products| && Matches(f, s.products[i])
    requires f.pageSize >= 1
    ensures 1 <= page
    ensures Load(s, s.products[i], true, true) in GetAll(s, Some(f.(page := page)))
  {
    var x := Load(s, s.products[i], true, true);
    var all := MatchingByName(s, f);
    MatchingByNameMembers(s, f, x);
    var k :| 0 <= k < |all| && all[k] == x;
    var ps := EffectivePageSize(f) as int;
    assert |all| <= |s.products| by {
      assert |all| == |Listing(s, p => Matches(f, p), true, true)|;
    }
    var q := k / ps;
    var lo := q * ps;
    assert 0 <= lo <= k < lo + ps && 0 <= q <= k by { PageOfIndex(k, ps); }
    page := q + 1;
    var g := f.(page := page);
    assert EffectivePageSize(g) as int == ps;
    MatchingIgnoresPaging(s, f, page);
    OnItsPage(s, g, k, q, ps, lo);
  }

  // ---------------------------------------------------------------------
  // Lookups through the cache
  // ---------------------------------------------------------------------

  /** `GetByIdAsync(id)`: a product cached under `product_{id}` is served as
      is; otherwise the product is read with its category and supplier and
      cached only when it exists. */
  function GetById(s: Store, cache: Cache, id: int): (r: Served<Option<LoadedProduct>>)
    ensures var key := ProductKey(id);
      && (TryGetProduct(cache, key).Some? ==> r == Served(TryGetProduct(cache, key), cache))
      && (TryGetProduct(cache, key).None? ==>
            && (r.value.Some? <==> HasProduct(s, id))
            && (r.value.Some? ==>
                  && r.value.value.product in s.products
                  && r.value.value.product.productId == id
                  && r.value.value == Load(s, r.value.value.product, true, true)
                  && r.cache == cache[key := ProductItem(r.value.value)])
            && (r.value.None? ==> r.cache == cache))
  {
    var key := ProductKey(id);
    match TryGetProduct(cache, key)
    case Some(hit) => Served(Some(hit), cache)
    case None =>
      match FindProduct(s, id)
      case None => Served(None, cache)
      case Some(p) =>
        var loaded := Load(s, p, true, true);
        Served(Some(loaded), cache[key := ProductItem(loaded)])
  }

  /** Once a product has been served from the store, later calls serve the
      same object from the cache whatever the store has become since, until
      its entry is evicted: the cached value can be stale. */
  lemma GetByIdServesCached(s: Store, later: Store, cache: Cache, id: int)
    requires GetById(s, cache, id).value.Some?
    ensures var first := GetById(s, cache, id);
      && GetById(later, first.cache, id) == first
  {
  }

  /** A concrete stale read: after the product is renamed in the store, the
      cached lookup still returns the old name. */
  lemma GetByIdStaleAfterUpdate(s: Store, cache: Cache, id: int, renamed: string)
    requires HasProduct(s, id) && TryGetProduct(cache, ProductKey(id)).None?
    ensures var p := FindProduct(s, id).value;
      var first := GetById(s, cache, id);
      var later := UpdateProduct(s, p.(productName := renamed));
      && first.value.Some? && first.value.value.product.productName == p.productName
      && GetById(later, first.cache, id).value.value.product.productName == p.productName
  {
    var p := FindProduct(s, id).value;
    var first := GetById(s, cache, id);
    assert first.value == Some(Load(s, p, true, true));
  }

  /** A miss for an absent id caches nothing, so a product inserted later
      with that id is found by the next call. */
  lemma GetByIdMissCachesNothing(s: Store, cache: Cache, id: int)
    requires TryGetProduct(cache, ProductKey(id)).None? && !HasProduct(s, id)
    ensures GetById(s, cache, id) == Served(None, cache)
    ensures TryGetProduct(GetById(s, cache, id).cache, ProductKey(id)).None?
  {
  }

  /** The active products of a category, with their suppliers, in name order
      (`GetByCategoryAsync` includes only the supplier). */
  function CategoryProducts(s: Store, categoryId: int): seq<LoadedProduct> {
    Seqs.SortBy(Listing(s, (p: Product) => p.categoryId == Some(categoryId) && !p.discontinued, false, true), ByProductName())
  }

  /** What the category query returns: in name order, exactly the active
      products referencing the category, each without its category. */
  lemma CategoryProductsMembers(s: Store, categoryId: int, x: LoadedProduct)
    ensures Seqs.SortedBy(CategoryProducts(s, categoryId), ByProductName())
    ensures x in CategoryProducts(s, categoryId) <==>
      exists i :: 0 <= i < |s.products| && s.products[i].categoryId == Some(categoryId)
                  && !s.products[i].discontinued && x == Load(s, s.products[i], false, true)
    ensures x in CategoryProducts(s, categoryId) ==> x.category.None?
  {
    var keep := (p: Product) => p.categoryId == Some(categoryId) && !p.discontinued;
    ByStringTotalPreorder(ProductNameOf);
    Seqs.SortBySorted(Listing(s, keep, false, true), ByProductName());
    ListingMembers(s, keep, false, true, x);
    assert x in CategoryProducts(s, categoryId) <==> x in multiset(CategoryProducts(s, categoryId));
  }

  /** `GetByCategoryAsync(categoryId)`: a list cached under
      `products_cat_{id}` is served as is; otherwise the query runs and its
      result is cached, even when it is empty. */
  function GetByCategory(s: Store, cache: Cache, categoryId: int): (r: Served<seq<LoadedProduct>>)
    ensures var key := ProductsByCategoryKey(categoryId);
      && (TryGetProductList(cache, key).Some? ==> r == Served(TryGetProductList(cache, key).value, cache))
      && (TryGetProductList(cache, key).None? ==>
            && r.cache == cache[key := ProductList(r.value)]
            && Seqs.SortedBy(r.value, ByProductName())
            && forall i :: 0 <= i < |r.value| ==>
                 && r.value[i].product in s.products
                 && r.value[i].product.categoryId == Some(categoryId)
                 && !r.value[i].product.discontinued)
      && key in r.cache
  {
    var key := ProductsByCategoryKey(categoryId);
    match TryGetProductList(cache, key)
    case Some(hit) => Served(hit, cache)
    case None =>
      var products := CategoryProducts(s, categoryId);
      ByStringTotalPreorder(ProductNameOf);
      forall i | 0 <= i < |products|
        ensures products[i].product in s.products
        ensures products[i].product.categoryId == Some(categoryId) && !products[i].product.discontinued
      {
        CategoryProductsMembers(s, categoryId, products[i]);
      }
      CategoryProductsMembers(s, categoryId, NewLoaded);
      Served(products, cache[key := ProductList(products)])
  }

  /** A placeholder value, used only to instantiate a lemma for its
      `x`-independent conclusions. */
  const NewLoaded := LoadedProduct(NewProduct, None, None)

  /** Once a category's list is cached, later calls serve it unchanged
      whatever the store has become, even when it was empty. */
  lemma GetByCategoryServesCached(s: Store, later: Store, cache: Cache, categoryId: int)
    ensures var first := GetByCategory(s, cache, categoryId);
      GetByCategory(later, first.cache, categoryId) == first
  {
  }

  /** On a miss the whole list is fetched: every active product of the
      category is in it. */
  lemma GetByCategoryComplete(s: Store, cache: Cache, categoryId: int, i: int)
    requires TryGetProductList(cache, ProductsByCategoryKey(categoryId)).None?
    requires 0 <= i < |s.products|
    requires s.products[i].categoryId == Some(categoryId) && !s.products[i].discontinued
    ensures Load(s, s.products[i], false, true) in GetByCategory(s, cache, categoryId).value
  {
    CategoryProductsMembers(s, categoryId, Load(s, s.products[i], false, true));
  }

  // ---------------------------------------------------------------------
  // Reorder alerts and search
  // ---------------------------------------------------------------------

  /** The reorder query's `Where`: active, and stock at or below the
      reorder level under SQL's null semantics. */
  predicate ReorderWhere(p: Product) {
    !p.discontinued && LiftedLe(p.unitsInStock, p.reorderLevel)
  }

  /** `GetNeedingReorderAsync()`: active products whose stock is at or below
      the reorder level, lowest stock first. */
  function GetNeedingReorder(s: Store): (r: seq<LoadedProduct>)
    ensures Seqs.SortedBy(r, ByUnitsInStock())
    ensures multiset(r) == multiset(Listing(s, NeedsReorder, true, true))
    ensures forall i :: 0 <= i < |r| ==> r[i].product in s.products && NeedsReorder(r[i].product)
  {
    var r := Seqs.SortBy(Listing(s, ReorderWhere, true, true), ByUnitsInStock());
    Seqs.FilterCongruent(s.products, ReorderWhere, NeedsReorder);
    ByNullableTotalPreorder(UnitsInStockOf);
    Seqs.SortBySorted(Listing(s, NeedsReorder, true, true), ByUnitsInStock());
    forall i | 0 <= i < |r| ensures r[i].product in s.products && NeedsReorder(r[i].product) {
      assert r[i] in multiset(r);
      ListingMembers(s, NeedsReorder, true, true, r[i]);
    }
    r
  }

  /** The reorder list holds exactly the loaded products that need
      reordering. */
  lemma GetNeedingReorderMembers(s: Store, x: LoadedProduct)
    ensures x in GetNeedingReorder(s) <==>
      exists i :: 0 <= i < |s.products| && NeedsReorder(s.products[i]) && x == Load(s, s.products[i], true, true)
  {
    var r := GetNeedingReorder(s);
    assert x in r <==> x in multiset(r);
    assert x in Listing(s, NeedsReorder, true, true) <==> x in multiset(Listing(s, NeedsReorder, true, true));
    ListingMembers(s, NeedsReorder, true, true, x);
  }

  /** Every product on the reorder list has a stock figure, and the figures
      ascend. */
  lemma GetNeedingReorderAscending(s: Store)
    ensures var r := GetNeedingReorder(s);
      forall i, j :: 0 <= i < j < |r| ==>
        r[i].product.unitsInStock.Some? && r[j].product.unitsInStock.Some?
        && r[i].product.unitsInStock.value <= r[j].product.unitsInStock.value
  {
    StockAscending(GetNeedingReorder(s));
  }

  lemma StockAscending(r: seq<LoadedProduct>)
    requires Seqs.SortedBy(r, ByUnitsInStock())
    requires forall i :: 0 <= i < |r| ==> NeedsReorder(r[i].product)
    ensures forall i, j :: 0 <= i < j < |r| ==>
      r[i].product.unitsInStock.Some? && r[j].product.unitsInStock.Some?
        && r[i].product.unitsInStock.value <= r[j].product.unitsInStock.value
  {
    forall i, j | 0 <= i < j < |r|
      ensures r[i].product.unitsInStock.Some? && r[j].product.unitsInStock.Some?
        && r[i].product.unitsInStock.value <= r[j].product.unitsInStock.value
    {
      assert ByUnitsInStock()(r[i], r[j]);
      assert UnitsInStockOf(r[i]).Some? && UnitsInStockOf(r[j]).Some?;
      assert UnitsInStockOf(r[i]).value <= UnitsInStockOf(r[j]).value;
    }
  }

  /** Products whose name contains `term`, excluding discontinued ones. */
  predicate SearchHit(term: string, p: Product) {
    Text.Contains(p.productName, term) && !p.discontinued
  }

  /** Every search hit, with its category, in name order. */
  function SearchHits(s: Store, term: string): seq<LoadedProduct> {
    Seqs.SortBy(Listing(s, p => SearchHit(term, p), true, false), ByProductName())
  }

  lemma SearchHitsMembers(s: Store, term: string, x: LoadedProduct)
    ensures Seqs.SortedBy(SearchHits(s, term), ByProductName())
    ensures x in SearchHits(s, term) <==>
      exists i :: 0 <= i < |s.products| && SearchHit(term, s.products[i]) && x == Load(s, s.products[i], true, false)
  {
    ByStringTotalPreorder(ProductNameOf);
    Seqs.SortBySorted(Listing(s, p => SearchHit(term, p), true, false), ByProductName());
    ListingMembers(s, p => SearchHit(term, p), true, false, x);
    assert x in SearchHits(s, term) <==> x in multiset(SearchHits(s, term));
  }

  /** `SearchAsync(term)`: nothing for a null or blank term; otherwise the
      first twenty hits by name. */
  function Search(s: Store, term: Option<string>): (r: seq<LoadedProduct>)
    ensures Text.IsNullOrWhiteSpace(term) ==> r == []
    ensures |r| <= SearchLimit
    ensures Seqs.SortedBy(r, ByProductName())
    ensures forall i :: 0 <= i < |r| ==>
      && r[i].product in s.products
      && !r[i].product.discontinued
      && Text.Contains(r[i].product.productName, term.value)
      && r[i] == Load(s, r[i].product, true, false)
  {
    if Text.IsNullOrWhiteSpace(term) then []
    else
      var hits := SearchHits(s, term.value);
      var r := Seqs.Take(hits, SearchLimit);
      SearchHitsMembers(s, term.value, NewLoaded);
      Seqs.SortedWindow(hits, ByProductName(), 0, |r|);
      forall i | 0 <= i < |r|
        ensures r[i].product in s.products && SearchHit(term.value, r[i].product)
        ensures r[i] == Load(s, r[i].product, true, false)
      {
        assert r[i] == hits[i];
        SearchHitsMembers(s, term.value, r[i]);
      }
      r
  }

  /** A search is a prefix of all hits by name: when there are fewer than
      twenty hits, every one of them is returned. */
  lemma SearchIsPrefix(s: Store, term: string)
    requires !Text.IsBlank(term)
    ensures var hits := SearchHits(s, term);
      Search(s, Some(term)) == hits[..if |hits| < SearchLimit then |hits| else SearchLimit]
  {
  }

  lemma SearchComplete(s: Store, term: string, i: int)
    requires !Text.IsBlank(term)
    requires |SearchHits(s, term)| <= SearchLimit
    requires 0 <= i < |s.products| && SearchHit(term, s.products[i])
    ensures Load(s, s.products[i], true, false) in Search(s, Some(term))
  {
    SearchHitsMembers(s, term, Load(s, s.products[i], true, false));
    SearchIsPrefix(s, term);
  }
}
