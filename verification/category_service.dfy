/** The MVC category service: the name-ordered category list, a category
    with its active products, and the per-category product counts, each
    read through the shared cache. */
module CategoryService {
  import opened Optional
  import opened Entities
  import opened Store
  import opened Loading
  import opened MemoryCache
  import Seqs

  // ---------------------------------------------------------------------
  // GetAllAsync
  // ---------------------------------------------------------------------

  /** Every category, in name order. */
  function CategoriesByName(s: Store): (r: seq<Category>)
    ensures multiset(r) == multiset(s.categories)
    ensures Seqs.SortedBy(r, ByCategoryName())
  {
    ByStringTotalPreorder(CategoryNameOf);
    Seqs.SortBySorted(s.categories, ByCategoryName());
    Seqs.SortBy(s.categories, ByCategoryName())
  }

  /** `GetAllAsync()`: the list cached under `categories` is served as is;
      otherwise every category is read in name order and cached. */
  function GetAll(s: Store, cache: Cache): (r: Served<seq<Category>>)
    ensures TryGetCategoryList(cache, CategoriesKey).Some? ==>
      r == Served(TryGetCategoryList(cache, CategoriesKey).value, cache)
    ensures TryGetCategoryList(cache, CategoriesKey).None? ==>
      && multiset(r.value) == multiset(s.categories)
      && Seqs.SortedBy(r.value, ByCategoryName())
      && r.cache == cache[CategoriesKey := CategoryList(r.value)]
  {
    match TryGetCategoryList(cache, CategoriesKey)
    case Some(hit) => Served(hit, cache)
    case None =>
      var categories := CategoriesByName(s);
      Served(categories, cache[CategoriesKey := CategoryList(categories)])
  }

  /** A fresh listing holds each stored category exactly once, and under the
      unique index on names the names strictly ascend. */
  lemma GetAllEachOnce(s: Store, cache: Cache, c: Category)
    requires TryGetCategoryList(cache, CategoriesKey).None?
    requires UniqueCategoryNames(s)
    ensures multiset(GetAll(s, cache).value)[c] == (if c in s.categories then 1 else 0)
    ensures var r := GetAll(s, cache).value;
      forall i, j :: 0 <= i < j < |r| ==> r[i].categoryName != r[j].categoryName
  {
    var r := GetAll(s, cache).value;
    UniqueMultiplicity(s.categories, c);
    forall i, j | 0 <= i < j < |r| ensures r[i].categoryName != r[j].categoryName {
      DistinctPositions(s, r, i, j);
    }
  }

  /** In a table with unique names, a row occurs at most once. */
  lemma {:induction false} UniqueMultiplicity(cs: seq<Category>, c: Category)
    requires forall i, j :: 0 <= i < j < |cs| ==> cs[i].categoryName != cs[j].categoryName
    ensures multiset(cs)[c] == (if c in cs then 1 else 0)
    decreases |cs|
  {
    if |cs| > 0 {
      assert cs == [cs[0]] + cs[1..];
      UniqueMultiplicity(cs[1..], c);
      if cs[0] == c {
        assert c !in cs[1..] by {
          forall k | 0 <= k < |cs[1..]| ensures cs[1..][k] != c {
            assert cs[1..][k] == cs[k + 1];
          }
        }
      }
    }
  }

  /** Two positions of a permutation of a uniquely named table hold rows
      with different names. */
  lemma DistinctPositions(s: Store, r: seq<Category>, i: int, j: int)
    requires UniqueCategoryNames(s)
    requires multiset(r) == multiset(s.categories)
    requires 0 <= i < j < |r|
    ensures r[i].categoryName != r[j].categoryName
  {
    assert r[i] in multiset(s.categories) && r[j] in multiset(s.categories);
    var a :| 0 <= a < |s.categories| && s.categories[a] == r[i];
    var b :| 0 <= b < |s.categories| && s.categories[b] == r[j];
    if a == b {
      UniqueMultiplicity(s.categories, r[i]);
      RepeatedMultiplicity(r, i, j);
      assert false;
    }
  }

  /** An element at two positions occurs at least twice. */
  lemma RepeatedMultiplicity<T>(r: seq<T>, i: int, j: int)
    requires 0 <= i < j < |r| && r[i] == r[j]
    ensures multiset(r)[r[i]] >= 2
  {
    assert r == r[..j] + [r[j]] + r[j + 1..];
    assert r[..j] == r[..i] + [r[i]] + r[i + 1..j];
  }

  /** Once the list is cached, later calls serve it whatever the store has
      become, until the entry is evicted; after eviction the list is read
      afresh. */
  lemma GetAllServesCached(s: Store, later: Store, cache: Cache)
    ensures var first := GetAll(s, cache);
      GetAll(later, first.cache) == first
    ensures GetAll(later, Evict(GetAll(s, cache).cache, CategoriesKey)).value == CategoriesByName(later)
  {
  }

  // ---------------------------------------------------------------------
  // GetByIdAsync
  // ---------------------------------------------------------------------

  /** The products a category's navigation collection holds once filtered
      to the active ones, in table order. */
  function ActiveProductsOf(s: Store, categoryId: int): (r: seq<Product>)
    ensures forall i :: 0 <= i < |r| ==>
      r[i] in s.products && r[i].categoryId == Some(categoryId) && !r[i].discontinued
    ensures forall i :: 0 <= i < |s.products| ==>
      (s.products[i].categoryId == Some(categoryId) && !s.products[i].discontinued ==> s.products[i] in r)
    ensures Seqs.Subsequence(r, s.products)
    ensures forall p :: multiset(r)[p] == (if p.categoryId == Some(categoryId) && !p.discontinued then multiset(s.products)[p] else 0)
  {
    var keep := (p: Product) => p.categoryId == Some(categoryId) && !p.discontinued;
    Seqs.FilterOrdered(s.products, keep);
    forall p ensures multiset(Seqs.Filter(s.products, keep))[p] == (if keep(p) then multiset(s.products)[p] else 0) {
      Seqs.FilterMultiplicity(s.products, keep, p);
    }
    Seqs.Filter(s.products, (p: Product) => p.categoryId == Some(categoryId) && !p.discontinued)
  }

  /** `GetByIdAsync(id)`: a category cached under `category_{id}` is served
      as is; otherwise the category is read with its active products and
      cached only when it exists. */
  function GetById(s: Store, cache: Cache, id: int): (r: Served<Option<CategoryDetail>>)
    ensures var key := CategoryItemKey(id);
      && (TryGetCategory(cache, key).Some? ==> r == Served(TryGetCategory(cache, key), cache))
      && (TryGetCategory(cache, key).None? ==>
            && (r.value.Some? <==> HasCategory(s, id))
            && (r.value.Some? ==>
                  && r.value.value.category in s.categories
                  && r.value.value.category.categoryId == id
                  && r.value.value.products == ActiveProductsOf(s, id)
                  && r.cache == cache[key := CategoryItem(r.value.value)])
            && (r.value.None? ==> r.cache == cache))
  {
    var key := CategoryItemKey(id);
    match TryGetCategory(cache, key)
    case Some(hit) => Served(Some(hit), cache)
    case None =>
      match FindCategory(s, id)
      case None => Served(None, cache)
      case Some(c) =>
        var detail := CategoryDetail(c, ActiveProductsOf(s, id));
        Served(Some(detail), cache[key := CategoryItem(detail)])
  }

  /** A miss for an absent id returns null and caches nothing. */
  lemma GetByIdAbsent(s: Store, cache: Cache, id: int)
    requires TryGetCategory(cache, CategoryItemKey(id)).None? && !HasCategory(s, id)
    ensures GetById(s, cache, id) == Served(None, cache)
  {
  }

  /** A found category is cached and served again, unchanged, to later
      calls, whatever the store has become. */
  lemma GetByIdServesCached(s: Store, later: Store, cache: Cache, id: int)
    requires GetById(s, cache, id).value.Some?
    ensures GetById(later, GetById(s, cache, id).cache, id) == GetById(s, cache, id)
  {
  }

  // ---------------------------------------------------------------------
  // GetWithProductCountsAsync
  // ---------------------------------------------------------------------

  /** Whether product `p` belongs to the category with key `id`. */
  predicate InCategory(id: int, p: Product) {
    p.categoryId == Some(id)
  }

  /** The projection of one category: `Products.Count` and
      `Products.Count(p => !p.Discontinued)`. */
  function CountRow(s: Store, c: Category): (r: CategoryWithProductCount)
    ensures r.categoryId == c.categoryId && r.categoryName == c.categoryName
    ensures r.description == c.description
    ensures 0 <= r.activeProductCount <= r.productCount <= |s.products|
  {
    var total := Seqs.Count(s.products, (p: Product) => InCategory(c.categoryId, p));
    var active := Seqs.Count(s.products, (p: Product) => InCategory(c.categoryId, p) && !p.discontinued);
    Seqs.FilterMonotone(s.products,
      (p: Product) => InCategory(c.categoryId, p) && !p.discontinued,
      (p: Product) => InCategory(c.categoryId, p));
    CategoryWithProductCount(c.categoryId, c.categoryName, c.description, total, active)
  }

  /** One row per stored category, in name order. */
  function CountRows(s: Store): (r: seq<CategoryWithProductCount>)
    ensures |r| == |s.categories|
    ensures multiset(r) == multiset(Seqs.Map(s.categories, (c: Category) => CountRow(s, c)))
    ensures Seqs.SortedBy(r, ByCountName())
  {
    ByStringTotalPreorder(CountNameOf);
    Seqs.SortBySorted(Seqs.Map(s.categories, (c: Category) => CountRow(s, c)), ByCountName());
    Seqs.SortBy(Seqs.Map(s.categories, (c: Category) => CountRow(s, c)), ByCountName())
  }

  /** `GetWithProductCountsAsync()`: the rows cached under
      `categories_counts` are served as is; otherwise they are computed and
      cached. */
  function GetWithProductCounts(s: Store, cache: Cache): (r: Served<seq<CategoryWithProductCount>>)
    ensures TryGetCountList(cache, CategoryCountsKey).Some? ==>
      r == Served(TryGetCountList(cache, CategoryCountsKey).value, cache)
    ensures TryGetCountList(cache, CategoryCountsKey).None? ==>
      && r.value == CountRows(s)
      && |r.value| == |s.categories|
      && Seqs.SortedBy(r.value, ByCountName())
      && (forall i :: 0 <= i < |r.value| ==> r.value[i].activeProductCount <= r.value[i].productCount)
      && r.cache == cache[CategoryCountsKey := CountList(r.value)]
  {
    match TryGetCountList(cache, CategoryCountsKey)
    case Some(hit) => Served(hit, cache)
    case None =>
      var rows := CountRows(s);
      forall i | 0 <= i < |rows| ensures rows[i].activeProductCount <= rows[i].productCount {
        assert rows[i] in multiset(Seqs.Map(s.categories, (c: Category) => CountRow(s, c)));
      }
      Served(rows, cache[CategoryCountsKey := CountList(rows)])
  }

  /** Each stored category has its own row, with its name, description and
      counts, whether or not any product references it. */
  lemma CountRowsCover(s: Store, k: int)
    requires 0 <= k < |s.categories|
    ensures CountRow(s, s.categories[k]) in CountRows(s)
  {
    var m := Seqs.Map(s.categories, (c: Category) => CountRow(s, c));
    assert m[k] == CountRow(s, s.categories[k]);
    assert m[k] in multiset(CountRows(s));
  }

  /** Every row is the row of a stored category. */
  lemma CountRowsFromCategories(s: Store, x: CategoryWithProductCount)
    requires x in CountRows(s)
    ensures exists i :: 0 <= i < |s.categories| && x == CountRow(s, s.categories[i])
  {
    var m := Seqs.Map(s.categories, (c: Category) => CountRow(s, c));
    assert x in multiset(m);
    var i :| 0 <= i < |m| && m[i] == x;
    assert x == CountRow(s, s.categories[i]);
  }

  /** A row's counts are the number of products referencing the category
      and the number of those that are active; the active count is what the
      category's detail page lists. */
  lemma CountRowMeans(s: Store, c: Category)
    ensures CountRow(s, c).productCount == |Seqs.Filter(s.products, (p: Product) => p.categoryId == Some(c.categoryId))|
    ensures CountRow(s, c).activeProductCount == |ActiveProductsOf(s, c.categoryId)|
  {
    Seqs.FilterCongruent(s.products,
      (p: Product) => InCategory(c.categoryId, p),
      (p: Product) => p.categoryId == Some(c.categoryId));
    Seqs.FilterCongruent(s.products,
      (p: Product) => InCategory(c.categoryId, p) && !p.discontinued,
      (p: Product) => p.categoryId == Some(c.categoryId) && !p.discontinued);
  }

  /** Once computed, the rows are served verbatim whatever the store has
      become, until evicted. */
  lemma GetWithProductCountsServesCached(s: Store, later: Store, cache: Cache)
    ensures var first := GetWithProductCounts(s, cache);
      GetWithProductCounts(later, first.cache) == first
  {
  }
}
