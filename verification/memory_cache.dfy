/** The in-memory cache the two MVC services share: one map from string
    keys to cached results. Entry lifetimes (five minutes for products, ten
    for categories) are not modelled by a clock; expiry is an explicit
    `Evict`. */
module MemoryCache {
  import opened Optional
  import opened Loading
  import opened Entities
  import Text

  /** What a key can hold; the constructor plays the part of the stored
      object's runtime type, which `TryGetValue<T>` tests. */
  datatype CacheEntry =
    | ProductItem(product: LoadedProduct)
    | ProductList(products: seq<LoadedProduct>)
    | CategoryItem(category: CategoryDetail)
    | CategoryList(categories: seq<Category>)
    | CountList(counts: seq<CategoryWithProductCount>)

  type Cache = map<string, CacheEntry>

  /** A service result together with the cache after the call. */
  datatype Served<T> = Served(value: T, cache: Cache)

  // ---------------------------------------------------------------------
  // Keys
  // ---------------------------------------------------------------------

  function ProductKey(id: int): string { "product_" + Text.IntToString(id) }
  function ProductsByCategoryKey(id: int): string { "products_cat_" + Text.IntToString(id) }
  const CategoriesKey: string := "categories"
  function CategoryItemKey(id: int): string { "category_" + Text.IntToString(id) }
  const CategoryCountsKey: string := "categories_counts"

  lemma PrefixCancel(pre: string, a: string, b: string)
    requires pre + a == pre + b
    ensures a == b
  {
    assert a == (pre + a)[|pre|..];
    assert b == (pre + b)[|pre|..];
  }

  /** Each family of keys is injective in its id, and no two families, nor
      the two fixed keys, ever produce the same string: entries cannot
      overwrite one another. */
  lemma CacheKeysDistinct(a: int, b: int)
    ensures ProductKey(a) == ProductKey(b) <==> a == b
    ensures ProductsByCategoryKey(a) == ProductsByCategoryKey(b) <==> a == b
    ensures CategoryItemKey(a) == CategoryItemKey(b) <==> a == b
    ensures ProductKey(a) != ProductsByCategoryKey(b)
    ensures ProductKey(a) != CategoryItemKey(b) && ProductsByCategoryKey(a) != CategoryItemKey(b)
    ensures ProductKey(a) != CategoriesKey && ProductKey(a) != CategoryCountsKey
    ensures ProductsByCategoryKey(a) != CategoriesKey && ProductsByCategoryKey(a) != CategoryCountsKey
    ensures CategoryItemKey(a) != CategoriesKey && CategoryItemKey(a) != CategoryCountsKey
    ensures CategoriesKey != CategoryCountsKey
  {
    if ProductKey(a) == ProductKey(b) {
      PrefixCancel("product_", Text.IntToString(a), Text.IntToString(b));
      Text.IntToStringInjective(a, b);
    }
    if ProductsByCategoryKey(a) == ProductsByCategoryKey(b) {
      PrefixCancel("products_cat_", Text.IntToString(a), Text.IntToString(b));
      Text.IntToStringInjective(a, b);
    }
    if CategoryItemKey(a) == CategoryItemKey(b) {
      PrefixCancel("category_", Text.IntToString(a), Text.IntToString(b));
      Text.IntToStringInjective(a, b);
    }
    assert ProductKey(a)[7] == '_' && ProductsByCategoryKey(b)[7] == 's';
    assert ProductKey(a)[0] == 'p' && ProductsByCategoryKey(a)[0] == 'p' && CategoryItemKey(b)[0] == 'c';
    assert CategoryItemKey(a)[7] == 'y';
  }

  // ---------------------------------------------------------------------
  // Typed access
  // ---------------------------------------------------------------------

  /** `TryGetValue<Product>`: hits only when the key holds a product. */
  function TryGetProduct(c: Cache, key: string): (r: Option<LoadedProduct>)
    ensures r.Some? <==> key in c && c[key].ProductItem?
    ensures r.Some? ==> c[key] == ProductItem(r.value)
  {
    if key in c && c[key].ProductItem? then Some(c[key].product) else None
  }

  function TryGetProductList(c: Cache, key: string): (r: Option<seq<LoadedProduct>>)
    ensures r.Some? <==> key in c && c[key].ProductList?
    ensures r.Some? ==> c[key] == ProductList(r.value)
  {
    if key in c && c[key].ProductList? then Some(c[key].products) else None
  }

  function TryGetCategory(c: Cache, key: string): (r: Option<CategoryDetail>)
    ensures r.Some? <==> key in c && c[key].CategoryItem?
    ensures r.Some? ==> c[key] == CategoryItem(r.value)
  {
    if key in c && c[key].CategoryItem? then Some(c[key].category) else None
  }

  function TryGetCategoryList(c: Cache, key: string): (r: Option<seq<Category>>)
    ensures r.Some? <==> key in c && c[key].CategoryList?
    ensures r.Some? ==> c[key] == CategoryList(r.value)
  {
    if key in c && c[key].CategoryList? then Some(c[key].categories) else None
  }

  function TryGetCountList(c: Cache, key: string): (r: Option<seq<CategoryWithProductCount>>)
    ensures r.Some? <==> key in c && c[key].CountList?
    ensures r.Some? ==> c[key] == CountList(r.value)
  {
    if key in c && c[key].CountList? then Some(c[key].counts) else None
  }

  /** An entry's lifetime running out. */
  function Evict(c: Cache, key: string): (r: Cache)
    ensures key !in r
    ensures forall k :: k in r <==> k in c && k != key
    ensures forall k :: k in r ==> r[k] == c[k]
  {
    c - {key}
  }
}
