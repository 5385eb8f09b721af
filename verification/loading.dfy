/** The object graphs the services hand out: a product with the navigation
    properties its query `Include`s, a category with its active products,
    and the per-category counts record; plus the orders `OrderBy` sorts
    them by. */
module Loading {
  import opened Optional
  import opened Entities
  import opened Store
  import Text
  import Seqs

  /** A product as a query returns it; `category` and `supplier` are the
      navigation properties, present only when `Include`d and resolvable. */
  datatype LoadedProduct = LoadedProduct(product: Product, category: Option<Category>, supplier: Option<Supplier>)

  /** A product read with the given `Include`s. */
  function Load(s: Store, p: Product, withCategory: bool, withSupplier: bool): (r: LoadedProduct)
    ensures r.product == p
    ensures r.category.Some? ==>
      withCategory && r.category.value in s.categories && p.categoryId == Some(r.category.value.categoryId)
    ensures withCategory && p.categoryId.Some? && HasCategory(s, p.categoryId.value) ==> r.category.Some?
    ensures r.supplier.Some? ==>
      withSupplier && r.supplier.value in s.suppliers && p.supplierId == Some(r.supplier.value.supplierId)
    ensures withSupplier && p.supplierId.Some? && HasSupplier(s, p.supplierId.value) ==> r.supplier.Some?
  {
    LoadedProduct(
      p,
      if withCategory && p.categoryId.Some? then FindCategory(s, p.categoryId.value) else None,
      if withSupplier && p.supplierId.Some? then FindSupplier(s, p.supplierId.value) else None)
  }

  /** Under the schema's foreign keys, an included navigation property is
      present exactly when its key is. */
  lemma LoadUnderForeignKeys(s: Store, i: int, withCategory: bool, withSupplier: bool)
    requires ForeignKeysResolve(s)
    requires 0 <= i < |s.products|
    ensures var r := Load(s, s.products[i], withCategory, withSupplier);
      && (r.category.Some? <==> withCategory && s.products[i].categoryId.Some?)
      && (r.supplier.Some? <==> withSupplier && s.products[i].supplierId.Some?)
  {
  }

  /** `Load` with the store and the `Include`s fixed. */
  function Loader(s: Store, withCategory: bool, withSupplier: bool): Product -> LoadedProduct {
    (p: Product) => Load(s, p, withCategory, withSupplier)
  }

  /** The products satisfying `keep`, in store order, each read with the
      given `Include`s. */
  function Listing(s: Store, keep: Product -> bool, withCategory: bool, withSupplier: bool): (r: seq<LoadedProduct>)
    ensures |r| <= |s.products|
  {
    Seqs.Map(Seqs.Filter(s.products, keep), Loader(s, withCategory, withSupplier))
  }

  /** What a listing holds: exactly the loaded forms of the stored products
      that pass `keep`. */
  lemma ListingMembers(s: Store, keep: Product -> bool, withCategory: bool, withSupplier: bool, x: LoadedProduct)
    ensures x in Listing(s, keep, withCategory, withSupplier) <==>
      exists i :: 0 <= i < |s.products| && keep(s.products[i]) && x == Load(s, s.products[i], withCategory, withSupplier)
  {
    var kept := Seqs.Filter(s.products, keep);
    var r := Listing(s, keep, withCategory, withSupplier);
    if x in r {
      var j :| 0 <= j < |r| && r[j] == x;
      assert kept[j] in s.products && keep(kept[j]);
      var i :| 0 <= i < |s.products| && s.products[i] == kept[j];
      assert x == Load(s, s.products[i], withCategory, withSupplier);
    }
    if exists i :: 0 <= i < |s.products| && keep(s.products[i]) && x == Load(s, s.products[i], withCategory, withSupplier) {
      var i :| 0 <= i < |s.products| && keep(s.products[i]) && x == Load(s, s.products[i], withCategory, withSupplier);
      assert s.products[i] in kept;
      var j :| 0 <= j < |kept| && kept[j] == s.products[i];
      assert r[j] == x;
    }
  }

  /** `Include(c => c.Products.Where(p => !p.Discontinued))`. */
  datatype CategoryDetail = CategoryDetail(category: Category, products: seq<Product>)

  /** The projection `GetWithProductCountsAsync` selects. */
  datatype CategoryWithProductCount = CategoryWithProductCount(
    categoryId: int,
    categoryName: string,
    description: Option<string>,
    productCount: int,
    activeProductCount: int)

  // ---------------------------------------------------------------------
  // Orders
  // ---------------------------------------------------------------------

  /** `OrderBy(key)` on a string column, compared ordinally. */
  function ByString<T>(key: T -> string): (T, T) -> bool {
    (a: T, b: T) => Text.LexLe(key(a), key(b))
  }

  lemma ByStringTotalPreorder<T(!new)>(key: T -> string)
    ensures Seqs.TotalPreorder(ByString(key))
  {
    var le := ByString(key);
    forall a: T, b: T ensures le(a, b) || le(b, a) {
      Text.LexLeTotal(key(a), key(b));
    }
    forall a: T, b: T, c: T | le(a, b) && le(b, c) ensures le(a, c) {
      Text.LexLeTransitive(key(a), key(b), key(c));
    }
  }

  /** `OrderBy(key)` on a nullable number column: null sorts first. */
  function ByNullable<T>(key: T -> Option<int>): (T, T) -> bool {
    (a: T, b: T) => key(a).None? || (key(b).Some? && key(a).value <= key(b).value)
  }

  lemma ByNullableTotalPreorder<T(!new)>(key: T -> Option<int>)
    ensures Seqs.TotalPreorder(ByNullable(key))
  {
  }

  function ProductNameOf(p: LoadedProduct): string { p.product.productName }
  function UnitsInStockOf(p: LoadedProduct): Option<int> {
    if p.product.unitsInStock.Some? then Some(p.product.unitsInStock.value as int) else None
  }
  function CategoryNameOf(c: Category): string { c.categoryName }
  function CountNameOf(c: CategoryWithProductCount): string { c.categoryName }

  /** `OrderBy(p => p.ProductName)`. */
  function ByProductName(): (LoadedProduct, LoadedProduct) -> bool { ByString(ProductNameOf) }
  /** `OrderBy(p => p.UnitsInStock)`. */
  function ByUnitsInStock(): (LoadedProduct, LoadedProduct) -> bool { ByNullable(UnitsInStockOf) }
  /** `OrderBy(c => c.CategoryName)`. */
  function ByCategoryName(): (Category, Category) -> bool { ByString(CategoryNameOf) }
  function ByCountName(): (CategoryWithProductCount, CategoryWithProductCount) -> bool { ByString(CountNameOf) }
}
