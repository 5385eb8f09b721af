/** The relational store behind the context: the three tables in insertion
    order, their identity counters, the lookups the queries use, the row
    operations a save applies, and the schema's relational constraints. */
module Store {
  import opened Optional
  import opened Entities
  import Seqs

  datatype Store = Store(
    categories: seq<Category>,
    suppliers: seq<Supplier>,
    products: seq<Product>,
    nextCategoryId: int,
    nextSupplierId: int,
    nextProductId: int)

  /** A freshly created database: empty tables, identities starting at 1. */
  const EmptyStore := Store([], [], [], 1, 1, 1)

  /** Why a save or a query throws instead of returning. */
  datatype Fault =
    | DuplicateCategoryName   // the unique index on CategoryName rejects the write
    | DanglingForeignKey      // a CategoryId or SupplierId names no row
    | RowNotFound             // an update or delete found no row to change
    | NoSuchElement           // `First` found no matching row

  // ---------------------------------------------------------------------
  // Lookups (`Find` / `FirstOrDefault` by key or by name, in table order)
  // ---------------------------------------------------------------------

  function FindCategory(s: Store, id: int): (r: Option<Category>)
    ensures r.Some? ==> r.value in s.categories && r.value.categoryId == id
    ensures r.None? <==> forall i :: 0 <= i < |s.categories| ==> s.categories[i].categoryId != id
  {
    Seqs.FirstWhere(s.categories, (c: Category) => c.categoryId == id)
  }

  function FindSupplier(s: Store, id: int): (r: Option<Supplier>)
    ensures r.Some? ==> r.value in s.suppliers && r.value.supplierId == id
    ensures r.None? <==> forall i :: 0 <= i < |s.suppliers| ==> s.suppliers[i].supplierId != id
  {
    Seqs.FirstWhere(s.suppliers, (x: Supplier) => x.supplierId == id)
  }

  function FindProduct(s: Store, id: int): (r: Option<Product>)
    ensures r.Some? ==> r.value in s.products && r.value.productId == id
    ensures r.None? <==> forall i :: 0 <= i < |s.products| ==> s.products[i].productId != id
  {
    Seqs.FirstWhere(s.products, (p: Product) => p.productId == id)
  }

  function FirstCategoryNamed(s: Store, name: string): (r: Option<Category>)
    ensures r.Some? ==> r.value in s.categories && r.value.categoryName == name
    ensures r.None? <==> forall i :: 0 <= i < |s.categories| ==> s.categories[i].categoryName != name
  {
    Seqs.FirstWhere(s.categories, (c: Category) => c.categoryName == name)
  }

  function FirstSupplierNamed(s: Store, name: string): (r: Option<Supplier>)
    ensures r.Some? ==> r.value in s.suppliers && r.value.companyName == name
    ensures r.None? <==> forall i :: 0 <= i < |s.suppliers| ==> s.suppliers[i].companyName != name
  {
    Seqs.FirstWhere(s.suppliers, (x: Supplier) => x.companyName == name)
  }

  predicate HasCategory(s: Store, id: int) {
    FindCategory(s, id).Some?
  }

  predicate HasSupplier(s: Store, id: int) {
    FindSupplier(s, id).Some?
  }

  predicate HasProduct(s: Store, id: int) {
    FindProduct(s, id).Some?
  }

  // ---------------------------------------------------------------------
  // Relational constraints of the schema
  // ---------------------------------------------------------------------

  /** The unique index on CategoryName. */
  predicate UniqueCategoryNames(s: Store) {
    forall i, j :: 0 <= i < j < |s.categories| ==>
      s.categories[i].categoryName != s.categories[j].categoryName
  }

  /** Every product's CategoryId and SupplierId, when present, names a row. */
  predicate ForeignKeysResolve(s: Store) {
    forall i :: 0 <= i < |s.products| ==>
      && (s.products[i].categoryId.Some? ==> HasCategory(s, s.products[i].categoryId.value))
      && (s.products[i].supplierId.Some? ==> HasSupplier(s, s.products[i].supplierId.value))
  }

  predicate Constraints(s: Store) {
    UniqueCategoryNames(s) && ForeignKeysResolve(s)
  }

  // ---------------------------------------------------------------------
  // Row operations applied by a save
  // ---------------------------------------------------------------------

  /** Inserts a category; the database assigns the next identity value. */
  function InsertCategory(s: Store, c: Category): (r: Store)
    ensures r.categories == s.categories + [c.(categoryId := s.nextCategoryId)]
    ensures r.suppliers == s.suppliers && r.products == s.products
    ensures r.nextCategoryId == s.nextCategoryId + 1
  {
    s.(categories := s.categories + [c.(categoryId := s.nextCategoryId)],
       nextCategoryId := s.nextCategoryId + 1)
  }

  function InsertSupplier(s: Store, x: Supplier): (r: Store)
    ensures r.suppliers == s.suppliers + [x.(supplierId := s.nextSupplierId)]
    ensures r.categories == s.categories && r.products == s.products
    ensures r.nextSupplierId == s.nextSupplierId + 1
  {
    s.(suppliers := s.suppliers + [x.(supplierId := s.nextSupplierId)],
       nextSupplierId := s.nextSupplierId + 1)
  }

  function InsertProduct(s: Store, p: Product): (r: Store)
    ensures r.products == s.products + [p.(productId := s.nextProductId)]
    ensures r.categories == s.categories && r.suppliers == s.suppliers
    ensures r.nextProductId == s.nextProductId + 1
  {
    s.(products := s.products + [p.(productId := s.nextProductId)],
       nextProductId := s.nextProductId + 1)
  }

  /** Writes `c` over the row with its key; every other row is untouched. */
  function UpdateCategory(s: Store, c: Category): (r: Store)
    ensures |r.categories| == |s.categories|
    ensures forall i :: 0 <= i < |s.categories| ==>
      r.categories[i] == (if s.categories[i].categoryId == c.categoryId then c else s.categories[i])
    ensures r.suppliers == s.suppliers && r.products == s.products
    ensures r.nextCategoryId == s.nextCategoryId
  {
    s.(categories := Seqs.Map(s.categories, (x: Category) => if x.categoryId == c.categoryId then c else x))
  }

  function UpdateSupplier(s: Store, x: Supplier): (r: Store)
    ensures |r.suppliers| == |s.suppliers|
    ensures forall i :: 0 <= i < |s.suppliers| ==>
      r.suppliers[i] == (if s.suppliers[i].supplierId == x.supplierId then x else s.suppliers[i])
    ensures r.categories == s.categories && r.products == s.products
    ensures r.nextSupplierId == s.nextSupplierId
  {
    s.(suppliers := Seqs.Map(s.suppliers, (y: Supplier) => if y.supplierId == x.supplierId then x else y))
  }

  function UpdateProduct(s: Store, p: Product): (r: Store)
    ensures |r.products| == |s.products|
    ensures forall i :: 0 <= i < |s.products| ==>
      r.products[i] == (if s.products[i].productId == p.productId then p else s.products[i])
    ensures r.categories == s.categories && r.suppliers == s.suppliers
    ensures r.nextProductId == s.nextProductId
  {
    s.(products := Seqs.Map(s.products, (y: Product) => if y.productId == p.productId then p else y))
  }

  /** Deletes the product with key `id`; every other product stays. */
  function DeleteProduct(s: Store, id: int): (r: Store)
    ensures forall p :: p in s.products ==> (p in r.products <==> p.productId != id)
    ensures forall i :: 0 <= i < |r.products| ==> r.products[i] in s.products
    ensures r.categories == s.categories && r.suppliers == s.suppliers
    ensures r.nextProductId == s.nextProductId
  {
    s.(products := Seqs.Filter(s.products, (p: Product) => p.productId != id))
  }

  /** Deletes the category with key `id`; the foreign key's set-null rule
      clears CategoryId on exactly the products that referenced it. */
  function DeleteCategory(s: Store, id: int): (r: Store)
    ensures forall c :: c in s.categories ==> (c in r.categories <==> c.categoryId != id)
    ensures forall i :: 0 <= i < |r.categories| ==> r.categories[i] in s.categories
    ensures |r.products| == |s.products|
    ensures forall i :: 0 <= i < |s.products| ==>
      r.products[i] == (if s.products[i].categoryId == Some(id)
                        then s.products[i].(categoryId := None) else s.products[i])
    ensures r.suppliers == s.suppliers
    ensures r.nextCategoryId == s.nextCategoryId && r.nextProductId == s.nextProductId
  {
    s.(categories := Seqs.Filter(s.categories, (c: Category) => c.categoryId != id),
       products := Seqs.Map(s.products, (p: Product) =>
                     if p.categoryId == Some(id) then p.(categoryId := None) else p))
  }

  /** Deletes the supplier with key `id`, clearing SupplierId on its products. */
  function DeleteSupplier(s: Store, id: int): (r: Store)
    ensures forall x :: x in s.suppliers ==> (x in r.suppliers <==> x.supplierId != id)
    ensures forall i :: 0 <= i < |r.suppliers| ==> r.suppliers[i] in s.suppliers
    ensures |r.products| == |s.products|
    ensures forall i :: 0 <= i < |s.products| ==>
      r.products[i] == (if s.products[i].supplierId == Some(id)
                        then s.products[i].(supplierId := None) else s.products[i])
    ensures r.categories == s.categories
    ensures r.nextSupplierId == s.nextSupplierId && r.nextProductId == s.nextProductId
  {
    s.(suppliers := Seqs.Filter(s.suppliers, (x: Supplier) => x.supplierId != id),
       products := Seqs.Map(s.products, (p: Product) =>
                     if p.supplierId == Some(id) then p.(supplierId := None) else p))
  }

  /** Deleting a category leaves no product pointing at it, and the
      remaining references still resolve when they did before. */
  lemma DeleteCategoryKeepsReferences(s: Store, id: int)
    requires ForeignKeysResolve(s)
    ensures ForeignKeysResolve(DeleteCategory(s, id))
    ensures forall i :: 0 <= i < |s.products| ==> DeleteCategory(s, id).products[i].categoryId != Some(id)
  {
    var r := DeleteCategory(s, id);
    forall i | 0 <= i < |r.products| && r.products[i].categoryId.Some?
      ensures HasCategory(r, r.products[i].categoryId.value)
    {
      var cid := r.products[i].categoryId.value;
      assert cid != id && s.products[i].categoryId == Some(cid);
      var c := FindCategory(s, cid).value;
      assert c in r.categories;
    }
    forall i | 0 <= i < |r.products| && r.products[i].supplierId.Some?
      ensures HasSupplier(r, r.products[i].supplierId.value)
    {
      assert r.products[i].supplierId == s.products[i].supplierId;
      assert FindSupplier(r, r.products[i].supplierId.value) == FindSupplier(s, r.products[i].supplierId.value);
    }
  }

  /** Under the unique index, looking a category up by its name finds
      exactly that row. */
  lemma FirstCategoryNamedFinds(s: Store, k: int)
    requires UniqueCategoryNames(s)
    requires 0 <= k < |s.categories|
    ensures FirstCategoryNamed(s, s.categories[k].categoryName) == Some(s.categories[k])
  {
    var r := FirstCategoryNamed(s, s.categories[k].categoryName);
    assert r.Some?;
    var j :| 0 <= j < |s.categories| && s.categories[j] == r.value;
    assert j == k;
  }

  /** Company names carry no unique index; a lookup by name finds the row
      only when no other supplier shares its name. */
  lemma FirstSupplierNamedFinds(s: Store, k: int)
    requires 0 <= k < |s.suppliers|
    requires forall j :: 0 <= j < |s.suppliers| && j != k ==>
               s.suppliers[j].companyName != s.suppliers[k].companyName
    ensures FirstSupplierNamed(s, s.suppliers[k].companyName) == Some(s.suppliers[k])
  {
    var r := FirstSupplierNamed(s, s.suppliers[k].companyName);
    assert r.Some?;
    var j :| 0 <= j < |s.suppliers| && s.suppliers[j] == r.value;
    assert j == k;
  }

  // ---------------------------------------------------------------------
  // Primary keys and what single-row changes do to the constraints
  // ---------------------------------------------------------------------

  /** No two products share a key, as the identity column guarantees. */
  predicate UniqueProductIds(s: Store) {
    forall i, j :: 0 <= i < j < |s.products| ==> s.products[i].productId != s.products[j].productId
  }

  predicate UniqueCategoryIds(s: Store) {
    forall i, j :: 0 <= i < j < |s.categories| ==> s.categories[i].categoryId != s.categories[j].categoryId
  }

  /** Under unique keys, looking a product up by its key finds that row. */
  lemma FindProductAt(s: Store, k: int)
    requires UniqueProductIds(s) && 0 <= k < |s.products|
    ensures FindProduct(s, s.products[k].productId) == Some(s.products[k])
  {
    var r := FindProduct(s, s.products[k].productId);
    var j :| 0 <= j < |s.products| && s.products[j] == r.value;
    assert j == k;
  }

  lemma FindCategoryAt(s: Store, k: int)
    requires UniqueCategoryIds(s) && 0 <= k < |s.categories|
    ensures FindCategory(s, s.categories[k].categoryId) == Some(s.categories[k])
  {
    var r := FindCategory(s, s.categories[k].categoryId);
    var j :| 0 <= j < |s.categories| && s.categories[j] == r.value;
    assert j == k;
  }

  /** A reference that resolves keeps resolving when rows are only added. */
  lemma ResolvesAfterAppend(s: Store, r: Store)
    requires forall c :: c in s.categories ==> c in r.categories
    requires forall x :: x in s.suppliers ==> x in r.suppliers
    ensures forall id :: HasCategory(s, id) ==> HasCategory(r, id)
    ensures forall id :: HasSupplier(s, id) ==> HasSupplier(r, id)
  {
    forall id | HasCategory(s, id) ensures HasCategory(r, id) {
      assert FindCategory(s, id).value in r.categories;
    }
    forall id | HasSupplier(s, id) ensures HasSupplier(r, id) {
      assert FindSupplier(s, id).value in r.suppliers;
    }
  }

  /** Adding a category to a consistent store keeps it consistent exactly
      when no existing category already has that name. */
  lemma InsertCategoryConstraints(s: Store, c: Category)
    requires Constraints(s)
    ensures ForeignKeysResolve(InsertCategory(s, c))
    ensures Constraints(InsertCategory(s, c)) <==>
      forall i :: 0 <= i < |s.categories| ==> s.categories[i].categoryName != c.categoryName
  {
    var r := InsertCategory(s, c);
    var n := |s.categories|;
    ResolvesAfterAppend(s, r);
    assert r.categories[n] == c.(categoryId := s.nextCategoryId);
    assert ForeignKeysResolve(r) by {
      forall i | 0 <= i < |r.products| ensures
        && (r.products[i].categoryId.Some? ==> HasCategory(r, r.products[i].categoryId.value))
        && (r.products[i].supplierId.Some? ==> HasSupplier(r, r.products[i].supplierId.value))
      {
        assert r.products[i] == s.products[i];
      }
    }
    if forall i :: 0 <= i < n ==> s.categories[i].categoryName != c.categoryName {
      forall i, j | 0 <= i < j < |r.categories| ensures r.categories[i].categoryName != r.categories[j].categoryName {
        assert r.categories[i] == s.categories[i];
        if j < n {
          assert r.categories[j] == s.categories[j];
        }
      }
    } else {
      var i :| 0 <= i < n && s.categories[i].categoryName == c.categoryName;
      assert r.categories[i] == s.categories[i];
      assert r.categories[i].categoryName == r.categories[n].categoryName;
    }
  }

  /** Adding a product to a consistent store keeps it consistent exactly
      when the product's category and supplier, if given, exist. */
  lemma InsertProductConstraints(s: Store, p: Product)
    requires Constraints(s)
    ensures Constraints(InsertProduct(s, p)) <==>
      && (p.categoryId.Some? ==> HasCategory(s, p.categoryId.value))
      && (p.supplierId.Some? ==> HasSupplier(s, p.supplierId.value))
  {
    var r := InsertProduct(s, p);
    assert FindCategory(r, 0) == FindCategory(s, 0);
    assert r.products[|s.products|].categoryId == p.categoryId && r.products[|s.products|].supplierId == p.supplierId;
    forall i | 0 <= i < |s.products| ensures r.products[i] == s.products[i] {
    }
  }

  /** Rewriting a product without touching its category or supplier keeps a
      consistent store consistent. */
  lemma UpdateProductConstraints(s: Store, p: Product)
    requires Constraints(s)
    requires forall i :: 0 <= i < |s.products| && s.products[i].productId == p.productId ==>
      s.products[i].categoryId == p.categoryId && s.products[i].supplierId == p.supplierId
    ensures Constraints(UpdateProduct(s, p))
  {
    var r := UpdateProduct(s, p);
    forall i | 0 <= i < |r.products| ensures
      && (r.products[i].categoryId.Some? ==> HasCategory(r, r.products[i].categoryId.value))
      && (r.products[i].supplierId.Some? ==> HasSupplier(r, r.products[i].supplierId.value))
    {
      assert r.products[i].categoryId == s.products[i].categoryId;
      assert r.products[i].supplierId == s.products[i].supplierId;
      assert FindCategory(r, 0) == FindCategory(s, 0);
    }
  }

  /** Deleting a product keeps a consistent store consistent. */
  lemma DeleteProductConstraints(s: Store, id: int)
    requires Constraints(s)
    ensures Constraints(DeleteProduct(s, id))
  {
    var r := DeleteProduct(s, id);
    forall i | 0 <= i < |r.products| ensures
      && (r.products[i].categoryId.Some? ==> HasCategory(r, r.products[i].categoryId.value))
      && (r.products[i].supplierId.Some? ==> HasSupplier(r, r.products[i].supplierId.value))
    {
      var k :| 0 <= k < |s.products| && s.products[k] == r.products[i];
      assert FindCategory(r, 0) == FindCategory(s, 0);
    }
  }

  /** Rewriting a category's row keeps the store consistent exactly when no
      row with another key has the new name (under unique keys). */
  lemma UpdateCategoryConstraints(s: Store, c: Category)
    requires Constraints(s) && UniqueCategoryIds(s) && HasCategory(s, c.categoryId)
    ensures ForeignKeysResolve(UpdateCategory(s, c))
    ensures Constraints(UpdateCategory(s, c)) <==>
      forall i :: 0 <= i < |s.categories| && s.categories[i].categoryId != c.categoryId ==>
        s.categories[i].categoryName != c.categoryName
  {
    UpdateCategoryResolves(s, c);
    if forall i :: 0 <= i < |s.categories| && s.categories[i].categoryId != c.categoryId ==>
        s.categories[i].categoryName != c.categoryName {
      UpdateCategoryNamesUnique(s, c);
    } else {
      var i :| 0 <= i < |s.categories| && s.categories[i].categoryId != c.categoryId
               && s.categories[i].categoryName == c.categoryName;
      UpdateCategoryNameClash(s, c, i);
    }
  }

  /** Rewriting a category's row under its own key keeps every reference
      resolving. */
  lemma UpdateCategoryResolves(s: Store, c: Category)
    requires ForeignKeysResolve(s) && HasCategory(s, c.categoryId)
    ensures ForeignKeysResolve(UpdateCategory(s, c))
  {
    var r := UpdateCategory(s, c);
    forall id | HasCategory(s, id) ensures HasCategory(r, id) {
      var j :| 0 <= j < |s.categories| && s.categories[j] == FindCategory(s, id).value;
      assert r.categories[j].categoryId == id;
    }
    forall i | 0 <= i < |r.products| ensures
      && (r.products[i].categoryId.Some? ==> HasCategory(r, r.products[i].categoryId.value))
      && (r.products[i].supplierId.Some? ==> HasSupplier(r, r.products[i].supplierId.value))
    {
    }
  }

  lemma UpdateCategoryNamesUnique(s: Store, c: Category)
    requires UniqueCategoryNames(s) && UniqueCategoryIds(s)
    requires forall i :: 0 <= i < |s.categories| && s.categories[i].categoryId != c.categoryId ==>
      s.categories[i].categoryName != c.categoryName
    ensures UniqueCategoryNames(UpdateCategory(s, c))
  {
    var r := UpdateCategory(s, c);
    forall i, j | 0 <= i < j < |r.categories| ensures r.categories[i].categoryName != r.categories[j].categoryName {
      if s.categories[i].categoryId == c.categoryId && s.categories[j].categoryId == c.categoryId {
        assert false;
      }
    }
  }

  lemma UpdateCategoryNameClash(s: Store, c: Category, i: int)
    requires HasCategory(s, c.categoryId)
    requires 0 <= i < |s.categories| && s.categories[i].categoryId != c.categoryId
    requires s.categories[i].categoryName == c.categoryName
    ensures !UniqueCategoryNames(UpdateCategory(s, c))
  {
    var r := UpdateCategory(s, c);
    var k :| 0 <= k < |s.categories| && s.categories[k] == FindCategory(s, c.categoryId).value;
    assert r.categories[k] == c && r.categories[i] == s.categories[i];
    if i < k {
      assert r.categories[i].categoryName == r.categories[k].categoryName;
    } else {
      assert r.categories[k].categoryName == r.categories[i].categoryName;
    }
  }

  /** Deleting a category keeps a consistent store consistent: the names
      left are still distinct and the set-null rule leaves no dangling
      reference. */
  lemma DeleteCategoryConstraints(s: Store, id: int)
    requires Constraints(s)
    ensures Constraints(DeleteCategory(s, id))
  {
    DeleteCategoryKeepsReferences(s, id);
    var name := (c: Category) => c.categoryName;
    assert Seqs.DistinctKeys(s.categories, name);
    Seqs.FilterKeepsDistinct(s.categories, (c: Category) => c.categoryId != id, name);
    var r := DeleteCategory(s, id);
    assert r.categories == Seqs.Filter(s.categories, (c: Category) => c.categoryId != id);
    assert Seqs.DistinctKeys(r.categories, name);
  }
}
