/** The unit of work: tracked entries, the timestamp stamping that runs
    before every save, and the save itself, which applies the entries in
    order and commits them only if the schema's constraints still hold. */
module Context {
  import opened Optional
  import opened Entities
  import opened Store
  import Seqs

  /** Any of the three timestamped entities. */
  datatype Entity = CategoryRow(category: Category) | SupplierRow(supplier: Supplier) | ProductRow(product: Product)

  function StampsOf(e: Entity): Stamps {
    match e
    case CategoryRow(c) => c.stamps
    case SupplierRow(x) => x.stamps
    case ProductRow(p) => p.stamps
  }

  /** The entity with its timestamps replaced and nothing else changed. */
  function WithStamps(e: Entity, st: Stamps): (r: Entity)
    ensures StampsOf(r) == st
    ensures r.CategoryRow? == e.CategoryRow? && r.SupplierRow? == e.SupplierRow?
  {
    match e
    case CategoryRow(c) => CategoryRow(c.(stamps := st))
    case SupplierRow(x) => SupplierRow(x.(stamps := st))
    case ProductRow(p) => ProductRow(p.(stamps := st))
  }

  /** The change tracker's view of an entity. */
  datatype EntityState = Unchanged | Added | Modified | Deleted

  datatype Entry = Entry(entity: Entity, state: EntityState)

  /** Change detection on a tracked entity: assignments that left every
      value as it was leave it Unchanged, so the save does not write it. */
  function TrackedState<T(==)>(before: T, after: T): (r: EntityState)
    ensures r == Unchanged || r == Modified
    ensures r == Unchanged <==> after == before
  {
    if after == before then Unchanged else Modified
  }

  function StampEntry(e: Entry, now: Instant): Entry {
    match e.state
    case Added => e.(entity := WithStamps(e.entity, StampsOf(e.entity).(createdAt := now)))
    case Modified => e.(entity := WithStamps(e.entity, StampsOf(e.entity).(updatedAt := Some(now))))
    case _ => e
  }

  /** `ApplyTimestamps`, with the clock reading `now` taken once for the batch:
      added entries get CreatedAt = now, modified ones UpdatedAt = now, and
      nothing else about any entry changes. */
  function ApplyTimestamps(entries: seq<Entry>, now: Instant): (r: seq<Entry>)
    ensures |r| == |entries|
    ensures forall i :: 0 <= i < |r| ==>
      r[i].state == entries[i].state && WithStamps(r[i].entity, StampsOf(entries[i].entity)) == entries[i].entity
    ensures forall i :: 0 <= i < |r| && entries[i].state == Added ==>
      StampsOf(r[i].entity) == Stamps(now, StampsOf(entries[i].entity).updatedAt)
    ensures forall i :: 0 <= i < |r| && entries[i].state == Modified ==>
      StampsOf(r[i].entity) == Stamps(StampsOf(entries[i].entity).createdAt, Some(now))
    ensures forall i :: 0 <= i < |r| && entries[i].state in {Unchanged, Deleted} ==> r[i] == entries[i]
  {
    Seqs.Map(entries, (e: Entry) => StampEntry(e, now))
  }

  /** Whether the row an entry refers to by key is in the store. */
  predicate RowExists(s: Store, e: Entity) {
    match e
    case CategoryRow(c) => HasCategory(s, c.categoryId)
    case SupplierRow(x) => HasSupplier(s, x.supplierId)
    case ProductRow(p) => HasProduct(s, p.productId)
  }

  /** Applies one tracked entry to the store. Updating or deleting a row
      that is not there fails, as the provider's affected-row check does. */
  function ApplyEntry(s: Store, e: Entry): (r: Result<Store, Fault>)
    ensures r.Failure? <==> (e.state in {Modified, Deleted} && !RowExists(s, e.entity))
    ensures r.Failure? ==> r.error == RowNotFound
    ensures e.state == Unchanged ==> r == Success(s)
    ensures r.Success? && e.state == Added ==>
      (|r.value.categories| + |r.value.suppliers| + |r.value.products|
         == |s.categories| + |s.suppliers| + |s.products| + 1)
    ensures r.Success? && e.state == Modified ==>
      (|r.value.categories| == |s.categories| && |r.value.suppliers| == |s.suppliers| && |r.value.products| == |s.products|)
    ensures r.Success? && e.entity.ProductRow? ==>
      (r.value.categories == s.categories && r.value.suppliers == s.suppliers)
  {
    match e.state
    case Unchanged => Success(s)
    case Added => (
      match e.entity
      case CategoryRow(c) => Success(InsertCategory(s, c))
      case SupplierRow(x) => Success(InsertSupplier(s, x))
      case ProductRow(p) => Success(InsertProduct(s, p)))
    case Modified => (
      match e.entity
      case CategoryRow(c) => if HasCategory(s, c.categoryId) then Success(UpdateCategory(s, c)) else Failure(RowNotFound)
      case SupplierRow(x) => if HasSupplier(s, x.supplierId) then Success(UpdateSupplier(s, x)) else Failure(RowNotFound)
      case ProductRow(p) => if HasProduct(s, p.productId) then Success(UpdateProduct(s, p)) else Failure(RowNotFound))
    case Deleted => (
      match e.entity
      case CategoryRow(c) => if HasCategory(s, c.categoryId) then Success(DeleteCategory(s, c.categoryId)) else Failure(RowNotFound)
      case SupplierRow(x) => if HasSupplier(s, x.supplierId) then Success(DeleteSupplier(s, x.supplierId)) else Failure(RowNotFound)
      case ProductRow(p) => if HasProduct(s, p.productId) then Success(DeleteProduct(s, p.productId)) else Failure(RowNotFound))
  }

  function ApplyEntries(s: Store, entries: seq<Entry>): Result<Store, Fault>
    decreases |entries|
  {
    if |entries| == 0 then Success(s)
    else
      var s1 :- ApplyEntry(s, entries[0]);
      ApplyEntries(s1, entries[1..])
  }

  /** `SaveChanges` / `SaveChangesAsync`: both stamp the batch first, then
      apply it as one transaction. A batch that would break a constraint is
      rejected as a whole and the caller keeps the old store. */
  function SaveChanges(s: Store, entries: seq<Entry>, now: Instant): (r: Result<Store, Fault>)
    ensures r.Success? ==> Constraints(r.value)
    ensures r.Success? ==> ApplyEntries(s, ApplyTimestamps(entries, now)) == r
    ensures var applied := ApplyEntries(s, ApplyTimestamps(entries, now));
      && (applied.Success? && Constraints(applied.value) ==> r == applied)
      && (applied.Success? && !Constraints(applied.value) ==>
            r.Failure? && r.error in {DuplicateCategoryName, DanglingForeignKey})
      && (applied.Failure? ==> r == Failure(applied.error))
  {
    var s1 :- ApplyEntries(s, ApplyTimestamps(entries, now));
    if !UniqueCategoryNames(s1) then Failure(DuplicateCategoryName)
    else if !ForeignKeysResolve(s1) then Failure(DanglingForeignKey)
    else Success(s1)
  }

  /** Saving a single added product inserts it with the next identity value
      and CreatedAt = now; nothing else in the store changes. */
  lemma SaveAddedProduct(s: Store, p: Product, now: Instant)
    ensures var added := p.(productId := s.nextProductId, stamps := p.stamps.(createdAt := now));
            var r := SaveChanges(s, [Entry(ProductRow(p), Added)], now);
            && (r.Success? <==> Constraints(InsertProduct(s, added)))
            && (r.Success? ==> r.value == InsertProduct(s, added))
  {
    SaveOne(s, Entry(ProductRow(p), Added), now);
  }

  /** Saving a single added category inserts it with the next identity value. */
  lemma SaveAddedCategory(s: Store, c: Category, now: Instant)
    ensures var added := c.(categoryId := s.nextCategoryId, stamps := c.stamps.(createdAt := now));
            var r := SaveChanges(s, [Entry(CategoryRow(c), Added)], now);
            && (r.Success? <==> Constraints(InsertCategory(s, added)))
            && (r.Success? ==> r.value == InsertCategory(s, added))
  {
    SaveOne(s, Entry(CategoryRow(c), Added), now);
  }

  /** Saving one entry in a given state: the stamped entry applied, then checked. */
  lemma SaveOne(s: Store, e: Entry, now: Instant)
    ensures ApplyEntries(s, ApplyTimestamps([e], now)) == ApplyEntry(s, StampEntry(e, now))
  {
    var st := ApplyTimestamps([e], now);
    assert st[0] == StampEntry(e, now);
    assert st[1..] == [];
    match ApplyEntry(s, st[0]) {
      case Success(s1) =>
        assert ApplyEntries(s1, st[1..]) == Success(s1);
      case Failure(_) =>
    }
  }

  /** Saving a batch that only re-reads entities (all Unchanged) leaves the
      store as it is, provided it already met the constraints. */
  lemma {:induction false} SaveUnchanged(s: Store, entries: seq<Entry>, now: Instant)
    requires Constraints(s)
    requires forall i :: 0 <= i < |entries| ==> entries[i].state == Unchanged
    ensures SaveChanges(s, entries, now) == Success(s)
  {
    var st := ApplyTimestamps(entries, now);
    assert st == entries;
    ApplyUnchanged(s, entries);
  }

  lemma {:induction false} ApplyUnchanged(s: Store, entries: seq<Entry>)
    requires forall i :: 0 <= i < |entries| ==> entries[i].state == Unchanged
    ensures ApplyEntries(s, entries) == Success(s)
    decreases |entries|
  {
    if |entries| > 0 {
      ApplyUnchanged(s, entries[1..]);
    }
  }
}

/** Batches that only add rows of one table, as the seeding steps save them. */
module Batches {
  import opened Optional
  import opened Entities
  import opened Store
  import opened Context
  import Seqs

  function AddedCategories(cs: seq<Category>): (r: seq<Entry>)
    ensures |r| == |cs|
    ensures forall i :: 0 <= i < |cs| ==> r[i] == Entry(CategoryRow(cs[i]), Added)
  {
    Seqs.Map(cs, (c: Category) => Entry(CategoryRow(c), Added))
  }

  function AddedSuppliers(xs: seq<Supplier>): (r: seq<Entry>)
    ensures |r| == |xs|
    ensures forall i :: 0 <= i < |xs| ==> r[i] == Entry(SupplierRow(xs[i]), Added)
  {
    Seqs.Map(xs, (x: Supplier) => Entry(SupplierRow(x), Added))
  }

  function AddedProducts(ps: seq<Product>): (r: seq<Entry>)
    ensures |r| == |ps|
    ensures forall i :: 0 <= i < |ps| ==> r[i] == Entry(ProductRow(ps[i]), Added)
  {
    Seqs.Map(ps, (p: Product) => Entry(ProductRow(p), Added))
  }

  /** The rows as the database stores them: CreatedAt stamped, identities
      assigned consecutively from `first`. */
  function StoredCategories(cs: seq<Category>, first: int, now: Instant): (r: seq<Category>)
    ensures |r| == |cs|
    ensures forall i :: 0 <= i < |cs| ==>
      r[i] == cs[i].(categoryId := first + i, stamps := cs[i].stamps.(createdAt := now))
  {
    seq(|cs|, i requires 0 <= i < |cs| => cs[i].(categoryId := first + i, stamps := cs[i].stamps.(createdAt := now)))
  }

  function StoredSuppliers(xs: seq<Supplier>, first: int, now: Instant): (r: seq<Supplier>)
    ensures |r| == |xs|
    ensures forall i :: 0 <= i < |xs| ==>
      r[i] == xs[i].(supplierId := first + i, stamps := xs[i].stamps.(createdAt := now))
  {
    seq(|xs|, i requires 0 <= i < |xs| => xs[i].(supplierId := first + i, stamps := xs[i].stamps.(createdAt := now)))
  }

  function StoredProducts(ps: seq<Product>, first: int, now: Instant): (r: seq<Product>)
    ensures |r| == |ps|
    ensures forall i :: 0 <= i < |ps| ==>
      r[i] == ps[i].(productId := first + i, stamps := ps[i].stamps.(createdAt := now))
  {
    seq(|ps|, i requires 0 <= i < |ps| => ps[i].(productId := first + i, stamps := ps[i].stamps.(createdAt := now)))
  }

  /** A batch whose first entry applies continues from the store it yields. */
  lemma ApplyEntriesCons(s: Store, es: seq<Entry>)
    requires |es| > 0 && ApplyEntry(s, es[0]).Success?
    ensures ApplyEntries(s, es) == ApplyEntries(ApplyEntry(s, es[0]).value, es[1..])
  {
  }

  lemma StoredProductsCons(ps: seq<Product>, first: int, now: Instant)
    requires |ps| > 0
    ensures StoredProducts(ps, first, now)
         == [ps[0].(productId := first, stamps := ps[0].stamps.(createdAt := now))] + StoredProducts(ps[1..], first + 1, now)
  {
    var r := [ps[0].(productId := first, stamps := ps[0].stamps.(createdAt := now))] + StoredProducts(ps[1..], first + 1, now);
    assert forall i :: 1 <= i < |ps| ==> r[i] == StoredProducts(ps[1..], first + 1, now)[i - 1];
  }

  lemma StoredCategoriesCons(cs: seq<Category>, first: int, now: Instant)
    requires |cs| > 0
    ensures StoredCategories(cs, first, now)
         == [cs[0].(categoryId := first, stamps := cs[0].stamps.(createdAt := now))] + StoredCategories(cs[1..], first + 1, now)
  {
    var r := [cs[0].(categoryId := first, stamps := cs[0].stamps.(createdAt := now))] + StoredCategories(cs[1..], first + 1, now);
    assert forall i :: 1 <= i < |cs| ==> r[i] == StoredCategories(cs[1..], first + 1, now)[i - 1];
  }

  lemma StoredSuppliersCons(xs: seq<Supplier>, first: int, now: Instant)
    requires |xs| > 0
    ensures StoredSuppliers(xs, first, now)
         == [xs[0].(supplierId := first, stamps := xs[0].stamps.(createdAt := now))] + StoredSuppliers(xs[1..], first + 1, now)
  {
    var r := [xs[0].(supplierId := first, stamps := xs[0].stamps.(createdAt := now))] + StoredSuppliers(xs[1..], first + 1, now);
    assert forall i :: 1 <= i < |xs| ==> r[i] == StoredSuppliers(xs[1..], first + 1, now)[i - 1];
  }

  /** The first added category of a stamped batch is inserted before the rest. */
  lemma AddedCategoriesStep(s: Store, cs: seq<Category>, now: Instant)
    requires |cs| > 0
    ensures ApplyEntries(s, ApplyTimestamps(AddedCategories(cs), now))
         == ApplyEntries(InsertCategory(s, cs[0].(stamps := cs[0].stamps.(createdAt := now))), ApplyTimestamps(AddedCategories(cs[1..]), now))
  {
    var es := ApplyTimestamps(AddedCategories(cs), now);
    var first := cs[0].(stamps := cs[0].stamps.(createdAt := now));
    assert es[0] == Entry(CategoryRow(first), Added);
    assert ApplyEntry(s, es[0]) == Success(InsertCategory(s, first));
    ApplyEntriesCons(s, es);
    assert es[1..] == ApplyTimestamps(AddedCategories(cs[1..]), now);
  }

  /** The induction step: once the rest of the batch is known to append the
      rest of the rows, the whole batch appends all of them. */
  lemma AddedCategoriesLift(s: Store, cs: seq<Category>, now: Instant)
    requires |cs| > 0
    requires var s1 := InsertCategory(s, cs[0].(stamps := cs[0].stamps.(createdAt := now)));
      ApplyEntries(s1, ApplyTimestamps(AddedCategories(cs[1..]), now))
           == Success(s1.(categories := s1.categories + StoredCategories(cs[1..], s1.nextCategoryId, now),
                           nextCategoryId := s1.nextCategoryId + |cs[1..]|))
    ensures ApplyEntries(s, ApplyTimestamps(AddedCategories(cs), now))
         == Success(s.(categories := s.categories + StoredCategories(cs, s.nextCategoryId, now),
                       nextCategoryId := s.nextCategoryId + |cs|))
  {
    AddedCategoriesStep(s, cs, now);
    AppendedCategoriesStep(s, cs, now);
  }

  /** Inserting the first row and then appending the rest is appending all. */
  lemma AppendedCategoriesStep(s: Store, cs: seq<Category>, now: Instant)
    requires |cs| > 0
    ensures var s1 := InsertCategory(s, cs[0].(stamps := cs[0].stamps.(createdAt := now)));
      s1.(categories := s1.categories + StoredCategories(cs[1..], s1.nextCategoryId, now), nextCategoryId := s1.nextCategoryId + |cs[1..]|)
        == s.(categories := s.categories + StoredCategories(cs, s.nextCategoryId, now), nextCategoryId := s.nextCategoryId + |cs|)
  {
    var first := cs[0].(stamps := cs[0].stamps.(createdAt := now));
    var s1 := InsertCategory(s, first);
    var rest := StoredCategories(cs[1..], s1.nextCategoryId, now);
    assert s1.nextCategoryId == s.nextCategoryId + 1;
    assert rest == StoredCategories(cs[1..], s.nextCategoryId + 1, now);
    StoredCategoriesCons(cs, s.nextCategoryId, now);
    assert first.(categoryId := s.nextCategoryId) == cs[0].(categoryId := s.nextCategoryId, stamps := cs[0].stamps.(createdAt := now));
    assert [first.(categoryId := s.nextCategoryId)] + rest == StoredCategories(cs, s.nextCategoryId, now);
    assert 1 + |rest| == |cs|;
    InsertCategoryThenAppend(s, first, rest);
  }

  lemma InsertCategoryThenAppend(s: Store, x: Category, rest: seq<Category>)
    ensures var s1 := InsertCategory(s, x);
      s1.(categories := s1.categories + rest, nextCategoryId := s1.nextCategoryId + |rest|)
        == s.(categories := s.categories + ([x.(categoryId := s.nextCategoryId)] + rest), nextCategoryId := s.nextCategoryId + 1 + |rest|)
  {
    Seqs.ConcatAssoc(s.categories, [x.(categoryId := s.nextCategoryId)], rest);
  }

  lemma {:induction false} ApplyAddedCategories(s: Store, cs: seq<Category>, now: Instant)
    ensures ApplyEntries(s, ApplyTimestamps(AddedCategories(cs), now))
         == Success(s.(categories := s.categories + StoredCategories(cs, s.nextCategoryId, now),
                       nextCategoryId := s.nextCategoryId + |cs|))
    decreases |cs|
  {
    if |cs| > 0 {
      ApplyAddedCategories(InsertCategory(s, cs[0].(stamps := cs[0].stamps.(createdAt := now))), cs[1..], now);
      AddedCategoriesLift(s, cs, now);
    } else {
      assert ApplyTimestamps(AddedCategories(cs), now) == [] && StoredCategories(cs, s.nextCategoryId, now) == [];
      assert s.categories + [] == s.categories;
    }
  }

  /** The first added supplier of a stamped batch is inserted before the rest. */
  lemma AddedSuppliersStep(s: Store, xs: seq<Supplier>, now: Instant)
    requires |xs| > 0
    ensures ApplyEntries(s, ApplyTimestamps(AddedSuppliers(xs), now))
         == ApplyEntries(InsertSupplier(s, xs[0].(stamps := xs[0].stamps.(createdAt := now))), ApplyTimestamps(AddedSuppliers(xs[1..]), now))
  {
    var es := ApplyTimestamps(AddedSuppliers(xs), now);
    var first := xs[0].(stamps := xs[0].stamps.(createdAt := now));
    assert es[0] == Entry(SupplierRow(first), Added);
    assert ApplyEntry(s, es[0]) == Success(InsertSupplier(s, first));
    ApplyEntriesCons(s, es);
    assert es[1..] == ApplyTimestamps(AddedSuppliers(xs[1..]), now);
  }

  /** The induction step: once the rest of the batch is known to append the
      rest of the rows, the whole batch appends all of them. */
  lemma AddedSuppliersLift(s: Store, xs: seq<Supplier>, now: Instant)
    requires |xs| > 0
    requires var s1 := InsertSupplier(s, xs[0].(stamps := xs[0].stamps.(createdAt := now)));
      ApplyEntries(s1, ApplyTimestamps(AddedSuppliers(xs[1..]), now))
           == Success(s1.(suppliers := s1.suppliers + StoredSuppliers(xs[1..], s1.nextSupplierId, now),
                           nextSupplierId := s1.nextSupplierId + |xs[1..]|))
    ensures ApplyEntries(s, ApplyTimestamps(AddedSuppliers(xs), now))
         == Success(s.(suppliers := s.suppliers + StoredSuppliers(xs, s.nextSupplierId, now),
                       nextSupplierId := s.nextSupplierId + |xs|))
  {
    AddedSuppliersStep(s, xs, now);
    AppendedSuppliersStep(s, xs, now);
  }

  /** Inserting the first row and then appending the rest is appending all. */
  lemma AppendedSuppliersStep(s: Store, xs: seq<Supplier>, now: Instant)
    requires |xs| > 0
    ensures var s1 := InsertSupplier(s, xs[0].(stamps := xs[0].stamps.(createdAt := now)));
      s1.(suppliers := s1.suppliers + StoredSuppliers(xs[1..], s1.nextSupplierId, now), nextSupplierId := s1.nextSupplierId + |xs[1..]|)
        == s.(suppliers := s.suppliers + StoredSuppliers(xs, s.nextSupplierId, now), nextSupplierId := s.nextSupplierId + |xs|)
  {
    var first := xs[0].(stamps := xs[0].stamps.(createdAt := now));
    var s1 := InsertSupplier(s, first);
    var rest := StoredSuppliers(xs[1..], s1.nextSupplierId, now);
    assert s1.nextSupplierId == s.nextSupplierId + 1;
    assert rest == StoredSuppliers(xs[1..], s.nextSupplierId + 1, now);
    StoredSuppliersCons(xs, s.nextSupplierId, now);
    assert first.(supplierId := s.nextSupplierId) == xs[0].(supplierId := s.nextSupplierId, stamps := xs[0].stamps.(createdAt := now));
    assert [first.(supplierId := s.nextSupplierId)] + rest == StoredSuppliers(xs, s.nextSupplierId, now);
    assert 1 + |rest| == |xs|;
    InsertSupplierThenAppend(s, first, rest);
  }

  lemma InsertSupplierThenAppend(s: Store, x: Supplier, rest: seq<Supplier>)
    ensures var s1 := InsertSupplier(s, x);
      s1.(suppliers := s1.suppliers + rest, nextSupplierId := s1.nextSupplierId + |rest|)
        == s.(suppliers := s.suppliers + ([x.(supplierId := s.nextSupplierId)] + rest), nextSupplierId := s.nextSupplierId + 1 + |rest|)
  {
    Seqs.ConcatAssoc(s.suppliers, [x.(supplierId := s.nextSupplierId)], rest);
  }

  lemma {:induction false} ApplyAddedSuppliers(s: Store, xs: seq<Supplier>, now: Instant)
    ensures ApplyEntries(s, ApplyTimestamps(AddedSuppliers(xs), now))
         == Success(s.(suppliers := s.suppliers + StoredSuppliers(xs, s.nextSupplierId, now),
                       nextSupplierId := s.nextSupplierId + |xs|))
    decreases |xs|
  {
    if |xs| > 0 {
      ApplyAddedSuppliers(InsertSupplier(s, xs[0].(stamps := xs[0].stamps.(createdAt := now))), xs[1..], now);
      AddedSuppliersLift(s, xs, now);
    } else {
      assert ApplyTimestamps(AddedSuppliers(xs), now) == [] && StoredSuppliers(xs, s.nextSupplierId, now) == [];
      assert s.suppliers + [] == s.suppliers;
    }
  }

  /** The first added product of a stamped batch is inserted before the rest. */
  lemma AddedProductsStep(s: Store, ps: seq<Product>, now: Instant)
    requires |ps| > 0
    ensures ApplyEntries(s, ApplyTimestamps(AddedProducts(ps), now))
         == ApplyEntries(InsertProduct(s, ps[0].(stamps := ps[0].stamps.(createdAt := now))), ApplyTimestamps(AddedProducts(ps[1..]), now))
  {
    var es := ApplyTimestamps(AddedProducts(ps), now);
    var first := ps[0].(stamps := ps[0].stamps.(createdAt := now));
    assert es[0] == Entry(ProductRow(first), Added);
    assert ApplyEntry(s, es[0]) == Success(InsertProduct(s, first));
    ApplyEntriesCons(s, es);
    assert es[1..] == ApplyTimestamps(AddedProducts(ps[1..]), now);
  }

  /** The induction step: once the rest of the batch is known to append the
      rest of the rows, the whole batch appends all of them. */
  lemma AddedProductsLift(s: Store, ps: seq<Product>, now: Instant)
    requires |ps| > 0
    requires var s1 := InsertProduct(s, ps[0].(stamps := ps[0].stamps.(createdAt := now)));
      ApplyEntries(s1, ApplyTimestamps(AddedProducts(ps[1..]), now))
           == Success(s1.(products := s1.products + StoredProducts(ps[1..], s1.nextProductId, now),
                           nextProductId := s1.nextProductId + |ps[1..]|))
    ensures ApplyEntries(s, ApplyTimestamps(AddedProducts(ps), now))
         == Success(s.(products := s.products + StoredProducts(ps, s.nextProductId, now),
                       nextProductId := s.nextProductId + |ps|))
  {
    AddedProductsStep(s, ps, now);
    AppendedProductsStep(s, ps, now);
  }

  /** Inserting the first row and then appending the rest is appending all. */
  lemma AppendedProductsStep(s: Store, ps: seq<Product>, now: Instant)
    requires |ps| > 0
    ensures var s1 := InsertProduct(s, ps[0].(stamps := ps[0].stamps.(createdAt := now)));
      s1.(products := s1.products + StoredProducts(ps[1..], s1.nextProductId, now), nextProductId := s1.nextProductId + |ps[1..]|)
        == s.(products := s.products + StoredProducts(ps, s.nextProductId, now), nextProductId := s.nextProductId + |ps|)
  {
    var first := ps[0].(stamps := ps[0].stamps.(createdAt := now));
    var s1 := InsertProduct(s, first);
    var rest := StoredProducts(ps[1..], s1.nextProductId, now);
    assert s1.nextProductId == s.nextProductId + 1;
    assert rest == StoredProducts(ps[1..], s.nextProductId + 1, now);
    StoredProductsCons(ps, s.nextProductId, now);
    assert first.(productId := s.nextProductId) == ps[0].(productId := s.nextProductId, stamps := ps[0].stamps.(createdAt := now));
    assert [first.(productId := s.nextProductId)] + rest == StoredProducts(ps, s.nextProductId, now);
    assert 1 + |rest| == |ps|;
    InsertProductThenAppend(s, first, rest);
  }

  lemma InsertProductThenAppend(s: Store, x: Product, rest: seq<Product>)
    ensures var s1 := InsertProduct(s, x);
      s1.(products := s1.products + rest, nextProductId := s1.nextProductId + |rest|)
        == s.(products := s.products + ([x.(productId := s.nextProductId)] + rest), nextProductId := s.nextProductId + 1 + |rest|)
  {
    Seqs.ConcatAssoc(s.products, [x.(productId := s.nextProductId)], rest);
  }

  lemma {:induction false} ApplyAddedProducts(s: Store, ps: seq<Product>, now: Instant)
    ensures ApplyEntries(s, ApplyTimestamps(AddedProducts(ps), now))
         == Success(s.(products := s.products + StoredProducts(ps, s.nextProductId, now),
                       nextProductId := s.nextProductId + |ps|))
    decreases |ps|
  {
    if |ps| > 0 {
      ApplyAddedProducts(InsertProduct(s, ps[0].(stamps := ps[0].stamps.(createdAt := now))), ps[1..], now);
      AddedProductsLift(s, ps, now);
    } else {
      assert ApplyTimestamps(AddedProducts(ps), now) == [] && StoredProducts(ps, s.nextProductId, now) == [];
      assert s.products + [] == s.products;
    }
  }
}
