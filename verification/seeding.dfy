/** Database initialisation: the one-time seeding of the reference catalogue
    (8 categories, 5 suppliers, 8 products), saved in three phases. */
module Seeding {
  import opened Optional
  import opened Entities
  import opened Store
  import opened Context
  import opened Batches
  import Text
  import opened Numeric

  /** The clock readings of the three saves. */
  datatype SeedClock = SeedClock(categoriesAt: Instant, suppliersAt: Instant, productsAt: Instant)

  function SeedCategory(name: string, description: string): Category {
    NewCategory.(categoryName := name, description := Some(description))
  }

  const SeedCategoryRows: seq<Category> := [
    SeedCategory("Beverages", "Soft drinks, coffees, teas, beers, and ales"),
    SeedCategory("Condiments", "Sweet and savory sauces, relishes, spreads, and seasonings"),
    SeedCategory("Confections", "Desserts, candies, and sweet breads"),
    SeedCategory("Dairy Products", "Cheeses and other dairy products"),
    SeedCategory("Grains/Cereals", "Breads, crackers, pasta, and cereal"),
    SeedCategory("Meat/Poultry", "Prepared meats and poultry products"),
    SeedCategory("Produce", "Dried fruit and bean curd"),
    SeedCategory("Seafood", "Seaweed and fish products")
  ]

  const NewSupplier := Supplier(0, "", None, None, None, None, None, None, None, None, None, None, Unstamped)

  function SeedSupplier(company: string, contact: string, city: string, region: Option<string>,
                        country: string, phone: Option<string>): Supplier {
    NewSupplier.(companyName := company, contactName := Some(contact), city := Some(city),
                 region := region, country := Some(country), phone := phone)
  }

  const SeedSupplierRows: seq<Supplier> := [
    SeedSupplier("Exotic Liquids", "Charlotte Cooper", "London", None, "UK", Some("(171) 555-2222")),
    SeedSupplier("New Orleans Cajun Delights", "Shelley Burke", "New Orleans", Some("LA"), "USA", None),
    SeedSupplier("Grandma Kelly's Homestead", "Regina Murphy", "Ann Arbor", Some("MI"), "USA", None),
    SeedSupplier("Tokyo Traders", "Yoshi Nagase", "Tokyo", None, "Japan", None),
    SeedSupplier("Cooperativa de Quesos 'Las Cabras'", "Antonio del Valle Saavedra", "Oviedo", None, "Spain", None)
  ]

  /** How the product phase obtains the supplier of the two Queso products:
      the source writes the literal key 5 (`LiteralKey`); `ByName` looks the
      cooperative up by name like the other suppliers. */
  datatype QuesoSupplier = LiteralKey | ByName

  /** The keys the product phase looks up before building its rows. */
  datatype SeedRefs = SeedRefs(
    beverages: int, condiments: int, seafood: int, dairy: int,
    exotic: int, newOrleans: int, tokyo: int, cabras: int)

  function SeedProduct(name: string, supplier: int, category: int, qpu: string, price: int,
                       stock: int16, onOrder: Option<int16>, reorder: Option<int16>, discontinued: bool): Product {
    NewProduct.(productName := name, supplierId := Some(supplier), categoryId := Some(category),
                quantityPerUnit := Some(qpu), unitPrice := Some(price), unitsInStock := Some(stock),
                unitsOnOrder := onOrder, reorderLevel := reorder, discontinued := discontinued)
  }

  /** The product rows; prices in hundredths. */
  function SeedProductRows(r: SeedRefs): seq<Product> {
    [
      SeedProduct("Chai", r.exotic, r.beverages, "10 boxes x 20 bags", 1800, 39, None, Some(10), false),
      SeedProduct("Chang", r.exotic, r.beverages, "24 - 12 oz bottles", 1900, 17, Some(40), Some(25), false),
      SeedProduct("Aniseed Syrup", r.exotic, r.condiments, "12 - 550 ml bottles", 1000, 13, None, Some(25), false),
      SeedProduct("Chef Anton's Cajun Seasoning", r.newOrleans, r.condiments, "48 - 6 oz jars", 2200, 53, None, None, false),
      SeedProduct("Chef Anton's Gumbo Mix", r.newOrleans, r.condiments, "36 boxes", 2135, 0, None, None, true),
      SeedProduct("Ikura", r.tokyo, r.seafood, "12 - 200 ml jars", 3100, 31, None, None, false),
      SeedProduct("Queso Cabrales", r.cabras, r.dairy, "1 kg pkg.", 2100, 22, Some(30), Some(30), false),
      SeedProduct("Queso Manchego La Pastora", r.cabras, r.dairy, "10 - 500 g pkgs.", 3800, 86, None, None, false)
    ]
  }

  /** The category each seeded product is filed under, by name. */
  const SeedProductCategoryNames: seq<string> := [
    "Beverages", "Beverages", "Condiments", "Condiments", "Condiments", "Seafood",
    "Dairy Products", "Dairy Products"
  ]

  const CabrasName := "Cooperativa de Quesos 'Las Cabras'"

  /** `First(predicate)`: throws when nothing matches. */
  function FirstOrThrow<T>(o: Option<T>): (r: Result<T, Fault>)
    ensures r.Success? <==> o.Some?
    ensures o.Some? ==> r.value == o.value
  {
    if o.Some? then Success(o.value) else Failure(NoSuchElement)
  }

  /** What `InitializeAsync` leaves behind: the store as the completed
      phases committed it, and the exception that ended the call, if any.
      Each phase saves on its own, so a failing phase does not undo the
      phases before it. */
  datatype SeedOutcome = SeedOutcome(store: Store, fault: Option<Fault>)

  /** The category phase: the eight categories are added and saved. The
      save commits them, with the next eight keys, exactly when the schema's
      constraints allow it. */
  function SeedCategories(s: Store, now: Instant): (r: Result<Store, Fault>)
    ensures var added := s.(categories := s.categories + StoredCategories(SeedCategoryRows, s.nextCategoryId, now),
                            nextCategoryId := s.nextCategoryId + 8);
      && (r.Success? <==> Constraints(added))
      && (r.Success? ==> r.value == added)
  {
    ApplyAddedCategories(s, SeedCategoryRows, now);
    SaveChanges(s, AddedCategories(SeedCategoryRows), now)
  }

  /** The supplier phase: the five suppliers are added and saved, with the
      next five keys, exactly when the schema's constraints allow it. */
  function SeedSuppliers(s: Store, now: Instant): (r: Result<Store, Fault>)
    ensures var added := s.(suppliers := s.suppliers + StoredSuppliers(SeedSupplierRows, s.nextSupplierId, now),
                            nextSupplierId := s.nextSupplierId + 5);
      && (r.Success? <==> Constraints(added))
      && (r.Success? ==> r.value == added)
  {
    ApplyAddedSuppliers(s, SeedSupplierRows, now);
    SaveChanges(s, AddedSuppliers(SeedSupplierRows), now)
  }

  function CategoryKey(s: Store, name: string): (r: Result<int, Fault>)
    ensures r.Success? <==> FirstCategoryNamed(s, name).Some?
    ensures r.Success? ==> r.value == FirstCategoryNamed(s, name).value.categoryId
    ensures r.Failure? ==> r.error == NoSuchElement
  {
    var c :- FirstOrThrow(FirstCategoryNamed(s, name));
    Success(c.categoryId)
  }

  function SupplierKey(s: Store, name: string): (r: Result<int, Fault>)
    ensures r.Success? <==> FirstSupplierNamed(s, name).Some?
    ensures r.Success? ==> r.value == FirstSupplierNamed(s, name).value.supplierId
    ensures r.Failure? ==> r.error == NoSuchElement
  {
    var x :- FirstOrThrow(FirstSupplierNamed(s, name));
    Success(x.supplierId)
  }

  /** Every name the product phase looks up is present: the four
      categories, three suppliers, and the cooperative when it is looked up
      by name. */
  predicate RefsFound(s: Store, v: QuesoSupplier) {
    && FirstCategoryNamed(s, "Beverages").Some? && FirstCategoryNamed(s, "Condiments").Some?
    && FirstCategoryNamed(s, "Seafood").Some? && FirstCategoryNamed(s, "Dairy Products").Some?
    && FirstSupplierNamed(s, "Exotic Liquids").Some? && FirstSupplierNamed(s, "New Orleans Cajun Delights").Some?
    && FirstSupplierNamed(s, "Tokyo Traders").Some?
    && (v == ByName ==> FirstSupplierNamed(s, CabrasName).Some?)
  }

  /** The product phase first resolves the categories and suppliers it
      needs by name with `First`, which throws when a name is missing. All
      lookups run before any row is built and throw the same exception, so
      the phase fails exactly when some name is missing. */
  function LookupRefs(s: Store, v: QuesoSupplier): (r: Result<SeedRefs, Fault>)
    ensures r.Success? <==> RefsFound(s, v)
    ensures r.Failure? ==> r.error == NoSuchElement
    ensures r.Success? ==>
      && r.value.beverages == FirstCategoryNamed(s, "Beverages").value.categoryId
      && r.value.condiments == FirstCategoryNamed(s, "Condiments").value.categoryId
      && r.value.seafood == FirstCategoryNamed(s, "Seafood").value.categoryId
      && r.value.dairy == FirstCategoryNamed(s, "Dairy Products").value.categoryId
      && r.value.exotic == FirstSupplierNamed(s, "Exotic Liquids").value.supplierId
      && r.value.newOrleans == FirstSupplierNamed(s, "New Orleans Cajun Delights").value.supplierId
      && r.value.tokyo == FirstSupplierNamed(s, "Tokyo Traders").value.supplierId
      && r.value.cabras == (if v == LiteralKey then 5 else FirstSupplierNamed(s, CabrasName).value.supplierId)
  {
    if !RefsFound(s, v) then Failure(NoSuchElement)
    else
      Success(SeedRefs(
        CategoryKey(s, "Beverages").value, CategoryKey(s, "Condiments").value,
        CategoryKey(s, "Seafood").value, CategoryKey(s, "Dairy Products").value,
        SupplierKey(s, "Exotic Liquids").value, SupplierKey(s, "New Orleans Cajun Delights").value,
        SupplierKey(s, "Tokyo Traders").value,
        if v == LiteralKey then 5 else SupplierKey(s, CabrasName).value))
  }

  /** The product phase: a failed lookup throws before anything is added;
      otherwise the eight products are added and saved, with the next eight
      keys, exactly when the schema's constraints allow it. */
  function SeedProducts(s: Store, now: Instant, v: QuesoSupplier): (r: Result<Store, Fault>)
    ensures LookupRefs(s, v).Failure? ==> r == Failure(NoSuchElement)
    ensures LookupRefs(s, v).Success? ==>
      var added := s.(products := s.products + StoredProducts(SeedProductRows(LookupRefs(s, v).value), s.nextProductId, now),
                      nextProductId := s.nextProductId + 8);
      && (r.Success? <==> Constraints(added))
      && (r.Success? ==> r.value == added)
  {
    var refs :- LookupRefs(s, v);
    ApplyAddedProducts(s, SeedProductRows(refs), now);
    SaveChanges(s, AddedProducts(SeedProductRows(refs)), now)
  }

  /** `InitializeAsync(context, force)` with the Queso supplier obtained as
      `v` says: `force` drops and recreates the database; seeding is skipped
      whenever a category already exists. */
  function InitializeWith(s: Store, force: bool, clock: SeedClock, v: QuesoSupplier): (r: SeedOutcome)
    ensures !force && |s.categories| > 0 ==> r == SeedOutcome(s, None)
    ensures r.fault.None? ==> |r.store.categories| > 0
    ensures var s0 := if force then EmptyStore else s;
      |s0.categories| == 0 && SeedCategories(s0, clock.categoriesAt).Success? ==> |r.store.categories| == 8
  {
    var s0 := if force then EmptyStore else s;
    if |s0.categories| > 0 then SeedOutcome(s0, None)
    else
      match SeedCategories(s0, clock.categoriesAt)
      case Failure(e) => SeedOutcome(s0, Some(e))
      case Success(s1) =>
        match SeedSuppliers(s1, clock.suppliersAt)
        case Failure(e) => SeedOutcome(s1, Some(e))
        case Success(s2) =>
          match SeedProducts(s2, clock.productsAt, v)
          case Failure(e) => SeedOutcome(s2, Some(e))
          case Success(s3) => SeedOutcome(s3, None)
  }

  /** The initialiser as written: the Queso products name supplier 5. */
  function Initialize(s: Store, force: bool, clock: SeedClock): (r: SeedOutcome)
    ensures !force && |s.categories| > 0 ==> r == SeedOutcome(s, None)
    ensures r.fault.None? ==> |r.store.categories| > 0
  {
    InitializeWith(s, force, clock, LiteralKey)
  }

  /** The initialiser with the Queso supplier looked up by name. */
  function InitializeIntended(s: Store, force: bool, clock: SeedClock): (r: SeedOutcome)
    ensures !force && |s.categories| > 0 ==> r == SeedOutcome(s, None)
    ensures r.fault.None? ==> |r.store.categories| > 0
  {
    InitializeWith(s, force, clock, ByName)
  }

  /** Initialising an already initialised store changes nothing, whatever
      the clock says: seeding happens at most once. */
  lemma InitializeIdempotent(s: Store, force: bool, clock: SeedClock, later: SeedClock, v: QuesoSupplier)
    requires InitializeWith(s, force, clock, v).fault.None?
    ensures |InitializeWith(s, force, clock, v).store.categories| > 0
    ensures InitializeWith(InitializeWith(s, force, clock, v).store, false, later, v) == InitializeWith(s, force, clock, v)
  {
  }

  lemma SeedCategoryNamesDistinct()
    ensures forall i, j :: 0 <= i < j < |SeedCategoryRows| ==>
      SeedCategoryRows[i].categoryName != SeedCategoryRows[j].categoryName
  {
  }

  lemma SeedSupplierNamesDistinct()
    ensures forall i, j :: 0 <= i < |SeedSupplierRows| && 0 <= j < |SeedSupplierRows| && i != j ==>
      SeedSupplierRows[i].companyName != SeedSupplierRows[j].companyName
  {
  }

  // ---------------------------------------------------------------------
  // Seeding an empty database. `f` is the next supplier identity value:
  // 1 in a newly created database, larger once supplier rows have been
  // inserted and deleted (deleting rows does not reset an identity).
  // ---------------------------------------------------------------------

  function SeedBase(f: int): Store {
    EmptyStore.(nextSupplierId := f)
  }

  function AfterCategories(clock: SeedClock, f: int): Store {
    SeedBase(f).(categories := StoredCategories(SeedCategoryRows, 1, clock.categoriesAt), nextCategoryId := 9)
  }

  function AfterSuppliers(clock: SeedClock, f: int): Store {
    AfterCategories(clock, f).(suppliers := StoredSuppliers(SeedSupplierRows, f, clock.suppliersAt), nextSupplierId := f + 5)
  }

  /** The keys the product phase finds: categories are numbered from 1,
      suppliers from `f`, in seeding order. */
  function RefsFrom(f: int, v: QuesoSupplier): SeedRefs {
    SeedRefs(1, 2, 8, 4, f, f + 1, f + 3, if v == LiteralKey then 5 else f + 4)
  }

  function SeededFrom(clock: SeedClock, f: int, v: QuesoSupplier): Store {
    AfterSuppliers(clock, f).(products := StoredProducts(SeedProductRows(RefsFrom(f, v)), 1, clock.productsAt),
                              nextProductId := 9)
  }

  /** The store that seeding a newly created database produces. */
  function Seeded(clock: SeedClock): Store {
    SeededFrom(clock, 1, LiteralKey)
  }

  lemma AfterCategoriesConstraints(clock: SeedClock, f: int)
    ensures Constraints(AfterCategories(clock, f))
    ensures Constraints(AfterSuppliers(clock, f))
  {
    SeedCategoryNamesDistinct();
    var s1 := AfterCategories(clock, f);
    assert forall i :: 0 <= i < |s1.categories| ==> s1.categories[i].categoryName == SeedCategoryRows[i].categoryName;
  }

  lemma SeedCategoriesFresh(clock: SeedClock, f: int)
    ensures SeedCategories(SeedBase(f), clock.categoriesAt) == Success(AfterCategories(clock, f))
  {
    ApplyAddedCategories(SeedBase(f), SeedCategoryRows, clock.categoriesAt);
    var s1 := AfterCategories(clock, f);
    assert SeedBase(f).categories + s1.categories == s1.categories;
    AfterCategoriesConstraints(clock, f);
  }

  lemma SeedSuppliersFresh(clock: SeedClock, f: int)
    ensures SeedSuppliers(AfterCategories(clock, f), clock.suppliersAt) == Success(AfterSuppliers(clock, f))
  {
    var s1 := AfterCategories(clock, f);
    ApplyAddedSuppliers(s1, SeedSupplierRows, clock.suppliersAt);
    var s2 := AfterSuppliers(clock, f);
    assert s1.suppliers + s2.suppliers == s2.suppliers;
    AfterCategoriesConstraints(clock, f);
  }

  lemma FreshCategoryLookup(clock: SeedClock, f: int, k: int)
    requires 0 <= k < |SeedCategoryRows|
    ensures FirstCategoryNamed(AfterSuppliers(clock, f), SeedCategoryRows[k].categoryName)
         == Some(AfterSuppliers(clock, f).categories[k])
    ensures CategoryKey(AfterSuppliers(clock, f), SeedCategoryRows[k].categoryName) == Success(k + 1)
  {
    AfterCategoriesConstraints(clock, f);
    FirstCategoryNamedFinds(AfterSuppliers(clock, f), k);
  }

  lemma FreshSupplierLookup(clock: SeedClock, f: int, k: int)
    requires 0 <= k < |SeedSupplierRows|
    ensures FirstSupplierNamed(AfterSuppliers(clock, f), SeedSupplierRows[k].companyName)
         == Some(AfterSuppliers(clock, f).suppliers[k])
    ensures SupplierKey(AfterSuppliers(clock, f), SeedSupplierRows[k].companyName) == Success(f + k)
  {
    var s2 := AfterSuppliers(clock, f);
    SeedSupplierNamesDistinct();
    assert forall i :: 0 <= i < |s2.suppliers| ==> s2.suppliers[i].companyName == SeedSupplierRows[i].companyName;
    FirstSupplierNamedFinds(s2, k);
  }

  lemma FreshCategoryKeys(clock: SeedClock, f: int)
    ensures var s2 := AfterSuppliers(clock, f);
      && CategoryKey(s2, "Beverages") == Success(1)
      && CategoryKey(s2, "Condiments") == Success(2)
      && CategoryKey(s2, "Seafood") == Success(8)
      && CategoryKey(s2, "Dairy Products") == Success(4)
  {
    FreshCategoryLookup(clock, f, 0);
    FreshCategoryLookup(clock, f, 1);
    FreshCategoryLookup(clock, f, 7);
    FreshCategoryLookup(clock, f, 3);
  }

  lemma FreshSupplierKeys(clock: SeedClock, f: int)
    ensures var s2 := AfterSuppliers(clock, f);
      && SupplierKey(s2, "Exotic Liquids") == Success(f)
      && SupplierKey(s2, "New Orleans Cajun Delights") == Success(f + 1)
      && SupplierKey(s2, "Tokyo Traders") == Success(f + 3)
      && SupplierKey(s2, CabrasName) == Success(f + 4)
  {
    FreshSupplierLookup(clock, f, 0);
    FreshSupplierLookup(clock, f, 1);
    FreshSupplierLookup(clock, f, 3);
    FreshSupplierLookup(clock, f, 4);
  }

  /** Once every key resolves, the product phase's lookups yield them. */
  lemma LookupRefsFound(s: Store, v: QuesoSupplier, r: SeedRefs)
    requires CategoryKey(s, "Beverages") == Success(r.beverages)
    requires CategoryKey(s, "Condiments") == Success(r.condiments)
    requires CategoryKey(s, "Seafood") == Success(r.seafood)
    requires CategoryKey(s, "Dairy Products") == Success(r.dairy)
    requires SupplierKey(s, "Exotic Liquids") == Success(r.exotic)
    requires SupplierKey(s, "New Orleans Cajun Delights") == Success(r.newOrleans)
    requires SupplierKey(s, "Tokyo Traders") == Success(r.tokyo)
    requires v == LiteralKey ==> r.cabras == 5
    requires v == ByName ==> SupplierKey(s, CabrasName) == Success(r.cabras)
    ensures LookupRefs(s, v) == Success(r)
  {
  }

  /** On a freshly seeded catalogue the product phase's lookups succeed and
      find the keys `RefsFrom` lists. */
  lemma FreshLookups(clock: SeedClock, f: int, v: QuesoSupplier)
    ensures LookupRefs(AfterSuppliers(clock, f), v) == Success(RefsFrom(f, v))
  {
    FreshCategoryKeys(clock, f);
    FreshSupplierKeys(clock, f);
    LookupRefsFound(AfterSuppliers(clock, f), v, RefsFrom(f, v));
  }

  /** The product phase's save succeeds exactly when supplier 5 is among the
      seeded suppliers, or when the key was looked up by name. */
  lemma SeededFromConstraints(clock: SeedClock, f: int, v: QuesoSupplier)
    ensures Constraints(SeededFrom(clock, f, v)) <==> (v == ByName || 1 <= f <= 5)
  {
    var s := SeededFrom(clock, f, v);
    AfterCategoriesConstraints(clock, f);
    assert UniqueCategoryNames(s);
    if v == ByName || 1 <= f <= 5 {
      forall i | 0 <= i < |s.products|
        ensures HasCategory(s, s.products[i].categoryId.value)
        ensures HasSupplier(s, s.products[i].supplierId.value)
      {
        var c := s.products[i].categoryId.value;
        var x := s.products[i].supplierId.value;
        assert 1 <= c <= 8 && f <= x <= f + 4;
        assert s.categories[c - 1].categoryId == c;
        assert s.suppliers[x - f].supplierId == x;
      }
    } else {
      assert s.products[6].supplierId == Some(5);
      assert FindSupplier(s, 5).None?;
    }
  }

  lemma SaveFreshProducts(clock: SeedClock, f: int, v: QuesoSupplier)
    ensures SaveChanges(AfterSuppliers(clock, f), AddedProducts(SeedProductRows(RefsFrom(f, v))), clock.productsAt)
         == if v == ByName || 1 <= f <= 5 then Success(SeededFrom(clock, f, v)) else Failure(DanglingForeignKey)
  {
    var s2 := AfterSuppliers(clock, f);
    ApplyAddedProducts(s2, SeedProductRows(RefsFrom(f, v)), clock.productsAt);
    var s3 := SeededFrom(clock, f, v);
    assert s2.products + s3.products == s3.products;
    assert s2.(products := s3.products, nextProductId := 9) == s3;
    SeededFromConstraints(clock, f, v);
    AfterCategoriesConstraints(clock, f);
    assert UniqueCategoryNames(s3);
  }

  /** Seeding a database with no rows, whose next supplier key is `f`. */
  lemma SeedEmptyDatabase(clock: SeedClock, f: int, v: QuesoSupplier)
    ensures InitializeWith(SeedBase(f), false, clock, v)
         == if v == ByName || 1 <= f <= 5 then SeedOutcome(SeededFrom(clock, f, v), None)
            else SeedOutcome(AfterSuppliers(clock, f), Some(DanglingForeignKey))
  {
    SeedCategoriesFresh(clock, f);
    SeedSuppliersFresh(clock, f);
    FreshLookups(clock, f, v);
    SaveFreshProducts(clock, f, v);
  }

  /** Seeding a newly created database succeeds and yields `Seeded`; with
      `force` the previous contents are irrelevant. */
  lemma SeedFreshStore(s: Store, clock: SeedClock)
    ensures Initialize(EmptyStore, false, clock) == SeedOutcome(Seeded(clock), None)
    ensures Initialize(s, true, clock) == SeedOutcome(Seeded(clock), None)
  {
    SeedEmptyDatabase(clock, 1, LiteralKey);
    assert SeedBase(1) == EmptyStore;
  }

  /** In a catalogue seeded with supplier keys from `f`, key `f + k`
      belongs to the `k`-th seeded supplier. */
  lemma SeededSupplierByKey(clock: SeedClock, f: int, v: QuesoSupplier, k: int)
    requires 0 <= k < |SeedSupplierRows|
    ensures FindSupplier(SeededFrom(clock, f, v), f + k) == Some(SeededFrom(clock, f, v).suppliers[k])
    ensures SeededFrom(clock, f, v).suppliers[k].companyName == SeedSupplierRows[k].companyName
  {
    var s := SeededFrom(clock, f, v);
    var found := FindSupplier(s, f + k);
    assert s.suppliers[k].supplierId == f + k;
    var j :| 0 <= j < |s.suppliers| && s.suppliers[j] == found.value;
    assert j == k;
  }

  /** The supplier the Queso rows (the last two products) refer to. */
  lemma SeededQuesoSupplier(clock: SeedClock, f: int, v: QuesoSupplier)
    ensures var s := SeededFrom(clock, f, v);
      forall i :: 6 <= i < 8 ==> s.products[i].supplierId == Some(RefsFrom(f, v).cabras)
  {
  }

  /** As written, the Queso products are filed under whichever supplier
      holds key 5: the cooperative only when supplier keys start at 1. */
  lemma LiteralSupplierKeyMisfiles(clock: SeedClock, f: int)
    requires 1 <= f <= 5
    ensures var r := Initialize(SeedBase(f), false, clock);
      && r.fault.None? && |r.store.products| == 8
      && r.store.products[6].supplierId == Some(5)
      && FindSupplier(r.store, 5).Some?
      && FindSupplier(r.store, 5).value.companyName == SeedSupplierRows[5 - f].companyName
      && (FindSupplier(r.store, 5).value.companyName == CabrasName <==> f == 1)
  {
    SeedEmptyDatabase(clock, f, LiteralKey);
    SeededQuesoSupplier(clock, f, LiteralKey);
    SeededSupplierByKey(clock, f, LiteralKey, 5 - f);
    SeedSupplierNamesDistinct();
    assert SeedSupplierRows[4].companyName == CabrasName;
  }


  /** With supplier keys starting at 2 the Queso products go to Tokyo
      Traders. */
  lemma LiteralSupplierKeyExample(clock: SeedClock)
    ensures var r := Initialize(SeedBase(2), false, clock);
      && r.fault.None? && FindSupplier(r.store, 5).Some?
      && FindSupplier(r.store, 5).value.companyName == "Tokyo Traders"
  {
    LiteralSupplierKeyMisfiles(clock, 2);
    assert SeedSupplierRows[3].companyName == "Tokyo Traders";
  }


  /** With supplier keys starting past 5, key 5 names no supplier and the
      product save fails; the categories and suppliers the earlier phases
      saved stay committed, and no product is. */
  lemma LiteralSupplierKeyDangles(clock: SeedClock, f: int)
    requires f > 5
    ensures var r := Initialize(SeedBase(f), false, clock);
      && r.fault == Some(DanglingForeignKey)
      && r.store == AfterSuppliers(clock, f)
      && |r.store.categories| == 8 && |r.store.suppliers| == 5 && |r.store.products| == 0
  {
    SeedEmptyDatabase(clock, f, LiteralKey);
  }

  /** After that failure the catalogue stays without products: the next
      initialisation finds categories and returns without seeding. */
  lemma LiteralSupplierKeyStrands(clock: SeedClock, later: SeedClock, f: int)
    requires f > 5
    ensures var r := Initialize(SeedBase(f), false, clock);
      var again := Initialize(r.store, false, later);
      again.fault.None? && again.store == r.store && |again.store.products| == 0
  {
    LiteralSupplierKeyDangles(clock, f);
  }

  /** Looked up by name, the Queso products always go to the cooperative,
      whatever key it received. */
  lemma LookedUpSupplierKeyFiles(clock: SeedClock, f: int)
    ensures var r := InitializeIntended(SeedBase(f), false, clock);
      && r.fault.None? && |r.store.products| == 8
      && forall i :: 6 <= i < 8 ==>
           && r.store.products[i].supplierId.Some?
           && FindSupplier(r.store, r.store.products[i].supplierId.value).Some?
           && FindSupplier(r.store, r.store.products[i].supplierId.value).value.companyName == CabrasName
  {
    SeedEmptyDatabase(clock, f, ByName);
    assert InitializeIntended(SeedBase(f), false, clock) == SeedOutcome(SeededFrom(clock, f, ByName), None);
    SeededByNameFiles(clock, f);
  }

  /** In the catalogue seeded with the by-name lookup, both Queso products
      name the cooperative's key. */
  lemma SeededByNameFiles(clock: SeedClock, f: int)
    ensures var s := SeededFrom(clock, f, ByName);
      && |s.products| == 8
      && forall i :: 6 <= i < 8 ==>
           && s.products[i].supplierId.Some?
           && FindSupplier(s, s.products[i].supplierId.value).Some?
           && FindSupplier(s, s.products[i].supplierId.value).value.companyName == CabrasName
  {
    SeededQuesoSupplier(clock, f, ByName);
    SeededSupplierByKey(clock, f, ByName, 4);
    assert SeedSupplierRows[4].companyName == CabrasName;
  }

  /** Every seeded row satisfies its entity's validation attributes: the
      data is within the declared column lengths. */
  lemma SeedRowsValid(refs: SeedRefs)
    ensures forall i :: 0 <= i < |SeedCategoryRows| ==> ValidCategory(SeedCategoryRows[i])
    ensures forall i :: 0 <= i < |SeedSupplierRows| ==> ValidSupplier(SeedSupplierRows[i])
    ensures forall i :: 0 <= i < |SeedProductRows(refs)| ==> ValidProduct(SeedProductRows(refs)[i])
  {
    forall i | 0 <= i < |SeedCategoryRows| ensures ValidCategory(SeedCategoryRows[i]) {
      assert !Text.IsWhiteSpace(SeedCategoryRows[i].categoryName[0]);
    }
    forall i | 0 <= i < |SeedSupplierRows| ensures ValidSupplier(SeedSupplierRows[i]) {
      assert !Text.IsWhiteSpace(SeedSupplierRows[i].companyName[0]);
    }
    forall i | 0 <= i < |SeedProductRows(refs)| ensures ValidProduct(SeedProductRows(refs)[i]) {
      assert !Text.IsWhiteSpace(SeedProductRows(refs)[i].productName[0]);
    }
  }

  lemma SeededCategoryById(clock: SeedClock, k: int)
    requires 0 <= k < |SeedCategoryRows|
    ensures FindCategory(Seeded(clock), k + 1) == Some(Seeded(clock).categories[k])
  {
    var s := Seeded(clock);
    var found := FindCategory(s, k + 1);
    assert s.categories[k].categoryId == k + 1;
    var j :| 0 <= j < |s.categories| && s.categories[j] == found.value;
    assert j == k;
  }

  lemma SeededSupplierById(clock: SeedClock, k: int)
    requires 0 <= k < |SeedSupplierRows|
    ensures FindSupplier(Seeded(clock), k + 1) == Some(Seeded(clock).suppliers[k])
  {
    var s := Seeded(clock);
    var found := FindSupplier(s, k + 1);
    assert s.suppliers[k].supplierId == k + 1;
    var j :| 0 <= j < |s.suppliers| && s.suppliers[j] == found.value;
    assert j == k;
  }

  /** Each seeded product is filed under the category its row names. */
  lemma SeededProductCategory(clock: SeedClock, i: int)
    requires 0 <= i < |SeedProductCategoryNames|
    ensures var s := Seeded(clock);
      && s.products[i].categoryId.Some?
      && FindCategory(s, s.products[i].categoryId.value).Some?
      && FindCategory(s, s.products[i].categoryId.value).value.categoryName == SeedProductCategoryNames[i]
  {
    var s := Seeded(clock);
    var c := s.products[i].categoryId.value;
    assert c == [1, 1, 2, 2, 2, 8, 4, 4][i];
    SeededCategoryById(clock, c - 1);
  }

  /** The shape of the seeded catalogue: 8 categories, 5 suppliers and 8
      products, each product filed under the category it names. */
  lemma SeededShape(clock: SeedClock)
    ensures var s := Seeded(clock);
      && |s.categories| == 8 && |s.suppliers| == 5 && |s.products| == 8
      && (forall i :: 0 <= i < |s.products| ==>
            && s.products[i].categoryId.Some?
            && FindCategory(s, s.products[i].categoryId.value).Some?
            && FindCategory(s, s.products[i].categoryId.value).value.categoryName == SeedProductCategoryNames[i])
  {
    forall i | 0 <= i < |Seeded(clock).products|
      ensures var s := Seeded(clock);
        && s.products[i].categoryId.Some?
        && FindCategory(s, s.products[i].categoryId.value).Some?
        && FindCategory(s, s.products[i].categoryId.value).value.categoryName == SeedProductCategoryNames[i]
    {
      SeededProductCategory(clock, i);
    }
  }

  lemma SeededProductFlags(clock: SeedClock, i: int)
    requires 0 <= i < |SeedProductRows(RefsFrom(1, LiteralKey))|
    ensures var p := Seeded(clock).products[i];
      && (p.discontinued <==> p.productName == "Chef Anton's Gumbo Mix")
      && (p.supplierId == Some(5) <==> Text.StartsWith(p.productName, "Queso"))
  {
    var p := Seeded(clock).products[i];
    var row := SeedProductRows(RefsFrom(1, LiteralKey))[i];
    assert p.productName == row.productName && p.discontinued == row.discontinued && p.supplierId == row.supplierId;
    if i < 6 {
      assert p.productName[0] != 'Q';
      assert p.supplierId != Some(5);
    }
    if i != 4 {
      assert p.productName != "Chef Anton's Gumbo Mix";
    }
  }

  /** Exactly one seeded product is discontinued, and only the two Queso
      products are supplied by the literal key 5, which in a fresh database
      is the Spanish cheese cooperative. */
  lemma SeededFlags(clock: SeedClock)
    ensures var s := Seeded(clock);
      && (forall i :: 0 <= i < |s.products| ==>
            (s.products[i].discontinued <==> s.products[i].productName == "Chef Anton's Gumbo Mix"))
      && (forall i :: 0 <= i < |s.products| ==>
            (s.products[i].supplierId == Some(5) <==> Text.StartsWith(s.products[i].productName, "Queso")))
      && FindSupplier(s, 5).Some?
      && FindSupplier(s, 5).value.companyName == "Cooperativa de Quesos 'Las Cabras'"
  {
    var s := Seeded(clock);
    SeededSupplierById(clock, 4);
    forall i | 0 <= i < |s.products|
      ensures s.products[i].discontinued <==> s.products[i].productName == "Chef Anton's Gumbo Mix"
      ensures s.products[i].supplierId == Some(5) <==> Text.StartsWith(s.products[i].productName, "Queso")
    {
      SeededProductFlags(clock, i);
    }
  }
}
