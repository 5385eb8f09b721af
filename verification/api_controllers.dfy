/** What a Web API action answers: a status with its body, or the fault a
    failed save throws, which the framework turns into a server error. */
module ActionResults {
  import opened Optional
  import opened Store

  datatype ApiResult<T> =
    | Ok(value: T)              // 200 with a body
    | Created(value: T)         // 201 with the created entity
    | NoContent                 // 204
    | NotFound                  // 404
    | ServerError(fault: Fault) // the exception `SaveChangesAsync` threw

  /** The answer to a write together with the store it leaves behind. */
  datatype Applied<T> = Applied(result: ApiResult<T>, store: Store)

  /** The answer after `SaveChangesAsync`: a failed save commits nothing. */
  function AfterSave<T>(s: Store, saved: Result<Store, Fault>, onSuccess: ApiResult<T>): (r: Applied<T>)
    ensures saved.Success? ==> r.result == onSuccess && r.store == saved.value
    ensures saved.Failure? ==> r.result == ServerError(saved.error) && r.store == s
  {
    match saved
    case Success(s1) => Applied(onSuccess, s1)
    case Failure(f) => Applied(ServerError(f), s)
  }
}

/** `api/products`: the paged listing, lookup, search, the low-stock list,
    and create, update and delete. */
module ApiProducts {
  import opened Optional
  import opened Numeric
  import opened Entities
  import opened Store
  import opened Context
  import opened Loading
  import opened ActionResults
  import ProductService
  import MemoryCache
  import Text
  import Seqs

  /** `ProductDto`; the price in minor units. */
  datatype ProductDto = ProductDto(
    id: int,
    name: string,
    price: Option<int>,
    stock: Option<int16>,
    discontinued: bool,
    category: Option<string>)

  /** `ProductCreateDto`. */
  datatype ProductCreateDto = ProductCreateDto(
    name: string,
    categoryId: Option<int>,
    supplierId: Option<int>,
    unitPrice: Option<int>,
    unitsInStock: Option<int16>,
    reorderLevel: Option<int16>)

  /** `ProductUpdateDto`. */
  datatype ProductUpdateDto = ProductUpdateDto(
    name: string,
    unitPrice: Option<int>,
    unitsInStock: Option<int16>,
    reorderLevel: Option<int16>,
    discontinued: bool)

  /** The projection to a DTO; the category name when one is loaded. */
  function Dto(p: Product, category: Option<Category>): ProductDto {
    ProductDto(p.productId, p.productName, p.unitPrice, p.unitsInStock, p.discontinued,
      if category.Some? then Some(category.value.categoryName) else None)
  }

  function DtoOf(lp: LoadedProduct): ProductDto { Dto(lp.product, lp.category) }

  /** The projection of the search and low-stock queries: no category. */
  function BareDto(p: Product): ProductDto { Dto(p, None) }

  function BareOf(lp: LoadedProduct): ProductDto { BareDto(lp.product) }

  /** The cap `Math.Min(pageSize, 50)` puts on a page. */
  const MaxPageSize: int32 := 50

  // ---------------------------------------------------------------------
  // GetAll
  // ---------------------------------------------------------------------

  /** The `Where` clauses of the listing. */
  predicate Kept(categoryId: Option<int>, includeDiscontinued: bool, p: Product) {
    (includeDiscontinued || !p.discontinued) && (categoryId.None? || p.categoryId == categoryId)
  }

  /** Every kept product with its category, in name order, before paging. */
  function Listed(s: Store, categoryId: Option<int>, includeDiscontinued: bool): (r: seq<LoadedProduct>)
    ensures Seqs.SortedBy(r, ByProductName())
    ensures multiset(r) == multiset(Listing(s, (p: Product) => Kept(categoryId, includeDiscontinued, p), true, false))
    ensures |r| <= |s.products|
  {
    var all := Listing(s, (p: Product) => Kept(categoryId, includeDiscontinued, p), true, false);
    ByStringTotalPreorder(ProductNameOf);
    Seqs.SortBySorted(all, ByProductName());
    Seqs.SortBy(all, ByProductName())
  }

  /** The rows one call returns, as written: it skips `(page - 1) * pageSize`
      rows in unchecked `int` arithmetic but takes at most 50. */
  function PageAsWritten<T>(rows: seq<T>, page: int32, pageSize: int32): (r: seq<T>)
    ensures |r| <= MaxPageSize as int
    ensures exists a :: Seqs.WindowAt(r, rows, a)
  {
    var offset, size := Wrap32(Wrap32(page - 1) * pageSize), Min(pageSize, MaxPageSize);
    Seqs.PageWindow(rows, offset, size);
    var a := if offset <= 0 then 0 else if offset >= |rows| then |rows| else offset;
    assert Seqs.WindowAt(Seqs.Page(rows, offset, size), rows, a);
    Seqs.Page(rows, offset, size)
  }

  /** `GetAll(categoryId, includeDiscontinued, page, pageSize)`. */
  function GetAll(s: Store, categoryId: Option<int>, includeDiscontinued: bool, page: int32, pageSize: int32)
    : (r: seq<ProductDto>)
    ensures |r| <= MaxPageSize as int
    ensures forall i, j :: 0 <= i < j < |r| ==> Text.LexLe(r[i].name, r[j].name)
  {
    var rows := Listed(s, categoryId, includeDiscontinued);
    var offset, size := Wrap32(Wrap32(page - 1) * pageSize), Min(pageSize, MaxPageSize);
    Seqs.PageOfSorted(rows, ByProductName(), offset, size);
    DtoNamesAscend(PageAsWritten(rows, page, pageSize));
    Seqs.Map(PageAsWritten(rows, page, pageSize), DtoOf)
  }

  /** Projecting a name-ordered listing keeps the names in order. */
  lemma DtoNamesAscend(rows: seq<LoadedProduct>)
    requires Seqs.SortedBy(rows, ByProductName())
    ensures var r := Seqs.Map(rows, DtoOf);
      forall i, j :: 0 <= i < j < |r| ==> Text.LexLe(r[i].name, r[j].name)
  {
    forall i, j | 0 <= i < j < |rows| ensures Text.LexLe(rows[i].product.productName, rows[j].product.productName) {
      assert ByProductName()(rows[i], rows[j]);
      assert Text.LexLe(ProductNameOf(rows[i]), ProductNameOf(rows[j]));
    }
  }

  /** Every row `GetAll` returns is the DTO of a stored product that passes
      the filters, read with its category. */
  lemma GetAllMembers(s: Store, categoryId: Option<int>, includeDiscontinued: bool, page: int32, pageSize: int32, i: int)
    requires 0 <= i < |GetAll(s, categoryId, includeDiscontinued, page, pageSize)|
    ensures exists k ::
      (0 <= k < |s.products| && Kept(categoryId, includeDiscontinued, s.products[k])
       && GetAll(s, categoryId, includeDiscontinued, page, pageSize)[i] == DtoOf(Load(s, s.products[k], true, false)))
  {
    var rows := Listed(s, categoryId, includeDiscontinued);
    var offset, size := Wrap32(Wrap32(page - 1) * pageSize), Min(pageSize, MaxPageSize);
    var shown := Seqs.Page(rows, offset, size);
    Seqs.PageOfSorted(rows, ByProductName(), offset, size);
    assert shown[i] in rows;
    assert shown[i] in multiset(rows);
    ListingMembers(s, (p: Product) => Kept(categoryId, includeDiscontinued, p), true, false, shown[i]);
  }

  /** A listed DTO names its product's category exactly when the product has
      one (the foreign key makes the `Include` find it). */
  lemma DtoCategoryNamesCategory(s: Store, k: int)
    requires ForeignKeysResolve(s) && 0 <= k < |s.products|
    ensures var d := DtoOf(Load(s, s.products[k], true, false));
      && (d.category.Some? <==> s.products[k].categoryId.Some?)
      && (d.category.Some? ==>
            exists c :: c in s.categories && c.categoryId == s.products[k].categoryId.value
                        && d.category.value == c.categoryName)
  {
    LoadUnderForeignKeys(s, k, true, false);
  }

  /** The window of listing positions a call with no overflow returns: it
      starts at `(page - 1) * pageSize`, where a negative skip skips nothing,
      but holds at most 50 rows. */
  lemma PageAsWrittenWindow<T>(rows: seq<T>, page: int32, pageSize: int32, lo: int)
    requires Int32Min <= page - 1 && lo == (page - 1) * pageSize && Int32Min <= lo <= Int32Max
    ensures var a := if lo <= 0 then 0 else if lo >= |rows| then |rows| else lo;
      var b := if pageSize <= 0 then a else if a + Min(pageSize, MaxPageSize) as int >= |rows| then |rows| else a + Min(pageSize, MaxPageSize) as int;
      PageAsWritten(rows, page, pageSize) == rows[a..b]
    ensures var start := if lo <= 0 then 0 else lo;
      forall x :: x in PageAsWritten(rows, page, pageSize) ==>
        exists m :: start <= m < start + MaxPageSize as int && m < |rows| && rows[m] == x
  {
    var size := Min(pageSize, MaxPageSize);
    assert Wrap32(page - 1) == page - 1;
    assert Wrap32(Wrap32(page - 1) * pageSize) == lo;
    Seqs.PageWindow(rows, lo, size);
    var start := if lo <= 0 then 0 else lo;
    var a := if lo <= 0 then 0 else if lo >= |rows| then |rows| else lo;
    var b := if size <= 0 then a else if a + size >= |rows| then |rows| else a + size;
    assert PageAsWritten(rows, page, pageSize) == rows[a..b];
    forall x | x in rows[a..b]
      ensures exists m :: start <= m < start + MaxPageSize as int && m < |rows| && rows[m] == x
    {
      var t :| 0 <= t < b - a && rows[a..b][t] == x;
      assert rows[a + t] == x;
    }
  }

  /** Positions inside one 100-row block that lie in its first half. */
  lemma FirstHalfOfBlock(q: int, m: int)
    requires 0 <= q && 100 * q <= m < 100 * q + 50
    ensures m % 100 < 50
  {
    assert m == 100 * q + (m - 100 * q);
  }

  /** With a page size over 50 the listing loses rows: for page size 100,
      a row whose position modulo 100 is 50 or more is on no page whose
      offset does not overflow (pages -21474835 to 21474836), because each
      page starts 100 rows after the last but holds only 50, and a page
      from 0 down shows the first 50. */
  lemma ApiPagingSkipsRows<T>(rows: seq<T>, page: int32, k: int)
    requires forall i, j :: 0 <= i < j < |rows| ==> rows[i] != rows[j]
    requires -21474835 <= page <= 21474836
    requires 0 <= k < |rows| && 50 <= k % 100
    ensures rows[k] !in PageAsWritten(rows, page, 100)
  {
    var lo := (page - 1) * 100;
    var q := if page >= 1 then page - 1 else 0;
    var start := 100 * q;
    assert start == if lo <= 0 then 0 else lo;
    PageAsWrittenWindow(rows, page, 100, lo);
    if rows[k] in PageAsWritten(rows, page, 100) {
      var m :| start <= m < start + 50 && m < |rows| && rows[m] == rows[k];
      FirstHalfOfBlock(q, m);
      assert false;
    }
  }

  /** A listing of 100 rows asked for 100 per page: page 1 shows the first
      50, and page 2 shows nothing. */
  lemma ApiPagingExample<T>(rows: seq<T>)
    requires |rows| == 100
    ensures PageAsWritten(rows, 1, 100) == rows[..50]
    ensures PageAsWritten(rows, 2, 100) == []
  {
  }

  /** The evidently intended paging: skip and take with the same clamped
      page size. */
  function PageIntended<T>(rows: seq<T>, page: int32, pageSize: int32): seq<T> {
    var ps := Min(pageSize, MaxPageSize);
    Seqs.Page(rows, Wrap32(Wrap32(page - 1) * ps), ps)
  }

  /** `GetAll` with the intended paging. */
  function GetAllIntended(s: Store, categoryId: Option<int>, includeDiscontinued: bool, page: int32, pageSize: int32)
    : (r: seq<ProductDto>)
    ensures |r| <= MaxPageSize as int
    ensures forall i, j :: 0 <= i < j < |r| ==> Text.LexLe(r[i].name, r[j].name)
  {
    var rows := Listed(s, categoryId, includeDiscontinued);
    var size := Min(pageSize, MaxPageSize);
    var offset := Wrap32(Wrap32(page - 1) * size);
    Seqs.PageOfSorted(rows, ByProductName(), offset, size);
    DtoNamesAscend(PageIntended(rows, page, pageSize));
    Seqs.Map(PageIntended(rows, page, pageSize), DtoOf)
  }

  /** With the intended paging every row is on some page from 1 on. */
  lemma IntendedPagingCoversAll<T>(rows: seq<T>, pageSize: int32, k: int)
    requires 1 <= pageSize
    requires 0 <= k < |rows| && k < Int32Max
    ensures exists page: int32 :: 1 <= page && rows[k] in PageIntended(rows, page, pageSize)
  {
    var ps := Min(pageSize, MaxPageSize);
    ProductService.PageOfIndex(k, ps);
    var q := k / ps;
    var lo := q * ps;
    assert 0 <= q <= k;
    var page: int32 := q + 1;
    assert Wrap32(page - 1) == q;
    assert Wrap32(q * ps) == lo;
    Seqs.InPage(rows, lo, ps, k);
    assert rows[k] in PageIntended(rows, page, pageSize);
  }

  /** The intended listing, page by page, covers every listed product. */
  lemma IntendedListingComplete(s: Store, categoryId: Option<int>, includeDiscontinued: bool, pageSize: int32, k: int)
    requires 1 <= pageSize
    requires 0 <= k < |s.products| < Int32Max
    requires Kept(categoryId, includeDiscontinued, s.products[k])
    ensures exists page: int32 ::
      (1 <= page && DtoOf(Load(s, s.products[k], true, false)) in GetAllIntended(s, categoryId, includeDiscontinued, page, pageSize))
  {
    var rows := Listed(s, categoryId, includeDiscontinued);
    var j := ListedPosition(s, categoryId, includeDiscontinued, k);
    IntendedPagingCoversAll(rows, pageSize, j);
    var page: int32 :| 1 <= page && rows[j] in PageIntended(rows, page, pageSize);
    IntendedPageShows(s, categoryId, includeDiscontinued, page, pageSize, rows[j]);
  }

  /** A kept product has a position in the listing. */
  lemma ListedPosition(s: Store, categoryId: Option<int>, includeDiscontinued: bool, k: int) returns (j: int)
    requires 0 <= k < |s.products| && Kept(categoryId, includeDiscontinued, s.products[k])
    ensures var rows := Listed(s, categoryId, includeDiscontinued);
      0 <= j < |rows| && rows[j] == Load(s, s.products[k], true, false)
  {
    var rows := Listed(s, categoryId, includeDiscontinued);
    var x := Load(s, s.products[k], true, false);
    ListingMembers(s, (p: Product) => Kept(categoryId, includeDiscontinued, p), true, false, x);
    assert x in multiset(rows);
    j :| 0 <= j < |rows| && rows[j] == x;
  }

  /** A listing row on an intended page shows up, as a DTO, in that call. */
  lemma IntendedPageShows(s: Store, categoryId: Option<int>, includeDiscontinued: bool, page: int32, pageSize: int32, x: LoadedProduct)
    requires x in PageIntended(Listed(s, categoryId, includeDiscontinued), page, pageSize)
    ensures DtoOf(x) in GetAllIntended(s, categoryId, includeDiscontinued, page, pageSize)
  {
    var pg := PageIntended(Listed(s, categoryId, includeDiscontinued), page, pageSize);
    var t :| 0 <= t < |pg| && pg[t] == x;
    var shown := GetAllIntended(s, categoryId, includeDiscontinued, page, pageSize);
    assert shown == Seqs.Map(pg, DtoOf);
    assert shown[t] == DtoOf(x);
  }

  // ---------------------------------------------------------------------
  // GetById, Search, GetLowStock
  // ---------------------------------------------------------------------

  /** `GetById(id)`: the product with its category and supplier, or 404. */
  function GetById(s: Store, id: int): (r: ApiResult<LoadedProduct>)
    ensures r.NotFound? || r.Ok?
    ensures r.NotFound? <==> !HasProduct(s, id)
    ensures r.Ok? ==>
      && r.value.product in s.products && r.value.product.productId == id
      && r.value == Load(s, r.value.product, true, true)
  {
    match FindProduct(s, id)
    case None => NotFound
    case Some(p) => Ok(Load(s, p, true, true))
  }

  /** The endpoint answers what the MVC service loads on a cache miss. */
  lemma GetByIdAgreesWithService(s: Store, cache: MemoryCache.Cache, id: int)
    requires MemoryCache.TryGetProduct(cache, MemoryCache.ProductKey(id)).None?
    ensures var r := GetById(s, id);
      ProductService.GetById(s, cache, id).value == (if r.Ok? then Some(r.value) else None)
  {
  }

  /** `Search(q)`: at most 20 active products whose name contains `q`, in the
      order the table yields them, without categories. */
  function Search(s: Store, q: Option<string>): (r: seq<ProductDto>)
    ensures Text.IsNullOrWhiteSpace(q) ==> r == []
    ensures |r| <= ProductService.SearchLimit
    ensures forall i :: 0 <= i < |r| ==>
      && q.Some? && Text.Contains(r[i].name, q.value) && !r[i].discontinued && r[i].category.None?
      && exists k :: 0 <= k < |s.products| && r[i] == BareDto(s.products[k])
  {
    if Text.IsNullOrWhiteSpace(q) then []
    else
      var hits := Seqs.Filter(s.products, (p: Product) => ProductService.SearchHit(q.value, p));
      var r := Seqs.Map(Seqs.Take(hits, ProductService.SearchLimit), BareDto);
      forall i | 0 <= i < |r| ensures exists k :: 0 <= k < |s.products| && r[i] == BareDto(s.products[k]) {
        assert hits[i] in s.products;
      }
      r
  }

  /** When there are at most 20 hits, the endpoint returns the same products
      as the MVC search, in table order instead of name order. */
  lemma SearchAgreesWithService(s: Store, term: string)
    requires !Text.IsBlank(term)
    requires |ProductService.SearchHits(s, term)| <= ProductService.SearchLimit
    ensures multiset(Search(s, Some(term)))
         == multiset(Seqs.Map(ProductService.Search(s, Some(term)), BareOf))
  {
    var hit := (p: Product) => ProductService.SearchHit(term, p);
    var filtered := Seqs.Filter(s.products, hit);
    var listing := Listing(s, hit, true, false);
    var bare := BareOf;
    var sorted := ProductService.SearchHits(s, term);
    assert sorted == Seqs.SortBy(listing, ByProductName());
    assert ProductService.Search(s, Some(term)) == sorted;
    assert Search(s, Some(term)) == Seqs.Map(filtered, BareDto);
    assert Seqs.Map(listing, bare) == Seqs.Map(filtered, BareDto);
    Seqs.MapPermutation(sorted, listing, bare);
  }

  function StockOf(p: Product): Option<int> {
    if p.unitsInStock.Some? then Some(p.unitsInStock.value as int) else None
  }

  function DtoStockOf(d: ProductDto): Option<int> {
    if d.stock.Some? then Some(d.stock.value as int) else None
  }

  /** `GetLowStock()`: active products at or below their reorder level,
      lowest stock first, without categories. */
  function GetLowStock(s: Store): (r: seq<ProductDto>)
    ensures Seqs.SortedBy(r, ByNullable(DtoStockOf))
    ensures multiset(r) == multiset(Seqs.Map(Seqs.Filter(s.products, NeedsReorder), BareDto))
  {
    var low := Seqs.Filter(s.products, ProductService.ReorderWhere);
    Seqs.FilterCongruent(s.products, ProductService.ReorderWhere, NeedsReorder);
    var le := ByNullable(StockOf);
    var leB := ByNullable(DtoStockOf);
    forall a, b ensures le(a, b) == leB(BareDto(a), BareDto(b)) {
      assert StockOf(a) == DtoStockOf(BareDto(a)) && StockOf(b) == DtoStockOf(BareDto(b));
    }
    Seqs.SortByMap(low, BareDto, le, leB);
    ByNullableTotalPreorder(DtoStockOf);
    Seqs.SortBySorted(Seqs.Map(low, BareDto), leB);
    Seqs.MapPermutation(Seqs.SortBy(low, le), low, BareDto);
    Seqs.Map(Seqs.SortBy(low, le), BareDto)
  }

  /** The low-stock list is the MVC reorder list, projected to DTOs, element
      for element. */
  lemma GetLowStockIsReorderList(s: Store)
    ensures GetLowStock(s) == Seqs.Map(ProductService.GetNeedingReorder(s), BareOf)
  {
    var low := Seqs.Filter(s.products, ProductService.ReorderWhere);
    var load := Loader(s, true, true);
    var bare := BareOf;
    var le := ByNullable(StockOf);
    forall a, b ensures le(a, b) == ByUnitsInStock()(load(a), load(b)) {
      assert StockOf(a) == UnitsInStockOf(load(a)) && StockOf(b) == UnitsInStockOf(load(b));
    }
    Seqs.SortByMap(low, load, le, ByUnitsInStock());
    var sorted := Seqs.SortBy(low, le);
    assert ProductService.GetNeedingReorder(s) == Seqs.SortBy(Seqs.Map(low, load), ByUnitsInStock());
    assert Seqs.Map(Seqs.Map(sorted, load), bare) == Seqs.Map(sorted, BareDto);
  }

  /** Every low-stock row is a stored product that needs reordering. */
  lemma GetLowStockMembers(s: Store, i: int)
    requires 0 <= i < |GetLowStock(s)|
    ensures exists k :: 0 <= k < |s.products| && NeedsReorder(s.products[k]) && GetLowStock(s)[i] == BareDto(s.products[k])
  {
    var g := ProductService.GetNeedingReorder(s);
    GetLowStockIsReorderList(s);
    assert GetLowStock(s)[i] == BareDto(g[i].product);
    assert g[i].product in s.products;
  }

  /** Stock levels that are all present and ascend. */
  predicate StockAscends(r: seq<ProductDto>) {
    forall i, j :: 0 <= i < j < |r| ==> r[i].stock.Some? && r[j].stock.Some? && r[i].stock.value <= r[j].stock.value
  }

  /** The stock levels of the low-stock rows ascend, and none is missing. */
  lemma GetLowStockAscending(s: Store)
    ensures StockAscends(GetLowStock(s))
  {
    var r := GetLowStock(s);
    forall i | 0 <= i < |r| ensures r[i].stock.Some? {
      GetLowStockMembers(s, i);
    }
    DtoStockAscending(r);
  }

  lemma DtoStockAscending(r: seq<ProductDto>)
    requires Seqs.SortedBy(r, ByNullable(DtoStockOf))
    requires forall i :: 0 <= i < |r| ==> r[i].stock.Some?
    ensures StockAscends(r)
  {
    forall i, j | 0 <= i < j < |r| ensures r[i].stock.Some? && r[j].stock.Some? && r[i].stock.value <= r[j].stock.value {
      assert ByNullable(DtoStockOf)(r[i], r[j]);
      assert DtoStockOf(r[i]).Some? && DtoStockOf(r[j]).Some?;
      assert DtoStockOf(r[i]).value <= DtoStockOf(r[j]).value;
    }
  }

  // ---------------------------------------------------------------------
  // Create, Update, Delete
  // ---------------------------------------------------------------------

  /** The product `Create` builds: the six fields copied, the rest default. */
  function FromCreateDto(dto: ProductCreateDto): Product {
    NewProduct.(productName := dto.name, categoryId := dto.categoryId, supplierId := dto.supplierId,
                unitPrice := dto.unitPrice, unitsInStock := dto.unitsInStock, reorderLevel := dto.reorderLevel)
  }

  /** `Create(dto)`: adds the product and answers 201 with it as stored. */
  function Create(s: Store, dto: ProductCreateDto, now: Instant): (r: Applied<Product>)
    ensures r.result.Created? || r.result.ServerError?
    ensures r.result.Created? ==>
      && r.result.value.productId == s.nextProductId
      && r.result.value.productName == dto.name
      && r.result.value.categoryId == dto.categoryId && r.result.value.supplierId == dto.supplierId
      && r.result.value.unitPrice == dto.unitPrice && r.result.value.unitsInStock == dto.unitsInStock
      && r.result.value.reorderLevel == dto.reorderLevel
      && r.result.value.quantityPerUnit.None? && r.result.value.unitsOnOrder.None?
      && !r.result.value.discontinued
      && r.result.value.stamps == Stamps(now, None)
      && r.store.products == s.products + [r.result.value]
      && r.store.categories == s.categories && r.store.suppliers == s.suppliers
    ensures r.result.ServerError? ==> r.store == s
  {
    var product := FromCreateDto(dto);
    SaveAddedProduct(s, product, now);
    var stored := product.(productId := s.nextProductId, stamps := product.stamps.(createdAt := now));
    AfterSave(s, SaveChanges(s, [Entry(ProductRow(product), Added)], now), Created(stored))
  }

  /** On a consistent store, creating succeeds exactly when the given
      category and supplier exist; otherwise the foreign key rejects it. */
  lemma CreateSucceedsIff(s: Store, dto: ProductCreateDto, now: Instant)
    requires Constraints(s)
    ensures var r := Create(s, dto, now);
      && (r.result.Created? <==>
            && (dto.categoryId.Some? ==> HasCategory(s, dto.categoryId.value))
            && (dto.supplierId.Some? ==> HasSupplier(s, dto.supplierId.value)))
      && (r.result.ServerError? ==> r.result.fault == DanglingForeignKey)
  {
    var product := FromCreateDto(dto);
    var stored := product.(productId := s.nextProductId, stamps := product.stamps.(createdAt := now));
    InsertProductConstraints(s, stored);
    SaveAddedProduct(s, product, now);
    SaveOne(s, Entry(ProductRow(product), Added), now);
    assert UniqueCategoryNames(InsertProduct(s, stored));
  }

  /** The tracked product after `Update` assigns the five fields. */
  function Edit(p: Product, dto: ProductUpdateDto): Product {
    p.(productName := dto.name, unitPrice := dto.unitPrice, unitsInStock := dto.unitsInStock,
       reorderLevel := dto.reorderLevel, discontinued := dto.discontinued)
  }

  /** `Update(id, dto)`: 404 when there is no such product; otherwise the
      five fields are assigned and saved, and the answer is 204. */
  function Update(s: Store, id: int, dto: ProductUpdateDto, now: Instant): (r: Applied<()>)
    ensures r.result.NotFound? || r.result.NoContent? || r.result.ServerError?
    ensures r.result.NotFound? <==> !HasProduct(s, id)
    ensures !r.result.NoContent? ==> r.store == s
    ensures r.result.NoContent? ==>
      && r.store.categories == s.categories && r.store.suppliers == s.suppliers
      && |r.store.products| == |s.products|
  {
    match FindProduct(s, id)
    case None => Applied(NotFound, s)
    case Some(item) =>
      var edited := Edit(item, dto);
      var saved := SaveChanges(s, [Entry(ProductRow(edited), TrackedState(item, edited))], now);
      SaveOne(s, Entry(ProductRow(edited), TrackedState(item, edited)), now);
      AfterSave(s, saved, NoContent)
  }

  /** On a consistent store an update of an existing product always
      succeeds: it touches no key the constraints look at. */
  lemma UpdateSucceeds(s: Store, id: int, dto: ProductUpdateDto, now: Instant)
    requires Constraints(s) && UniqueProductIds(s) && HasProduct(s, id)
    ensures Update(s, id, dto, now).result.NoContent?
  {
    var item := FindProduct(s, id).value;
    var edited := Edit(item, dto);
    var e := Entry(ProductRow(edited), TrackedState(item, edited));
    SaveOne(s, e, now);
    if edited == item {
      SaveUnchanged(s, [e], now);
    } else {
      var stamped := edited.(stamps := edited.stamps.(updatedAt := Some(now)));
      assert StampEntry(e, now) == Entry(ProductRow(stamped), Modified);
      forall i | 0 <= i < |s.products| && s.products[i].productId == stamped.productId
        ensures s.products[i].categoryId == stamped.categoryId && s.products[i].supplierId == stamped.supplierId
      {
        FindProductAt(s, i);
      }
      UpdateProductConstraints(s, stamped);
    }
  }

  /** After a successful update, the product with that key carries the five
      new values (and, if anything changed, UpdatedAt = now); every other
      field and every other product is as before. */
  lemma UpdateChangesOnlyEditedFields(s: Store, id: int, dto: ProductUpdateDto, now: Instant, i: int)
    requires UniqueProductIds(s)
    requires Update(s, id, dto, now).result.NoContent?
    requires 0 <= i < |s.products|
    ensures var after := Update(s, id, dto, now).store.products[i];
      var before := s.products[i];
      if before.productId == id then
        && after.productName == dto.name && after.unitPrice == dto.unitPrice
        && after.unitsInStock == dto.unitsInStock && after.reorderLevel == dto.reorderLevel
        && after.discontinued == dto.discontinued
        && after.productId == id && after.categoryId == before.categoryId && after.supplierId == before.supplierId
        && after.quantityPerUnit == before.quantityPerUnit && after.unitsOnOrder == before.unitsOnOrder
        && after.stamps.createdAt == before.stamps.createdAt
        && (after.stamps.updatedAt == before.stamps.updatedAt || after.stamps.updatedAt == Some(now))
      else after == before
  {
    var item := FindProduct(s, id).value;
    var edited := Edit(item, dto);
    var e := Entry(ProductRow(edited), TrackedState(item, edited));
    SaveOne(s, e, now);
    var k :| 0 <= k < |s.products| && s.products[k] == item;
    FindProductAt(s, k);
    if s.products[i].productId == id {
      assert i == k;
    }
  }

  /** `Delete(id)`: 404 when there is no such product; otherwise it is removed
      and the answer is 204. */
  function Delete(s: Store, id: int, now: Instant): (r: Applied<()>)
    ensures r.result.NotFound? || r.result.NoContent? || r.result.ServerError?
    ensures r.result.NotFound? <==> !HasProduct(s, id)
    ensures !r.result.NoContent? ==> r.store == s
    ensures r.result.NoContent? ==>
      && (forall p :: p in s.products ==> (p in r.store.products <==> p.productId != id))
      && (forall i :: 0 <= i < |r.store.products| ==> r.store.products[i] in s.products)
      && r.store.categories == s.categories && r.store.suppliers == s.suppliers
  {
    match FindProduct(s, id)
    case None => Applied(NotFound, s)
    case Some(item) =>
      var e := Entry(ProductRow(item), Deleted);
      SaveOne(s, e, now);
      AfterSave(s, SaveChanges(s, [e], now), NoContent)
  }

  /** On a consistent store, deleting answers 204 exactly when the product
      exists. */
  lemma DeleteSucceedsIff(s: Store, id: int, now: Instant)
    requires Constraints(s)
    ensures Delete(s, id, now).result.NoContent? <==> HasProduct(s, id)
  {
    if HasProduct(s, id) {
      var item := FindProduct(s, id).value;
      SaveOne(s, Entry(ProductRow(item), Deleted), now);
      DeleteProductConstraints(s, id);
    }
  }
}

/** `api/categories`: the list with product counts, lookup, and create,
    update and delete. */
module ApiCategories {
  import opened Optional
  import opened Entities
  import opened Store
  import opened Context
  import opened Loading
  import opened ActionResults
  import CategoryService
  import MemoryCache
  import Seqs

  /** `CategoryDto`. */
  datatype CategoryDto = CategoryDto(id: int, name: string, description: Option<string>, productCount: int)

  /** `CategoryCreateDto`, also the body of an update. */
  datatype CategoryCreateDto = CategoryCreateDto(name: string, description: Option<string>)

  /** The DTO of one category: `c.Products.Count` counts every product that
      references it, discontinued or not. */
  function DtoOf(s: Store, c: Category): CategoryDto {
    CategoryDto(c.categoryId, c.categoryName, c.description,
      Seqs.Count(s.products, (p: Product) => CategoryService.InCategory(c.categoryId, p)))
  }

  /** `GetAll()`: every category in table order with its product count. */
  function GetAll(s: Store): (r: seq<CategoryDto>)
    ensures |r| == |s.categories|
    ensures forall i :: 0 <= i < |r| ==>
      && r[i].id == s.categories[i].categoryId && r[i].name == s.categories[i].categoryName
      && r[i].description == s.categories[i].description
      && r[i].productCount == |Seqs.Filter(s.products, (p: Product) => p.categoryId == Some(s.categories[i].categoryId))|
  {
    var r := Seqs.Map(s.categories, (c: Category) => DtoOf(s, c));
    forall i | 0 <= i < |r| ensures
      r[i].productCount == |Seqs.Filter(s.products, (p: Product) => p.categoryId == Some(s.categories[i].categoryId))|
    {
      Seqs.FilterCongruent(s.products,
        (p: Product) => CategoryService.InCategory(s.categories[i].categoryId, p),
        (p: Product) => p.categoryId == Some(s.categories[i].categoryId));
    }
    r
  }

  /** Each count is the MVC service's total for that category, and so at
      least its active count. */
  lemma GetAllCountsAgreeWithService(s: Store, i: int)
    requires 0 <= i < |s.categories|
    ensures GetAll(s)[i].productCount == CategoryService.CountRow(s, s.categories[i]).productCount
    ensures GetAll(s)[i].productCount >= CategoryService.CountRow(s, s.categories[i]).activeProductCount
  {
    CategoryService.CountRowMeans(s, s.categories[i]);
  }

  /** `GetById(id)`: the category with its active products, or 404. */
  function GetById(s: Store, id: int): (r: ApiResult<CategoryDetail>)
    ensures r.NotFound? || r.Ok?
    ensures r.NotFound? <==> !HasCategory(s, id)
    ensures r.Ok? ==>
      && r.value.category in s.categories && r.value.category.categoryId == id
      && r.value.products == CategoryService.ActiveProductsOf(s, id)
  {
    match FindCategory(s, id)
    case None => NotFound
    case Some(c) => Ok(CategoryDetail(c, CategoryService.ActiveProductsOf(s, id)))
  }

  /** The endpoint answers what the MVC service loads on a cache miss. */
  lemma GetByIdAgreesWithService(s: Store, cache: MemoryCache.Cache, id: int)
    requires MemoryCache.TryGetCategory(cache, MemoryCache.CategoryItemKey(id)).None?
    ensures var r := GetById(s, id);
      CategoryService.GetById(s, cache, id).value == (if r.Ok? then Some(r.value) else None)
  {
  }

  /** `Create(dto)`: adds the category and answers 201 with it as stored. */
  function Create(s: Store, dto: CategoryCreateDto, now: Instant): (r: Applied<Category>)
    ensures r.result.Created? || r.result.ServerError?
    ensures r.result.Created? ==>
      && r.result.value == Category(s.nextCategoryId, dto.name, dto.description, None, Stamps(now, None))
      && r.store.categories == s.categories + [r.result.value]
      && r.store.products == s.products && r.store.suppliers == s.suppliers
    ensures r.result.ServerError? ==> r.store == s
  {
    var category := NewCategory.(categoryName := dto.name, description := dto.description);
    SaveAddedCategory(s, category, now);
    var stored := category.(categoryId := s.nextCategoryId, stamps := category.stamps.(createdAt := now));
    AfterSave(s, SaveChanges(s, [Entry(CategoryRow(category), Added)], now), Created(stored))
  }

  /** On a consistent store, creating succeeds exactly when the name is not
      taken; otherwise the unique index rejects it. */
  lemma CreateSucceedsIff(s: Store, dto: CategoryCreateDto, now: Instant)
    requires Constraints(s)
    ensures var r := Create(s, dto, now);
      && (r.result.Created? <==> forall i :: 0 <= i < |s.categories| ==> s.categories[i].categoryName != dto.name)
      && (r.result.ServerError? ==> r.result.fault == DuplicateCategoryName)
  {
    var category := NewCategory.(categoryName := dto.name, description := dto.description);
    var stored := category.(categoryId := s.nextCategoryId, stamps := category.stamps.(createdAt := now));
    InsertCategoryConstraints(s, stored);
    SaveAddedCategory(s, category, now);
    SaveOne(s, Entry(CategoryRow(category), Added), now);
  }

  function Edit(c: Category, dto: CategoryCreateDto): Category {
    c.(categoryName := dto.name, description := dto.description)
  }

  /** `Update(id, dto)`: 404 when there is no such category; otherwise the
      name and description are assigned and saved, and the answer is 204. */
  function Update(s: Store, id: int, dto: CategoryCreateDto, now: Instant): (r: Applied<()>)
    ensures r.result.NotFound? || r.result.NoContent? || r.result.ServerError?
    ensures r.result.NotFound? <==> !HasCategory(s, id)
    ensures !r.result.NoContent? ==> r.store == s
    ensures r.result.NoContent? ==>
      && r.store.products == s.products && r.store.suppliers == s.suppliers
      && |r.store.categories| == |s.categories|
  {
    match FindCategory(s, id)
    case None => Applied(NotFound, s)
    case Some(item) =>
      var edited := Edit(item, dto);
      var e := Entry(CategoryRow(edited), TrackedState(item, edited));
      SaveOne(s, e, now);
      AfterSave(s, SaveChanges(s, [e], now), NoContent)
  }

  /** On a consistent store, renaming an existing category succeeds exactly
      when no other category has the new name; otherwise the unique index
      rejects it. */
  lemma UpdateSucceedsIff(s: Store, id: int, dto: CategoryCreateDto, now: Instant)
    requires Constraints(s) && UniqueCategoryIds(s) && HasCategory(s, id)
    ensures var r := Update(s, id, dto, now);
      && (r.result.NoContent? <==>
            forall i :: 0 <= i < |s.categories| && s.categories[i].categoryId != id ==>
              s.categories[i].categoryName != dto.name)
      && (r.result.ServerError? ==> r.result.fault == DuplicateCategoryName)
  {
    var item := FindCategory(s, id).value;
    var edited := Edit(item, dto);
    var e := Entry(CategoryRow(edited), TrackedState(item, edited));
    SaveOne(s, e, now);
    var k :| 0 <= k < |s.categories| && s.categories[k] == item;
    if edited == item {
      SaveUnchanged(s, [e], now);
      forall i | 0 <= i < |s.categories| && s.categories[i].categoryId != id
        ensures s.categories[i].categoryName != dto.name
      {
        assert i != k;
      }
    } else {
      var stamped := edited.(stamps := edited.stamps.(updatedAt := Some(now)));
      assert StampEntry(e, now) == Entry(CategoryRow(stamped), Modified);
      UpdateCategoryConstraints(s, stamped);
    }
  }

  /** After a successful update, the category with that key carries the new
      name and description (and, if anything changed, UpdatedAt = now); its
      key, picture and CreatedAt are kept, and every other category is as
      before. */
  lemma UpdateChangesOnlyNameAndDescription(s: Store, id: int, dto: CategoryCreateDto, now: Instant, i: int)
    requires UniqueCategoryIds(s)
    requires Update(s, id, dto, now).result.NoContent?
    requires 0 <= i < |s.categories|
    ensures var after := Update(s, id, dto, now).store.categories[i];
      var before := s.categories[i];
      if before.categoryId == id then
        && after.categoryName == dto.name && after.description == dto.description
        && after.categoryId == id && after.picture == before.picture
        && after.stamps.createdAt == before.stamps.createdAt
        && (after.stamps.updatedAt == before.stamps.updatedAt || after.stamps.updatedAt == Some(now))
      else after == before
  {
    var item := FindCategory(s, id).value;
    var edited := Edit(item, dto);
    var e := Entry(CategoryRow(edited), TrackedState(item, edited));
    SaveOne(s, e, now);
    var k :| 0 <= k < |s.categories| && s.categories[k] == item;
    FindCategoryAt(s, k);
    if s.categories[i].categoryId == id {
      assert i == k;
    }
  }

  /** `Delete(id)`: 404 when there is no such category; otherwise it is
      removed, its products lose their category, and the answer is 204. */
  function Delete(s: Store, id: int, now: Instant): (r: Applied<()>)
    ensures r.result.NotFound? || r.result.NoContent? || r.result.ServerError?
    ensures r.result.NotFound? <==> !HasCategory(s, id)
    ensures !r.result.NoContent? ==> r.store == s
    ensures r.result.NoContent? ==>
      && (forall c :: c in s.categories ==> (c in r.store.categories <==> c.categoryId != id))
      && |r.store.products| == |s.products|
      && (forall i :: 0 <= i < |s.products| ==>
            r.store.products[i] == (if s.products[i].categoryId == Some(id)
                                    then s.products[i].(categoryId := None) else s.products[i]))
  {
    match FindCategory(s, id)
    case None => Applied(NotFound, s)
    case Some(item) =>
      var e := Entry(CategoryRow(item), Deleted);
      SaveOne(s, e, now);
      AfterSave(s, SaveChanges(s, [e], now), NoContent)
  }

  /** On a consistent store, deleting answers 204 exactly when the category
      exists: the set-null rule leaves no dangling product. */
  lemma DeleteSucceedsIff(s: Store, id: int, now: Instant)
    requires Constraints(s)
    ensures Delete(s, id, now).result.NoContent? <==> HasCategory(s, id)
  {
    if HasCategory(s, id) {
      var item := FindCategory(s, id).value;
      SaveOne(s, Entry(CategoryRow(item), Deleted), now);
      DeleteCategoryConstraints(s, id);
    }
  }
}
