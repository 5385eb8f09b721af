# Northwind catalogue — a Dafny model

This project models the core of the Northwind catalogue application, a small
ASP.NET product catalogue over Entity Framework Core:

- the MVC product service: a filtered, name-ordered, paged listing; lookups
  by id and by category through the in-memory cache; the reorder-alert query;
  and the capped name search. The listing filter (`ProductFilter`) is part of
  it.
- the MVC category service: the name-ordered list, the category with its
  active products, and the per-category product counts, each cached.
- the entities (`Category`, `Supplier`, `Product`), their annotation
  constraints as validity predicates, and their computed properties.
- the `NorthwindContext` unit of work:
  - the timestamp stamping that runs before every save;
  - the unique index on category names;
  - the foreign keys with their set-null delete rule;
  - a save that commits a batch only when these constraints still hold.
- `DbInitializer`: the one-time seeding of the reference catalogue, as a
  transformer of the store.
- the Web API `api/products` and `api/categories` controllers: queries,
  creates, updates and deletes.
- the MVC products, categories and home controllers, and the paging flags of
  `ProductListViewModel`.

## How the model is built

**Store.** The database is a `Store`: three tables as sequences in insertion
order, plus one identity counter per table. Every query is a pure function
of the store.

**Order.** Where a query has no `OrderBy`, its order is the table order.
`OrderBy` is a stable insertion sort over a total preorder. Strings are
compared ordinally, code point by code point (`Text.LexLe`). A nullable
number sorts its nulls first.

**Saves.** `SaveChanges` stamps the tracked entries with one clock reading
`now`, passed in as a parameter. It applies the entries in order, then checks
two constraints: the unique category name, then the foreign keys. A batch
that breaks one of them yields the fault and leaves the caller's store
unchanged. The Web API turns that fault into a server error.

**Cache.** The cache is a `map<string, CacheEntry>` that the two services
share. Each service call returns its value together with the new cache
(`Served`). An entry's lifetime is not modelled by a clock; its expiry is the
explicit `MemoryCache.Evict`.

**Numbers.** Prices are integers in minor units (hundredths). `short` and
`int` are the subset types `int16` and `int32`. The unchecked `int`
arithmetic of the paging offsets is written out as `Numeric.Wrap32`.

**Answers and parameters.**

- `GET api/products/{id}`, `GET api/categories/{id}` and both `POST`s answer
  with the entity itself, not a DTO. `ApiProducts.GetById` and
  `ApiCategories.GetById` return the loaded entity.
- `GET api/products` accepts only `categoryId`, `includeDiscontinued`, `page`
  and `pageSize`. It has no supplier, price or search filter.
- The products controller's `Index` never assigns `TotalPages`. Its view
  model therefore never shows a next-page link from page 1 on
  (`MvcProducts.IndexPaging`).

**Provider.** The repository has two context registrations. `AddNorthwindContext`
uses SQL Server (`Northwind.DataContext/NorthwindContextExtensions.cs:9`).
`AddNorthwindContextInMemory` uses the in-memory provider (line 27 of the same
file), and both applications register that one (`Northwind.Mvc/Program.cs:18`,
`Northwind.WebApi/Program.cs:11`). The unique index, the foreign keys and the
set-null delete rule are enforced by a relational database only. The model
enforces all three in the way SQL Server does, except for one difference. The
model's unique index compares category names exactly, code point by code
point, so case and trailing blanks count. A SQL Server index compares under
the column's collation; the default one ignores case, and every collation
ignores trailing blanks. So SQL Server rejects "beverages" or "Beverages "
next to "Beverages", and the model accepts them. The
in-memory provider enforces none of the three: under it the failing saves
below succeed, and a category delete leaves its products' `CategoryId` as it
was unless those products are tracked.

## Model

| member | source | states |
|---|---|---|
| ProductService.DefaultFilterMatches | Northwind.Mvc/Services/IProductService.cs:14-24 | The default filter starts at page 1 with page size 10. A product passes it exactly when the product is not discontinued: no other criterion is set. |
| ProductService.EffectivePageSize | Northwind.Mvc/Services/ProductService.cs:25 | The page size used is at most 100 and at most the requested size, and it is one of the two. |
| ProductService.PageOffset | Northwind.Mvc/Services/ProductService.cs:26 | The skip count is `(Page - 1) * ps` whenever that value fits in an `int`. Otherwise it wraps around as unchecked `int` arithmetic does. |
| ProductService.Matches | Northwind.Mvc/Services/ProductService.cs:18-23 | The `Where` chain: a product passes when it is active unless discontinued ones are asked for, its category and supplier equal any set ids, its price is present and within any set bounds, and its name contains a non-blank search term. |
| ProductService.PageOfMatches | Northwind.Mvc/Services/ProductService.cs:16-26 | Any window of the name-ordered matches is in name order, and each of its products is stored, passes the filter and is loaded with its category and supplier. |
| ProductService.MatchingByNameMembers | Northwind.Mvc/Services/ProductService.cs:16-26 | Before paging, the listing is in name order. It holds exactly the stored products that pass every set criterion of the filter, each loaded with its category and supplier. |
| ProductService.GetAll | Northwind.Mvc/Services/ProductService.cs:13-27 | A page holds at most `min(PageSize, 100)` products and is in name order. Each product on it is stored and passes every set criterion: discontinued only when asked for, equal category and supplier ids, a present price within the bounds, and a name containing a non-blank search term. A null filter acts as the default one. |
| ProductService.GetAllIsSlice | Northwind.Mvc/Services/ProductService.cs:25-26 | When the offset does not overflow, a page is exactly the window of the name-ordered matches that starts at `(Page - 1) * ps` (clamped to the list) and holds at most `ps` items. |
| ProductService.GetAllDefaultFirstPage | Northwind.Mvc/Services/ProductService.cs:15 | With no filter, the listing is the first ten active products in name order, and none of them is discontinued. |
| ProductService.MatchingIgnoresPaging | Northwind.Mvc/Services/ProductService.cs:18-23 | Which products match does not depend on the page number. |
| ProductService.OnItsPage | Northwind.Mvc/Services/ProductService.cs:26 | The match at index `k` is on the page whose offset is the largest multiple of the page size not above `k`. |
| ProductService.GetAllPagesCover | Northwind.Mvc/Services/ProductService.cs:13-27 | Paging loses nothing: for a positive page size, every stored product that matches the filter is returned on some page from 1 on. This includes discontinued products when they are asked for. |
| ProductService.GetById | Northwind.Mvc/Services/ProductService.cs:29-40 | On a hit, the cached product is returned and the cache is unchanged. On a miss, the result is present exactly when the store has the id. A found product is the stored row with its category and supplier, cached under `product_{id}`. A missing one leaves the cache unchanged. |
| ProductService.GetByIdServesCached | Northwind.Mvc/Services/ProductService.cs:32 | After a product has been served, later calls return the same value from the cache, whatever the store has become. |
| ProductService.GetByIdStaleAfterUpdate | Northwind.Mvc/Services/ProductService.cs:32-38 | After a product is renamed in the store, the cached lookup still returns the old name: the cached value can be stale. |
| ProductService.GetByIdMissCachesNothing | Northwind.Mvc/Services/ProductService.cs:38 | A lookup of an absent id returns null and caches nothing for that key. |
| ProductService.CategoryProductsMembers | Northwind.Mvc/Services/ProductService.cs:47-50 | The category query is in name order. It holds exactly the active products referencing the category, each with its supplier and without its category. |
| ProductService.GetByCategory | Northwind.Mvc/Services/ProductService.cs:42-54 | On a hit, the cached list is returned and the cache is unchanged. On a miss, the result is a name-ordered list of active, stored products of that category, and it is cached under `products_cat_{id}`. The key is cached afterwards even when the list is empty. |
| ProductService.GetByCategoryServesCached | Northwind.Mvc/Services/ProductService.cs:45 | Once a category's list is cached, later calls return it unchanged, whatever the store has become. |
| ProductService.GetByCategoryComplete | Northwind.Mvc/Services/ProductService.cs:47-50 | On a miss, every active product of the category is in the list. |
| ProductService.GetNeedingReorder | Northwind.Mvc/Services/ProductService.cs:56-62 | The reorder list is sorted by stock, lowest first. As a multiset it equals the loaded products that need reordering, and each of them is a stored product that needs reordering. |
| ProductService.GetNeedingReorderMembers | Northwind.Mvc/Services/ProductService.cs:58-61 | A loaded product is on the reorder list exactly when it is some stored product that needs reordering. |
| ProductService.GetNeedingReorderAscending | Northwind.Mvc/Services/ProductService.cs:61 | Every product on the reorder list has a stock figure, and the figures ascend. |
| ProductService.SearchHitsMembers | Northwind.Mvc/Services/ProductService.cs:67-70 | Before the cap, the hits are in name order. They are exactly the active stored products whose name contains the term, each with its category. |
| ProductService.Search | Northwind.Mvc/Services/ProductService.cs:64-71 | A null or blank term gives the empty list. Any other term gives at most 20 stored, active products whose names contain the term, in name order, each with its category. |
| ProductService.SearchIsPrefix | Northwind.Mvc/Services/ProductService.cs:70 | The search result is the first `min(20, n)` of the name-ordered hits. |
| ProductService.SearchComplete | Northwind.Mvc/Services/ProductService.cs:67-70 | When there are at most 20 hits, every hit is returned. |
| CategoryService.CategoriesByName | Northwind.Mvc/Services/CategoryService.cs:18 | The list is a permutation of the category table, sorted by name. |
| CategoryService.GetAll | Northwind.Mvc/Services/CategoryService.cs:13-21 | On a hit, the cached list is returned and the cache is unchanged. On a miss, every category is read in name order, as a permutation of the table, and the list is cached under `categories`. |
| CategoryService.GetAllEachOnce | Northwind.Mvc/Services/CategoryService.cs:18 | Under the unique index, a fresh listing holds each stored category exactly once, and no two rows share a name. |
| CategoryService.GetAllServesCached | Northwind.Mvc/Services/CategoryService.cs:15-20 | A cached list is served verbatim whatever the store has become. After the entry is evicted, the next call reads the current store. |
| CategoryService.ActiveProductsOf | Northwind.Mvc/Services/CategoryService.cs:30 | The category's active products are exactly the stored products that reference it and are not discontinued. They keep table order (a subsequence of the table), and each appears as often as it does in the table. |
| CategoryService.GetById | Northwind.Mvc/Services/CategoryService.cs:23-35 | On a hit, the cached category is returned and the cache is unchanged. On a miss, the result is present exactly when the category exists. A found category carries exactly its active products and is cached under `category_{id}`. A missing one leaves the cache unchanged. |
| CategoryService.GetByIdAbsent | Northwind.Mvc/Services/CategoryService.cs:33 | A lookup of an absent id returns null and caches nothing. |
| CategoryService.GetByIdServesCached | Northwind.Mvc/Services/CategoryService.cs:26-27 | A found category is served again, unchanged, to later calls whatever the store has become. |
| CategoryService.CountRow | Northwind.Mvc/Services/CategoryService.cs:44-49 | A row copies the category's id, name and description. Its counts satisfy `0 <= active <= total <= number of products`. |
| CategoryService.CountRowMeans | Northwind.Mvc/Services/CategoryService.cs:48-49 | The total count is the number of products referencing the category. The active count is the number of its non-discontinued products. |
| CategoryService.CountRows | Northwind.Mvc/Services/CategoryService.cs:43-51 | There is one row per category, as a permutation of the categories' rows, in name order. |
| CategoryService.CountRowsCover | Northwind.Mvc/Services/CategoryService.cs:43-49 | Every stored category has its row, including a category with no products. |
| CategoryService.CountRowsFromCategories | Northwind.Mvc/Services/CategoryService.cs:43-49 | Every row is the row of some stored category. |
| CategoryService.GetWithProductCounts | Northwind.Mvc/Services/CategoryService.cs:37-55 | On a hit, the cached rows are returned and the cache is unchanged. On a miss, the rows are the per-category count rows of the current store (one per category, in name order, each with `active <= total`), and they are cached under `categories_counts`. |
| CategoryService.GetWithProductCountsServesCached | Northwind.Mvc/Services/CategoryService.cs:40-41 | Once computed, the rows are served verbatim whatever the store has become. |
| MemoryCache.CacheKeysDistinct | Northwind.Mvc/Services/ProductService.cs:31 | Each family of cache keys (`product_{id}`, `products_cat_{id}`, `category_{id}`) is injective in its id. No two families and no fixed key (`categories`, `categories_counts`) produce the same string. |
| MemoryCache.TryGetProduct | Northwind.Mvc/Services/ProductService.cs:32 | `TryGetValue<Product>` hits exactly when the key holds a product, and it returns that product. |
| MemoryCache.TryGetProductList | Northwind.Mvc/Services/ProductService.cs:45 | The typed read hits exactly when the key holds a product list, and it returns that list. |
| MemoryCache.TryGetCategory | Northwind.Mvc/Services/CategoryService.cs:26 | The typed read hits exactly when the key holds a category, and it returns that category. |
| MemoryCache.TryGetCategoryList | Northwind.Mvc/Services/CategoryService.cs:15 | The typed read hits exactly when the key holds a category list, and it returns that list. |
| MemoryCache.TryGetCountList | Northwind.Mvc/Services/CategoryService.cs:40 | The typed read hits exactly when the key holds a list of count rows, and it returns that list. |
| MemoryCache.Evict | Northwind.Mvc/Services/ProductService.cs:11 | An expiry removes exactly the one key and keeps every other entry as it was. |
| Entities.ValidCategoryMeans | Northwind.EntityModels/Category.cs:10-18 | A category is valid exactly when its name has a non-white-space character and at most 15 characters. Description and picture play no part. |
| Entities.NewCategoryFacts | Northwind.EntityModels/Category.cs:10-23 | A new category fails validation, because its name is empty. It has no description, no picture and no last-update time. With a proper name it is valid. |
| Entities.ValidProductMeans | Northwind.EntityModels/Product.cs:10-21 | A product is valid exactly when its name is non-blank with at most 40 characters, and its quantity per unit is absent or at most 20 characters. |
| Entities.ValidSupplierMeans | Northwind.EntityModels/Supplier.cs:10-39 | A supplier is valid exactly when its company name is non-blank with at most 40 characters. Each optional column must be absent or within its bound: 30, 30, 60, 15, 15, 10, 15, 24 and 24. |
| Entities.NeedsReorder | Northwind.EntityModels/Product.cs:44 | A product needs reordering exactly when it is active and both stock and reorder level are present with stock at most the level. A missing value makes it false. |
| Entities.InventoryValue | Northwind.EntityModels/Product.cs:47 | The inventory value is price times stock, and 0 when either is missing. |
| Entities.IsInStock | Northwind.EntityModels/Product.cs:50 | A product is in stock exactly when it is active and its stock is present and positive. |
| Entities.DerivedFlagsAgree | Northwind.EntityModels/Product.cs:44-50 | A discontinued product neither needs reordering nor counts as in stock. A product that does both has a positive reorder level. |
| Entities.Discontinue | Northwind.EntityModels/Product.cs:52-56 | The product becomes discontinued with `UpdatedAt = now`, and every other field is as before. It then neither needs reordering nor is in stock, and its inventory value is unchanged. |
| Entities.DiscontinueTwice | Northwind.EntityModels/Product.cs:52-56 | Discontinuing twice equals discontinuing once at the later time. |
| Entities.NonBlankParts | Northwind.EntityModels/Supplier.cs:51-52 | The kept parts are exactly the non-blank ones among the given parts, and none is blank. |
| Entities.NonBlankPartsIsWhere | Northwind.EntityModels/Supplier.cs:51-52 | Keeping the non-blank parts is the `Where` of the source followed by the `Select` of the values: order and repetitions are kept. |
| Entities.NonBlankPartsCons | Northwind.EntityModels/Supplier.cs:51-52 | The kept parts of a list are the first part, when it is printed, followed by the kept parts of the rest. |
| Entities.FullAddress | Northwind.EntityModels/Supplier.cs:50-52 | The full address is empty when all five parts are blank. |
| Entities.FullAddressInOrder | Northwind.EntityModels/Supplier.cs:49-52 | The full address joins, with ", ", the printed parts in the order address, city, region, postal code, country. |
| Entities.FullAddressShape | Northwind.EntityModels/Supplier.cs:50-52 | The full address is empty exactly when no part is kept. Otherwise its length is the parts' total plus one two-character separator between each two parts, and it starts with the first part and ends with the last. |
| Entities.FullAddressExample | Northwind.EntityModels/Supplier.cs:50-52 | A supplier with only a city and a country, and a blank region, has the address "London, UK". |
| Store.FindProduct | Northwind.WebApi/Controllers/ProductsController.cs:105 | `Find` returns a stored row with the key, and returns null exactly when no row has it. |
| Store.FindCategory | Northwind.WebApi/Controllers/CategoriesController.cs:55 | `Find` returns a stored row with the key, and returns null exactly when no row has it. |
| Store.FirstCategoryNamed | Northwind.DataContext/DbInitializer.cs:52-55 | The lookup by name returns a stored row with that name, and returns null exactly when no row has it. |
| Store.FirstSupplierNamed | Northwind.DataContext/DbInitializer.cs:57-59 | The lookup by name returns a stored supplier with that company name, and returns null exactly when none has it. |
| Store.DeleteCategory | Northwind.DataContext/NorthwindContext.cs:24-27 | Exactly the rows with the key are removed. `CategoryId` is cleared on exactly the products that referenced it, and every other product is unchanged. |
| Store.DeleteSupplier | Northwind.DataContext/NorthwindContext.cs:29-32 | Exactly the rows with the key are removed. `SupplierId` is cleared on exactly the products that referenced it, and every other product is unchanged. |
| Store.DeleteProduct | Northwind.WebApi/Controllers/ProductsController.cs:126-127 | Exactly the product with the key is removed, and the other tables are unchanged. |
| Store.DeleteCategoryKeepsReferences | Northwind.DataContext/NorthwindContext.cs:24-27 | After a category is deleted, no product points at it, and every remaining reference still resolves. |
| Store.FirstCategoryNamedFinds | Northwind.DataContext/NorthwindContext.cs:15 | Under the unique index, a lookup by a row's name finds exactly that row. |
| Store.FirstSupplierNamedFinds | Northwind.DataContext/NorthwindContext.cs:37-40 | Company names have no unique index: a lookup by name finds the row when no other supplier shares the name. |
| Store.InsertCategoryConstraints | Northwind.DataContext/NorthwindContext.cs:15 | Adding a category to a consistent store keeps it consistent exactly when no existing category has that name. |
| Store.InsertProductConstraints | Northwind.DataContext/NorthwindContext.cs:24-32 | Adding a product keeps the store consistent exactly when its category and supplier, if given, exist. |
| Store.UpdateProductConstraints | Northwind.DataContext/NorthwindContext.cs:24-32 | Rewriting a product without changing its keys keeps the store consistent. |
| Store.DeleteProductConstraints | Northwind.DataContext/NorthwindContext.cs:18-35 | Deleting a product keeps a consistent store consistent. |
| Store.UpdateCategoryConstraints | Northwind.DataContext/NorthwindContext.cs:15 | Under unique keys, rewriting a category keeps the store consistent exactly when no category with another key has the new name. |
| Store.DeleteCategoryConstraints | Northwind.DataContext/NorthwindContext.cs:15-27 | Deleting a category keeps a consistent store consistent: the remaining names stay distinct, and set-null leaves no dangling reference. |
| Context.TrackedState | Northwind.WebApi/Controllers/ProductsController.cs:107-112 | A tracked entity whose assignments left every value as it was stays Unchanged. Otherwise it is Modified. |
| Context.ApplyTimestamps | Northwind.DataContext/NorthwindContext.cs:55-66 | Every entry of the batch gets the same `now`. An Added entry gets `CreatedAt = now` with `UpdatedAt` kept. A Modified entry gets `UpdatedAt = now` with `CreatedAt` kept. Unchanged and Deleted entries are left as they were. Nothing but the timestamps changes. |
| Context.SaveChanges | Northwind.DataContext/NorthwindContext.cs:43-53 | Both saves stamp first. A save succeeds exactly when the stamped batch applies and the result meets the unique-name and foreign-key constraints, and the saved store is then that result. A batch whose result breaks a constraint fails with the duplicate-name or dangling-key fault. A batch that does not apply fails with that fault. |
| Context.ApplyEntry | Northwind.DataContext/NorthwindContext.cs:43-53 | Applying one entry fails, with row-not-found, exactly when a Modified or Deleted entry names no stored row. Unchanged leaves the store as it is, Added adds one row, Modified keeps every table's size, and a product entry leaves the category and supplier tables alone. |
| Context.SaveAddedProduct | Northwind.DataContext/NorthwindContext.cs:43-62 | Saving one added product inserts it with the next key and `CreatedAt = now`. This succeeds exactly when the result meets the constraints. |
| Context.SaveAddedCategory | Northwind.DataContext/NorthwindContext.cs:43-62 | Saving one added category inserts it with the next key and `CreatedAt = now`. This succeeds exactly when the result meets the constraints. |
| Context.SaveOne | Northwind.DataContext/NorthwindContext.cs:43-66 | Saving one entry is applying that entry after it is stamped. |
| Context.SaveUnchanged | Northwind.DataContext/NorthwindContext.cs:59-65 | A batch of only Unchanged entries leaves a consistent store exactly as it was. |
| Batches.ApplyAddedCategories | Northwind.DataContext/DbInitializer.cs:31-32 | Adding a range of categories appends them stamped with `now`, with consecutive keys from the counter. |
| Batches.ApplyAddedSuppliers | Northwind.DataContext/DbInitializer.cs:46-47 | Adding a range of suppliers appends them stamped with `now`, with consecutive keys from the counter. |
| Batches.ApplyAddedProducts | Northwind.DataContext/DbInitializer.cs:73-74 | Adding a range of products appends them stamped with `now`, with consecutive keys from the counter. |
| Loading.Load | Northwind.Mvc/Services/ProductService.cs:34-36 | A loaded product carries the stored product. An `Include`d category or supplier is present only when asked for, and it is then the row its key names. It is present whenever that row exists. |
| Loading.LoadUnderForeignKeys | Northwind.DataContext/NorthwindContext.cs:24-32 | Under the foreign keys, an `Include`d navigation property is present exactly when its key is. |
| Loading.ListingMembers | Northwind.Mvc/Services/ProductService.cs:16-23 | A listing holds exactly the loaded forms of the stored products that pass its `Where`. |
| Seeding.Initialize | Northwind.DataContext/DbInitializer.cs:5-15 | Without `force`, a store that already has a category is returned unchanged and without fault. A run that ends without fault leaves at least one category. |
| Seeding.InitializeIntended | Northwind.DataContext/DbInitializer.cs:5-15 | The same two facts hold with the cooperative's key looked up by name. |
| Seeding.InitializeWith | Northwind.DataContext/DbInitializer.cs:5-15 | Each phase saves on its own, so the result is the store after the last committed phase together with the fault of the phase that failed, if any. Without `force`, a store that already has a category is returned unchanged. A run without fault leaves a category. From an empty store whose category save succeeds, there are then 8 categories, even if a later phase fails. |
| Seeding.SeedCategories | Northwind.DataContext/DbInitializer.cs:17-33 | The category phase appends the eight seed categories with consecutive keys from the counter and `CreatedAt = now`. It succeeds exactly when that store meets the constraints, and the result is then that store. |
| Seeding.SeedSuppliers | Northwind.DataContext/DbInitializer.cs:35-48 | The supplier phase appends the five seed suppliers with consecutive keys from the counter and `CreatedAt = now`. It succeeds exactly when that store meets the constraints, and the result is then that store. |
| Seeding.LookupRefs | Northwind.DataContext/DbInitializer.cs:52-59 | The seven `FirstAsync` lookups succeed exactly when every named category and supplier exists, and the Queso supplier too when it is looked up. Otherwise they fail with no-such-element. On success, each key is that of the first row with the name, and the Queso key is the literal 5 as written. |
| Seeding.SeedProducts | Northwind.DataContext/DbInitializer.cs:50-75 | A failed lookup fails the phase with no-such-element before anything is added. Otherwise the eight products, built with the looked-up keys, are appended with consecutive keys. The phase succeeds exactly when that store meets the constraints, and the result is then that store. |
| Seeding.InitializeIdempotent | Northwind.DataContext/DbInitializer.cs:10-14 | A run that ends without fault leaves a category, and running again on its store, at any clock, returns the same outcome. |
| Seeding.SeedCategoryNamesDistinct | Northwind.DataContext/DbInitializer.cs:21-28 | The eight seeded category names are pairwise distinct. |
| Seeding.SeedSupplierNamesDistinct | Northwind.DataContext/DbInitializer.cs:39-43 | The five seeded company names are pairwise distinct. |
| Seeding.FreshLookups | Northwind.DataContext/DbInitializer.cs:52-59 | On a freshly seeded catalogue, every lookup by name in the product phase succeeds and finds the keys assigned in seeding order. |
| Seeding.SeededFromConstraints | Northwind.DataContext/DbInitializer.cs:61-74 | The seeded store is consistent exactly when supplier key 5 exists, or when the Queso supplier is looked up by name. |
| Seeding.SeedEmptyDatabase | Northwind.DataContext/DbInitializer.cs:5-75 | Seeding an empty database whose supplier keys start at `f` produces the seeded catalogue without fault, when the Queso supplier is looked up by name or when `f` is 1 to 5. Otherwise the product save fails with a dangling foreign key, and the store keeps the committed categories and suppliers. |
| Seeding.SeedFreshStore | Northwind.DataContext/DbInitializer.cs:5-15 | Seeding a newly created database ends without fault and yields the seeded catalogue. With `force`, so does any store. |
| Seeding.SeedRowsValid | Northwind.DataContext/DbInitializer.cs:19-70 | Every seeded row satisfies its entity's validation attributes. |
| Seeding.SeededShape | Northwind.DataContext/DbInitializer.cs:12-14 | The seeded catalogue has 8 categories, 5 suppliers and 8 products. Each product is filed under the category its row names, as found by name. |
| Seeding.SeededProductCategory | Northwind.DataContext/DbInitializer.cs:52-55 | Each seeded product's category key is the key of the seeded category with the name its row uses. |
| Seeding.SeededFlags | Northwind.DataContext/DbInitializer.cs:63-70 | Exactly one seeded product, "Chef Anton's Gumbo Mix", is discontinued. Exactly the two Queso products name supplier 5, which is the cooperative when keys start at 1. |
| Seeding.SeededQuesoSupplier | Northwind.DataContext/DbInitializer.cs:69-70 | The two Queso products refer to the supplier key the product phase obtained for them. |
| Seeding.LiteralSupplierKeyMisfiles | Northwind.DataContext/DbInitializer.cs:69-70 | As written, seeding an empty database whose supplier keys start at `f` (1 to 5) succeeds, but both Queso products name supplier 5. That supplier is seeded supplier number `5 - f`, counting from 0, and it is the cooperative exactly when `f` is 1. |
| Seeding.LiteralSupplierKeyExample | Northwind.DataContext/DbInitializer.cs:69-70 | As written, with supplier keys starting at 2, seeding succeeds and supplier 5 is Tokyo Traders. |
| Seeding.LiteralSupplierKeyDangles | Northwind.DataContext/DbInitializer.cs:69-74 | With supplier keys starting past 5, the product save fails with a dangling foreign key. The 8 categories and 5 suppliers stay committed, and there are no products. |
| Seeding.LiteralSupplierKeyStrands | Northwind.DataContext/DbInitializer.cs:10-14 | After that failure, a later initialisation without `force` sees a category and returns at once: the catalogue stays without products. |
| Seeding.LookedUpSupplierKeyFiles | Northwind.DataContext/DbInitializer.cs:57-59 | With the key looked up by name, seeding an empty database ends without fault for every starting key, and both Queso products refer to the cooperative. |
| Seeding.SeededByNameFiles | Northwind.DataContext/DbInitializer.cs:57-70 | In the catalogue seeded with the lookup by name, both Queso products name a supplier that exists and is the cooperative. |
| ViewModels.EmptyProductListFlags | Northwind.Mvc/ViewModels/ProductViewModels.cs:5-14 | A new list view model has no products and no category, and shows neither paging link. |
| ViewModels.PagingFlagsMeaning | Northwind.Mvc/ViewModels/ProductViewModels.cs:12-13 | Both links show exactly on an inner page. With at most one page, the next-page link never shows from page 1 on. |
| MvcProducts.Index | Northwind.Mvc/Controllers/ProductsController.cs:10-25 | The view holds the service's page for the filter, a null filter acting as the default. It echoes the page and the search term, and asks for the category only when the filter names one. |
| MvcProducts.IndexPaging | Northwind.Mvc/Controllers/ProductsController.cs:12-19 | `TotalPages` is never set, so no next-page link shows from page 1 on, and the previous-page link shows exactly past page 1. Without a filter, the page has at most ten active products and no category. |
| MvcProducts.Related | Northwind.Mvc/Controllers/ProductsController.cs:34 | At most four related products, none of them the product itself, all from the category's list. |
| MvcProducts.RelatedIsPrefix | Northwind.Mvc/Controllers/ProductsController.cs:34 | The related products are the first of the other candidates, in list order, and there are four of them whenever at least four exist. |
| MvcProducts.Details | Northwind.Mvc/Controllers/ProductsController.cs:27-38 | No id gives BadRequest, and a missing product gives NotFound. Otherwise the view shows the product with at most four related products, none of them itself. There are none when the product has no category. |
| MvcProducts.DetailsRelatedFresh | Northwind.Mvc/Controllers/ProductsController.cs:33-35 | With nothing cached, the related products are other active products of the same category. |
| MvcProducts.DetailsShowsRequested | Northwind.Mvc/Controllers/ProductsController.cs:30-37 | While product entries are cached under their own key, the details page shows the product asked for. |
| MvcProducts.GetByIdKeepsKeyed | Northwind.Mvc/Services/ProductService.cs:38 | A product lookup keeps every cached product under its own id's key. |
| MvcProducts.Search | Northwind.Mvc/Controllers/ProductsController.cs:40-45 | A blank query shows the empty list view. Any other query shows the service's search result and echoes the query. |
| MvcProducts.SearchResults | Northwind.Mvc/Controllers/ProductsController.cs:42-44 | A blank query gives the same page whatever the store holds. Any other query shows at most 20 active products whose names contain it. |
| MvcProducts.ByCategory | Northwind.Mvc/Controllers/ProductsController.cs:47-53 | A missing category gives NotFound without asking for its products. Otherwise the view shows the category and its product list. |
| MvcProducts.ByCategoryFresh | Northwind.Mvc/Controllers/ProductsController.cs:49-52 | With nothing cached, the result is NotFound exactly when the category is absent. Otherwise the page lists exactly its active products, in name order. |
| MvcProducts.ReorderAlerts | Northwind.Mvc/Controllers/ProductsController.cs:55-62 | The list view shows the service's reorder list itself: the products needing reorder, lowest stock first, as a multiset equal to the loaded products that need reordering. It has no category and no search term. |
| MvcCategories.Index | Northwind.Mvc/Controllers/CategoriesController.cs:8-12 | The view shows the count rows unchanged. |
| MvcCategories.Details | Northwind.Mvc/Controllers/CategoriesController.cs:14-19 | No id gives BadRequest without calling the service. Otherwise the result is NotFound exactly when the service returns null, and it is a view of exactly the category returned. |
| MvcCategories.DetailsFresh | Northwind.Mvc/Controllers/CategoriesController.cs:17-18 | With nothing cached, an absent category is NotFound. A present one shows that category with exactly its active products. |
| MvcHome.Summary | Northwind.Mvc/Controllers/HomeController.cs:32 | A featured summary carries the row's id, name and description, and its active count as the product count. |
| MvcHome.Index | Northwind.Mvc/Controllers/HomeController.cs:13-36 | The dashboard has these figures:<br>• category count = the number of count rows;<br>• product count = the sum of their active counts;<br>• supplier count = the number of suppliers;<br>• alert count = the length of the reorder list;<br>• featured categories = the first `min(4, n)` rows, summarised. |
| MvcHome.StockValue | Northwind.Mvc/Controllers/HomeController.cs:17-18 | The summed value of one product is its `InventoryValue`: price times stock, and 0 when either is missing. |
| MvcHome.InventoryIsSumOfValues | Northwind.Mvc/Controllers/HomeController.cs:17-18 | The inventory figure is the sum of `InventoryValue` over the active products. |
| MvcHome.ReorderCountIsNeedsReorderCount | Northwind.Mvc/Controllers/HomeController.cs:29 | The alert count is the number of stored products that need reordering. |
| MvcHome.IndexFresh | Northwind.Mvc/Controllers/HomeController.cs:26-27 | With the counts not yet cached, the dashboard counts every category, and its product count is the sum of the categories' active counts. |
| ActionResults.AfterSave | Northwind.WebApi/Controllers/ProductsController.cs:94-95 | After a successful save, the answer is the success status with the saved store. After a failed one, it is a server error carrying the fault, with the old store. |
| ApiProducts.Listed | Northwind.WebApi/Controllers/ProductsController.cs:22-27 | Before paging, the listing is name-ordered and is a permutation of the stored products that pass the filters, each with its category. |
| ApiProducts.GetAll | Northwind.WebApi/Controllers/ProductsController.cs:16-36 | A call returns at most 50 DTOs, in name order. |
| ApiProducts.GetAllMembers | Northwind.WebApi/Controllers/ProductsController.cs:22-32 | Every returned row is the DTO of a stored product that passes the filters, read with its category. |
| ApiProducts.DtoCategoryNamesCategory | Northwind.WebApi/Controllers/ProductsController.cs:30-32 | Under the foreign keys, a DTO has a category name exactly when its product has a category, and the name is that category's. |
| ApiProducts.PageAsWritten | Northwind.WebApi/Controllers/ProductsController.cs:28-29 | A page holds at most 50 rows, and it is a contiguous window of the listing. |
| ApiProducts.PageAsWrittenWindow | Northwind.WebApi/Controllers/ProductsController.cs:28-29 | Without overflow, a page is exactly the slice of the listing that starts at position `(page - 1) * pageSize`, or at 0 when that is negative (page 0 or below), clamped to the list. It holds the next `min(pageSize, 50)` rows, and nothing for a non-positive page size. |
| ApiProducts.ApiPagingSkipsRows | Northwind.WebApi/Controllers/ProductsController.cs:28-29 | With page size 100, no page whose offset fits in an `int`, page 0 and negative pages included, returns a row whose position modulo 100 is 50 or more. |
| ApiProducts.ApiPagingExample | Northwind.WebApi/Controllers/ProductsController.cs:28-29 | Of 100 rows at 100 per page, page 1 shows the first 50 and page 2 shows nothing. |
| ApiProducts.GetAllIntended | Northwind.WebApi/Controllers/ProductsController.cs:28-29 | With the clamped size used for both skip and take, a call still returns at most 50 DTOs in name order. |
| ApiProducts.IntendedPagingCoversAll | Northwind.WebApi/Controllers/ProductsController.cs:28-29 | With the intended paging, every row is on some page from 1 on. |
| ApiProducts.IntendedListingComplete | Northwind.WebApi/Controllers/ProductsController.cs:16-36 | With the intended paging, every stored product that passes the filters appears as a DTO on some page. |
| ApiProducts.GetById | Northwind.WebApi/Controllers/ProductsController.cs:41-48 | The answer is NotFound exactly when no product has the id. Otherwise it is the stored product with that id, with its category and supplier. |
| ApiProducts.GetByIdAgreesWithService | Northwind.WebApi/Controllers/ProductsController.cs:43-47 | The endpoint answers what the MVC service loads on a cache miss. |
| ApiProducts.Search | Northwind.WebApi/Controllers/ProductsController.cs:52-61 | A blank query gives nothing. Any other query gives at most 20 DTOs of stored active products whose names contain it, each without a category name. |
| ApiProducts.SearchAgreesWithService | Northwind.WebApi/Controllers/ProductsController.cs:55-59 | With at most 20 hits, the endpoint returns the same products as the MVC search, in table order instead of name order. |
| ApiProducts.GetLowStock | Northwind.WebApi/Controllers/ProductsController.cs:67-75 | The low-stock list is sorted by stock with nulls first. As a multiset it equals the DTOs of the products that need reordering. |
| ApiProducts.GetLowStockIsReorderList | Northwind.WebApi/Controllers/ProductsController.cs:70-71 | The low-stock list is the MVC reorder list projected to DTOs, element for element. |
| ApiProducts.GetLowStockMembers | Northwind.WebApi/Controllers/ProductsController.cs:70 | Every low-stock row is the DTO of a stored product that needs reordering. |
| ApiProducts.GetLowStockAscending | Northwind.WebApi/Controllers/ProductsController.cs:71 | Every low-stock row has a stock figure, and the figures ascend. |
| ApiProducts.Create | Northwind.WebApi/Controllers/ProductsController.cs:82-96 | On success, the answer is 201 with the stored product: the next key, the six DTO fields copied, no quantity per unit and no units on order, not discontinued, `CreatedAt = now`, appended with the other tables unchanged. A failed save is a server error with the old store. |
| ApiProducts.CreateSucceedsIff | Northwind.WebApi/Controllers/ProductsController.cs:84-94 | On a consistent store, creating succeeds exactly when the given category and supplier exist. Otherwise the fault is a dangling foreign key. |
| ApiProducts.Update | Northwind.WebApi/Controllers/ProductsController.cs:103-114 | NotFound exactly when the id is absent. Every answer but 204 leaves the store unchanged, and a 204 leaves the other tables unchanged. |
| ApiProducts.UpdateSucceeds | Northwind.WebApi/Controllers/ProductsController.cs:103-114 | On a consistent store, updating an existing product always answers 204. |
| ApiProducts.UpdateChangesOnlyEditedFields | Northwind.WebApi/Controllers/ProductsController.cs:107-111 | After an update, the product carries the five DTO fields. Its key, category, supplier, quantity, units on order and `CreatedAt` are kept. `UpdatedAt` is `now` or unchanged. Every other product is as before. |
| ApiProducts.Delete | Northwind.WebApi/Controllers/ProductsController.cs:122-129 | NotFound exactly when the id is absent. A 204 removes exactly that product and leaves the other tables unchanged. Any other answer leaves the store unchanged. |
| ApiProducts.DeleteSucceedsIff | Northwind.WebApi/Controllers/ProductsController.cs:122-129 | On a consistent store, deleting answers 204 exactly when the product exists. |
| ApiCategories.GetAll | Northwind.WebApi/Controllers/CategoriesController.cs:16-22 | There is one DTO per category, in table order, with its id, name and description. Its count is every product referencing it, discontinued or not. |
| ApiCategories.GetAllCountsAgreeWithService | Northwind.WebApi/Controllers/CategoriesController.cs:18-20 | Each count equals the MVC service's total for that category, and so is at least its active count. |
| ApiCategories.GetById | Northwind.WebApi/Controllers/CategoriesController.cs:27-33 | NotFound exactly when the category is absent. Otherwise the answer is that category with exactly its active products. |
| ApiCategories.GetByIdAgreesWithService | Northwind.WebApi/Controllers/CategoriesController.cs:29-32 | The endpoint answers what the MVC service loads on a cache miss. |
| ApiCategories.Create | Northwind.WebApi/Controllers/CategoriesController.cs:40-46 | On success, the answer is 201 with the stored category: the next key, the given name and description, `CreatedAt = now`, and the other tables unchanged. A failed save is a server error with the old store. |
| ApiCategories.CreateSucceedsIff | Northwind.WebApi/Controllers/CategoriesController.cs:42-44 | On a consistent store, creating succeeds exactly when the name is not taken. Otherwise the fault is a duplicate category name. |
| ApiCategories.Update | Northwind.WebApi/Controllers/CategoriesController.cs:53-61 | NotFound exactly when the id is absent. A 204 changes only the category table and keeps its size. Any other answer leaves the store unchanged. |
| ApiCategories.UpdateSucceedsIff | Northwind.WebApi/Controllers/CategoriesController.cs:55-58 | On a consistent store, renaming an existing category succeeds exactly when no other category has the name. Otherwise the fault is a duplicate category name. |
| ApiCategories.UpdateChangesOnlyNameAndDescription | Northwind.WebApi/Controllers/CategoriesController.cs:55-59 | After a successful update, the category with that key has the new name and description. Its key, picture and `CreatedAt` are kept, and `UpdatedAt` is `now` or unchanged. Every other category is as before. |
| ApiCategories.Delete | Northwind.WebApi/Controllers/CategoriesController.cs:69-76 | NotFound exactly when the id is absent. A 204 removes exactly that category and clears `CategoryId` on exactly its products. Any other answer leaves the store unchanged. |
| ApiCategories.DeleteSucceedsIff | Northwind.WebApi/Controllers/CategoriesController.cs:71-74 | On a consistent store, deleting answers 204 exactly when the category exists, because set-null leaves no dangling product. |

## Left out

- Authentication and authorisation: the `[Authorize]` attributes, the JWT service and the login controller are enforced by middleware outside the modelled code.
- Dependency injection, middleware and provider setup in both `Program` files and the context extensions.
- Cache lifetimes: entries never expire by themselves. The five- and ten-minute lifetimes are stood in for by `MemoryCache.Evict`.
- `DateTime.UtcNow`: the clock reading is a parameter.
- Concurrency: `Task.WhenAll` in the home controller is computed sequentially, and concurrent requests are not modelled.
- Rendering: views, `ViewData`, status-code bodies and `CreatedAtAction` routing are not modelled. Only the chosen outcome and its model or body are.
- Model-binding validation: the `[Required]` and `[StringLength]` attributes are validity predicates and are not checked when a row is saved. The database's column lengths and the framework's 400 answers are not modelled.
- Provider collation: `OrderBy` on strings is ordinal code-point order, and `Contains` is case-sensitive substring containment. The unique index on category names and the `FirstAsync` name lookups of the seeding (`Northwind.DataContext/DbInitializer.cs:52-59`) compare names exactly, code point by code point, with case and trailing blanks significant. The providers may compare differently. A SQL Server collation may ignore case and trailing blanks when it orders, matches, looks up and indexes. The in-memory provider orders strings in process with .NET's comparer, which may be culture-sensitive rather than ordinal.
- Queries without `OrderBy` (the API search, the API category list, included product collections) return table order. A database may return another order.
- `Skip` and `Take` follow the in-memory provider the applications register: a negative skip skips nothing and a non-positive take returns nothing. SQL Server rejects a negative OFFSET instead.
- `decimal` prices are integers in minor units. The product `InventoryValue` and the dashboard sum are exact integers, with no decimal overflow.
- Counts and sums are unbounded integers. The 32-bit overflow of `Count()` and `Sum()` on more than 2^31 rows is not modelled. Only the paging offset is computed with 32-bit wrap-around.
- The navigation collections (`Category.Products`, `Supplier.Products`) are not stored on the entity. A category's products are computed from the product table. `Picture` and `HomePage` are stored as optional fields and take no part in validation.
- The `ToString` overrides are modelled as name projections and have no contract.
- `Discontinued` has a database default of false. In the model it is the false that a new product starts with.
- `ApiProducts.ApiPagingSkipsRows`: stated for page size 100 and pages whose offset fits in an `int` (pages -21474835 to 21474836). Other page sizes above 50 lose rows in the same way.
- `ApiProducts.GetAll`: its contract states the bound, the order and (through `ApiProducts.GetAllMembers`) membership. Which window it returns is stated by `ApiProducts.PageAsWrittenWindow` only when the offset does not overflow.
- `ProductService.GetAllIsSlice`: stated only when `(Page - 1) * ps` fits in an `int`. Beyond that, `ProductService.PageOffset` wraps around.
- `ProductService.GetAllPagesCover`: needs the product table to have at most 2^31 - 1 rows, so that every page number fits in an `int`.
- `ApiProducts.IntendedListingComplete`: needs fewer than 2^31 - 1 products, for the same reason.
- `ProductService.SearchComplete`: stated only when there are at most 20 hits, because the cap cuts off the rest.
- `ApiProducts.SearchAgreesWithService`: stated only when there are at most 20 hits, and only as equal multisets, because the endpoint takes its 20 rows before any ordering.
- Context.SaveChanges: rejects a duplicate category name and a dangling foreign key as the SQL Server registration does. The in-memory provider both applications register enforces neither, and there every batch that applies is saved. Names count as duplicates only when they are equal code point by code point, where SQL Server's collation may also treat case variants as equal. The fault reported for a batch that breaks both constraints is the duplicate name, which is checked first, where the real database reports whichever statement fails first.
- ApiProducts.CreateSucceedsIff: the dangling-key failure is that of a relational database. Under the in-memory provider the applications register, creating always succeeds.
- ApiCategories.CreateSucceedsIff: the duplicate-name failure comes from the unique index, which only a relational database enforces. Under the in-memory provider, creating always succeeds. The model's index compares names exactly, so a case variant or a name with trailing blanks is not taken, where SQL Server's default collation rejects it.
- ApiCategories.UpdateSucceedsIff: the duplicate-name failure comes from the unique index, which only a relational database enforces. Under the in-memory provider, renaming an existing category always succeeds. The model's index compares names exactly, so renaming to a case variant of another category's name succeeds, where SQL Server's default collation rejects it.
- Store.InsertCategoryConstraints: a name is taken only when it equals an existing name code point by code point. SQL Server's default collation also counts case variants and trailing blanks as taken.
- Store.UpdateCategoryConstraints: a name is taken only when it equals another category's name code point by code point. SQL Server's default collation also counts case variants and trailing blanks as taken.
- ApiCategories.Delete: clears `CategoryId` on exactly the category's products, as the relational set-null rule does. Under the in-memory provider the applications register, the controller tracks none of those products, so they keep the deleted key.
- ApiCategories.DeleteSucceedsIff: set-null on the products is that of a relational database. The in-memory provider clears `CategoryId` only on tracked products, and the controller tracks none, so untracked products keep the deleted key.
- Store.DeleteCategory: clears `CategoryId` as the relational set-null rule does. Under the in-memory provider, only tracked products are cleared.
- Store.DeleteSupplier: clears `SupplierId` as the relational set-null rule does. Under the in-memory provider, only tracked products are cleared.
- Seeding.LiteralSupplierKeyDangles: the failing product save is that of a relational database. The in-memory provider has no foreign keys, so there the save succeeds with the two Queso products naming a missing supplier. Its identity counters also start at 1 in a new database.
- Entities.ValidCategoryMeans: `[StringLength]` counts UTF-16 code units, and the model counts `char`s as code points. A name with characters outside the Basic Multilingual Plane can be valid in the model and too long for the attribute.
- Entities.ValidProductMeans: lengths are counted in code points, not in the UTF-16 code units `[StringLength]` counts.
- Entities.ValidSupplierMeans: lengths are counted in code points, not in the UTF-16 code units `[StringLength]` counts.

## Findings

| source | as written | input that shows it | evidently intended | confidence | as-written member | corrected member |
|---|---|---|---|---|---|---|
| Northwind.WebApi/Controllers/ProductsController.cs:28-29 | Skips `(page - 1) * pageSize` rows with the requested page size but takes only `min(pageSize, 50)` | 100 products, `pageSize = 100`: page 1 returns products 0..49 and page 2 returns nothing, so products 50..99 are never listed | Skip `(page - 1) * min(pageSize, 50)`, so that consecutive pages tile the listing | not executed | ApiProducts.ApiPagingSkipsRows | ApiProducts.IntendedPagingCoversAll |
| Northwind.DataContext/DbInitializer.cs:69-70 | The two Queso products use the literal `SupplierId = 5` instead of looking the cooperative up by name as the other suppliers are | A SQL Server database whose supplier identity starts at 2 (after a deleted supplier, or a reseeded identity): both products are filed under Tokyo Traders. Past 5, the product save fails with a foreign-key violation after the categories and suppliers were committed, and later runs see a category and never add the products | Look up "Cooperativa de Quesos 'Las Cabras'" by name, like the other suppliers | not executed | Seeding.LiteralSupplierKeyMisfiles | Seeding.LookedUpSupplierKeyFiles |
