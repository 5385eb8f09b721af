/** The catalogue's entities (Category, Supplier, Product), their annotation
    constraints as validity predicates, and their computed properties. */
module Entities {
  import opened Optional
  import opened Numeric
  import Text
  import Seqs

  // Column limits shared by the entities.
  const ProductNameMaxLength: nat := 40
  const CategoryNameMaxLength: nat := 15
  const CompanyNameMaxLength: nat := 40
  const ContactNameMaxLength: nat := 30
  const ContactTitleMaxLength: nat := 30
  const QuantityPerUnitMaxLength: nat := 20
  const PhoneMaxLength: nat := 24
  const CityMaxLength: nat := 15
  const CountryMaxLength: nat := 15
  const PostalCodeMaxLength: nat := 10
  const AddressMaxLength: nat := 60
  const RegionMaxLength: nat := 15

  /** A byte of a binary column. */
  type byte = x: int | 0 <= x < 256

  /** A point in time, as a tick count; 0 is `default(DateTime)`. */
  type Instant = int

  /** The audit timestamps every entity carries. */
  datatype Stamps = Stamps(createdAt: Instant, updatedAt: Option<Instant>)

  /** Timestamps of an entity that has never been saved. */
  const Unstamped := Stamps(0, None)

  datatype Category = Category(
    categoryId: int,
    categoryName: string,
    description: Option<string>,
    picture: Option<seq<byte>>,
    stamps: Stamps)

  datatype Supplier = Supplier(
    supplierId: int,
    companyName: string,
    contactName: Option<string>,
    contactTitle: Option<string>,
    address: Option<string>,
    city: Option<string>,
    region: Option<string>,
    postalCode: Option<string>,
    country: Option<string>,
    phone: Option<string>,
    fax: Option<string>,
    homePage: Option<string>,
    stamps: Stamps)

  datatype Product = Product(
    productId: int,
    productName: string,
    supplierId: Option<int>,
    categoryId: Option<int>,
    quantityPerUnit: Option<string>,
    unitPrice: Option<int>,          // money, in minor units
    unitsInStock: Option<int16>,
    unitsOnOrder: Option<int16>,
    reorderLevel: Option<int16>,
    discontinued: bool,
    stamps: Stamps)

  /** A category as `new Category()` builds it: empty name, nothing else set. */
  const NewCategory := Category(0, "", None, None, Unstamped)

  /** A product as `new Product()` builds it. */
  const NewProduct := Product(0, "", None, None, None, None, None, None, None, false, Unstamped)

  // ---------------------------------------------------------------------
  // Annotation constraints
  // ---------------------------------------------------------------------

  /** `[Required]` on a string: not null, not empty, not only white space. */
  predicate Required(s: string) {
    !Text.IsBlank(s)
  }

  /** `[StringLength(max)]`: null, or at most `max` characters. */
  predicate WithinLength(s: Option<string>, max: nat) {
    s.None? || |s.value| <= max
  }

  predicate ValidCategory(c: Category) {
    && Required(c.categoryName)
    && WithinLength(Some(c.categoryName), CategoryNameMaxLength)
  }

  predicate ValidSupplier(s: Supplier) {
    && Required(s.companyName)
    && WithinLength(Some(s.companyName), CompanyNameMaxLength)
    && WithinLength(s.contactName, ContactNameMaxLength)
    && WithinLength(s.contactTitle, ContactTitleMaxLength)
    && WithinLength(s.address, AddressMaxLength)
    && WithinLength(s.city, CityMaxLength)
    && WithinLength(s.region, RegionMaxLength)
    && WithinLength(s.postalCode, PostalCodeMaxLength)
    && WithinLength(s.country, CountryMaxLength)
    && WithinLength(s.phone, PhoneMaxLength)
    && WithinLength(s.fax, PhoneMaxLength)
  }

  predicate ValidProduct(p: Product) {
    && Required(p.productName)
    && WithinLength(Some(p.productName), ProductNameMaxLength)
    && WithinLength(p.quantityPerUnit, QuantityPerUnitMaxLength)
  }

  /** What the category constraints amount to; the optional columns play no part. */
  lemma ValidCategoryMeans(c: Category)
    ensures ValidCategory(c) <==>
      (exists i :: 0 <= i < |c.categoryName| && !Text.IsWhiteSpace(c.categoryName[i]))
      && |c.categoryName| <= 15
    ensures ValidCategory(c) ==> ValidCategory(c.(description := None, picture := None))
  {
  }

  /** A freshly constructed category fails validation (its name is empty),
      has no last-update time and no description or picture. */
  lemma NewCategoryFacts()
    ensures !ValidCategory(NewCategory)
    ensures NewCategory.stamps.updatedAt.None?
    ensures NewCategory.description.None? && NewCategory.picture.None?
    ensures ValidCategory(NewCategory.(categoryName := "Produce"))
  {
    assert !Text.IsWhiteSpace("Produce"[0]);
  }

  /** What the product constraints amount to. */
  lemma ValidProductMeans(p: Product)
    ensures ValidProduct(p) <==>
      (exists i :: 0 <= i < |p.productName| && !Text.IsWhiteSpace(p.productName[i]))
      && |p.productName| <= 40
      && (p.quantityPerUnit.None? || |p.quantityPerUnit.value| <= 20)
  {
  }

  /** What the supplier constraints amount to: a non-blank company name of at
      most 40 characters, and each optional column absent or within bound. */
  lemma ValidSupplierMeans(s: Supplier)
    ensures ValidSupplier(s) <==>
      && (exists i :: 0 <= i < |s.companyName| && !Text.IsWhiteSpace(s.companyName[i]))
      && |s.companyName| <= 40
      && (s.contactName.None? || |s.contactName.value| <= 30)
      && (s.contactTitle.None? || |s.contactTitle.value| <= 30)
      && (s.address.None? || |s.address.value| <= 60)
      && (s.city.None? || |s.city.value| <= 15)
      && (s.region.None? || |s.region.value| <= 15)
      && (s.postalCode.None? || |s.postalCode.value| <= 10)
      && (s.country.None? || |s.country.value| <= 15)
      && (s.phone.None? || |s.phone.value| <= 24)
      && (s.fax.None? || |s.fax.value| <= 24)
  {
  }

  // ---------------------------------------------------------------------
  // Computed properties
  // ---------------------------------------------------------------------

  /** C#'s lifted `a <= b` on nullable numbers: false when either is null. */
  predicate LiftedLe(a: Option<int>, b: Option<int>) {
    a.Some? && b.Some? && a.value <= b.value
  }

  /** C#'s lifted `a > b` on nullable numbers: false when either is null. */
  predicate LiftedGt(a: Option<int>, b: Option<int>) {
    a.Some? && b.Some? && a.value > b.value
  }

  /** `NeedsReorder`. */
  function NeedsReorder(p: Product): (r: bool)
    ensures r <==> !p.discontinued && p.unitsInStock.Some? && p.reorderLevel.Some?
                   && p.unitsInStock.value <= p.reorderLevel.value
  {
    !p.discontinued && LiftedLe(p.unitsInStock, p.reorderLevel)
  }

  /** `InventoryValue`: price times stock, a missing value counting as zero. */
  function InventoryValue(p: Product): (r: int)
    ensures p.unitPrice.None? || p.unitsInStock.None? ==> r == 0
    ensures p.unitPrice.Some? && p.unitsInStock.Some? ==> r == p.unitPrice.value * p.unitsInStock.value
  {
    p.unitPrice.GetOr(0) * p.unitsInStock.GetOr(0)
  }

  /** `IsInStock`. */
  function IsInStock(p: Product): (r: bool)
    ensures r <==> !p.discontinued && p.unitsInStock.Some? && p.unitsInStock.value > 0
  {
    !p.discontinued && LiftedGt(p.unitsInStock, Some(0))
  }

  /** A discontinued product neither needs reordering nor counts as in stock;
      a product that is both in stock and due for reorder has a positive
      reorder level. */
  lemma DerivedFlagsAgree(p: Product)
    ensures p.discontinued ==> !NeedsReorder(p) && !IsInStock(p)
    ensures NeedsReorder(p) && IsInStock(p) ==> p.reorderLevel.value > 0
  {
  }

  /** `Discontinue()`, with the clock reading passed in. */
  function Discontinue(p: Product, now: Instant): (r: Product)
    ensures r.discontinued && r.stamps.updatedAt == Some(now)
    ensures r.(discontinued := p.discontinued, stamps := p.stamps) == p
    ensures r.stamps.createdAt == p.stamps.createdAt
    ensures !NeedsReorder(r) && !IsInStock(r)
    ensures InventoryValue(r) == InventoryValue(p)
  {
    p.(discontinued := true, stamps := p.stamps.(updatedAt := Some(now)))
  }

  /** Discontinuing twice leaves the product discontinued, differing from a
      single discontinuation only in the last-update time. */
  lemma DiscontinueTwice(p: Product, t1: Instant, t2: Instant)
    ensures Discontinue(Discontinue(p, t1), t2).discontinued
    ensures Discontinue(Discontinue(p, t1), t2) == Discontinue(p, t2)
  {
  }

  /** `!string.IsNullOrWhiteSpace(x)`: whether an address part is printed. */
  predicate Printed(o: Option<string>) {
    !Text.IsNullOrWhiteSpace(o)
  }

  /** What a part contributes to the address: its value when printed. */
  function PrintedPart(o: Option<string>): (r: seq<string>)
    ensures |r| <= 1 && (|r| == 1 <==> Printed(o))
    ensures Printed(o) ==> r == [o.value]
  {
    if Printed(o) then [o.value] else []
  }

  function PartValue(o: Option<string>): string {
    o.GetOr("")
  }

  /** The non-blank values among `parts`, in their original order. */
  function NonBlankParts(parts: seq<Option<string>>): (r: seq<string>)
    ensures forall i :: 0 <= i < |r| ==> !Text.IsBlank(r[i]) && Some(r[i]) in parts
    ensures forall i :: 0 <= i < |parts| && !Text.IsNullOrWhiteSpace(parts[i]) ==> parts[i].value in r
    ensures |r| <= |parts|
    decreases |parts|
  {
    if |parts| == 0 then []
    else
      assert forall i :: 1 <= i < |parts| ==> parts[i] == parts[1..][i - 1];
      (if Text.IsNullOrWhiteSpace(parts[0]) then [] else [parts[0].value]) + NonBlankParts(parts[1..])
  }

  /** `NonBlankParts` is the `Where` over the parts followed by `Select` of
      each value: order and repetitions of the printed parts are kept. */
  lemma {:induction false} NonBlankPartsIsWhere(parts: seq<Option<string>>)
    ensures NonBlankParts(parts) == Seqs.Map(Seqs.Filter(parts, Printed), PartValue)
    decreases |parts|
  {
    if |parts| > 0 {
      NonBlankPartsIsWhere(parts[1..]);
      var kept := if Printed(parts[0]) then [parts[0]] else [];
      assert Seqs.Filter(parts, Printed) == kept + Seqs.Filter(parts[1..], Printed);
      Seqs.MapConcat(kept, Seqs.Filter(parts[1..], Printed), PartValue);
    }
  }

  /** A part followed by more parts: its own contribution comes first. */
  lemma NonBlankPartsCons(o: Option<string>, rest: seq<Option<string>>)
    ensures NonBlankParts([o] + rest) == PrintedPart(o) + NonBlankParts(rest)
  {
    assert ([o] + rest)[0] == o && ([o] + rest)[1..] == rest;
  }

  /** The address parts of a supplier, in the order they are printed. */
  function AddressParts(s: Supplier): seq<Option<string>> {
    [s.address, s.city, s.region, s.postalCode, s.country]
  }

  /** `FullAddress`: the non-blank address parts joined by ", ". */
  function FullAddress(s: Supplier): (r: string)
    ensures (forall i :: 0 <= i < 5 ==> Text.IsNullOrWhiteSpace(AddressParts(s)[i])) ==> r == ""
  {
    Text.Join(", ", NonBlankParts(AddressParts(s)))
  }

  /** The full address holds the non-blank parts and exactly one separator
      between each two of them; it starts with the first and ends with the
      last of them, never with a separator. */
  lemma FullAddressShape(s: Supplier)
    ensures var parts := NonBlankParts(AddressParts(s));
            && (|parts| == 0 <==> FullAddress(s) == "")
            && (|parts| > 0 ==>
                  && |FullAddress(s)| == Text.TotalLength(parts) + 2 * (|parts| - 1)
                  && Text.StartsWith(FullAddress(s), parts[0])
                  && Text.EndsWith(FullAddress(s), parts[|parts| - 1]))
  {
    var parts := NonBlankParts(AddressParts(s));
    var full := FullAddress(s);
    assert full == Text.Join(", ", parts);
    if |parts| > 0 {
      Text.JoinShape(", ", parts);
      assert |parts[0]| > 0 by {
        assert !Text.IsBlank(parts[0]);
      }
      assert |full| >= |parts[0]|;
    }
  }

  /** The full address is the printed parts joined by ", " in the order
      address, city, region, postal code, country, each at most once. */
  lemma FullAddressInOrder(s: Supplier)
    ensures FullAddress(s) == Text.Join(", ",
      PrintedPart(s.address) + PrintedPart(s.city) + PrintedPart(s.region)
      + PrintedPart(s.postalCode) + PrintedPart(s.country))
  {
    var l4 := [s.country];
    var l3 := [s.postalCode] + l4;
    var l2 := [s.region] + l3;
    var l1 := [s.city] + l2;
    assert AddressParts(s) == [s.address] + l1;
    NonBlankPartsCons(s.country, []);
    assert [s.country] + [] == l4;
    assert NonBlankParts(l4) == PrintedPart(s.country);
    NonBlankPartsCons(s.postalCode, l4);
    NonBlankPartsCons(s.region, l3);
    NonBlankPartsCons(s.city, l2);
    NonBlankPartsCons(s.address, l1);
    var a, c, r := PrintedPart(s.address), PrintedPart(s.city), PrintedPart(s.region);
    var pc, co := PrintedPart(s.postalCode), PrintedPart(s.country);
    assert NonBlankParts(AddressParts(s)) == a + (c + (r + (pc + co)));
    RegroupParts(a, c, r, pc, co);
  }

  /** Concatenation regrouped from the right to the left. */
  lemma RegroupParts<T>(a: seq<T>, b: seq<T>, c: seq<T>, d: seq<T>, e: seq<T>)
    ensures a + (b + (c + (d + e))) == a + b + c + d + e
  {
  }

  /** An example: a supplier with only a city and a country. */
  lemma FullAddressExample(s: Supplier)
    requires s.address.None? && s.region == Some("") && s.postalCode.None?
    requires s.city == Some("London") && s.country == Some("UK")
    ensures FullAddress(s) == "London, UK"
  {
    assert !Text.IsBlank("London") by { assert !Text.IsWhiteSpace("London"[0]); }
    assert !Text.IsBlank("UK") by { assert !Text.IsWhiteSpace("UK"[0]); }
    FullAddressInOrder(s);
    assert [] + ["London"] + [] + [] + ["UK"] == ["London", "UK"];
    assert ["London", "UK"][1..] == ["UK"];
    assert Text.Join(", ", ["London", "UK"]) == "London" + ", " + "UK";
  }

  /** `ToString()` of each entity: its name. */
  function CategoryToString(c: Category): string {
    c.categoryName
  }

  function SupplierToString(s: Supplier): string {
    s.companyName
  }

  function ProductToString(p: Product): string {
    p.productName
  }
}
