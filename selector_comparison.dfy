/** The two selectors read different fields to decide "discounted", and treat a
    missing price differently. These lemmas pin the differences down, and say what
    each selector makes of a record after a discount has been applied to it. */
module SelectorComparison {
  import opened Catalog
  import opened ProductService
  import opened BackendProductService
  import Sequences

  /** A discount descriptor with a nonzero value and no discounted price: the service keeps it,
      the backend drops it. */
  lemma DiscountValueSeenOnlyByBackend(p: ProductRecord)
    requires ListedPrice(p).Some? && p.priceData.value.discountedPrice.None?
    requires Truthy(DiscountValue(p))
    ensures ServiceEligible(p) && !BackendEligible(p)
  {
  }

  /** A discounted price below the price and no descriptor: the service drops it, the backend keeps it. */
  lemma DiscountedPriceSeenOnlyByService(p: ProductRecord)
    requires ListedPrice(p).Some? && p.priceData.value.discountedPrice.Some?
    requires 0.0 < p.priceData.value.discountedPrice.value < ListedPrice(p).value
    requires p.discount.None?
    ensures !ServiceEligible(p) && BackendEligible(p)
  {
  }

  /** A record without `priceData.price`: the service excludes it, the backend filter keeps it. */
  lemma MissingPriceTreatedDifferently(p: ProductRecord)
    requires ListedPrice(p).None? && p.discount.None?
    ensures !ServiceEligible(p) && BackendEligible(p)
  {
  }

  /** A 100.00 product carrying a 20% descriptor, and an 80.00 product without one. */
  const ExampleA := ProductRecord(Some("a"), Some("A"), Some(PriceData(Some(100.0), None, Some("USD"))), Some(100.0),
                                  Some(Discount("PERCENT", Some(20.0))), None, None)
  const ExampleB := ProductRecord(Some("b"), Some("B"), Some(PriceData(Some(80.0), None, Some("USD"))), Some(80.0),
                                  None, None, None)

  /** On the example catalogue the service answers the 100.00 product: it ignores the descriptor. */
  method ServiceOnExample() returns (service: Option<Product>)
    ensures service == Some(Project(ExampleA))
  {
    var items := [ExampleA, ExampleB];
    assert QueryPage(Some(items)) == items;
    assert ServiceEligible(ExampleA) && ExampleA in items;
    service := GetMostExpensiveNonDiscountedProduct(Some(items));
    assert service.Some?;
    assert PriceOrZero(ExampleA) <= service.value.price;
    var p :| p in items && ServiceEligible(p) && service.value == Project(p);
    assert p == ExampleA;
  }

  /** On the same catalogue the backend answers the 80.00 product: it honours the descriptor. */
  method BackendOnExample() returns (backend: Outcome)
    ensures backend == Returned(Some(ExampleB))
  {
    var items := [ExampleA, ExampleB];
    assert items[1..] == [ExampleB] && [ExampleB][1..] == [];
    assert Sequences.Filter(items, BackendEligible) == [ExampleB];
    backend := GetMostExpensiveUndiscountedProduct(items);
  }

  /** After a successful update with a nonzero percentage the backend no longer selects the record. */
  lemma PatchedRecordLeftByBackend(p: ProductRecord, discountPercentage: real)
    requires discountPercentage != 0.0
    requires DiscountPatch(Some(p), discountPercentage).Some?
    ensures !BackendEligible(PatchRecord(p, DiscountPatch(Some(p), discountPercentage).value))
  {
  }

  /** After the update the service still selects the record exactly when the rounded
      discounted price is zero or not below the price. */
  lemma PatchedRecordForService(p: ProductRecord, discountPercentage: real)
    requires DiscountPatch(Some(p), discountPercentage).Some?
    ensures var d := DiscountPatch(Some(p), discountPercentage).value.discountedPrice;
      ServiceEligible(PatchRecord(p, DiscountPatch(Some(p), discountPercentage).value)) <==>
      d == 0.0 || d >= ListedPrice(p).value
  {
  }

  /** A one-cent product discounted by 10% rounds back to one cent, so the service still
      treats it as not discounted after the update. */
  lemma OneCentSurvivesTenPercent(p: ProductRecord)
    requires ListedPrice(p) == Some(0.01)
    ensures DiscountPatch(Some(p), 10.0).Some?
    ensures DiscountPatch(Some(p), 10.0).value.discountedPrice == 0.01
    ensures ServiceEligible(PatchRecord(p, DiscountPatch(Some(p), 10.0).value))
  {
  }
}
