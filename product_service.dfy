/** The dashboard's product service: choosing the most expensive product that
    is not discounted, and applying a percentage discount to a product. */
module ProductService {
  import opened Catalog
  import Sequences

  /** The projection the dashboard displays. */
  datatype Product = Product(id: string, name: string, price: real, currency: string, imageUrl: string, description: string)

  /** The query asks for at most this many items. */
  const PageLimit: nat := 100

  /** The items the limited query yields: none when the query failed. */
  function QueryPage(response: Option<seq<ProductRecord>>): (page: seq<ProductRecord>)
    ensures response.None? ==> page == []
    ensures response.Some? ==> |page| == (if |response.value| < PageLimit then |response.value| else PageLimit)
    ensures response.Some? ==> page == response.value[..|page|]
  {
    match response
    case None => []
    case Some(items) => if |items| <= PageLimit then items else items[..PageLimit]
  }

  /** `priceData?.price`. */
  function ListedPrice(p: ProductRecord): Option<real>
  {
    if p.priceData.Some? then p.priceData.value.price else None
  }

  /** `priceData?.price ?? 0`: the sort key, and the displayed price. */
  function PriceOrZero(p: ProductRecord): real
  {
    if ListedPrice(p).Some? then ListedPrice(p).value else 0.0
  }

  /** The service's filter: a price is present, and the discounted price is falsy or not below it. */
  predicate ServiceEligible(p: ProductRecord)
  {
    ListedPrice(p).Some? &&
    (!Truthy(p.priceData.value.discountedPrice) || p.priceData.value.discountedPrice.value >= ListedPrice(p).value)
  }

  /** Eligibility in words: priced, and either no discounted price, a zero one, or one at least the price. */
  lemma ServiceEligibleIff(p: ProductRecord)
    ensures ServiceEligible(p) <==>
      p.priceData.Some? && p.priceData.value.price.Some? &&
      var d := p.priceData.value.discountedPrice;
      (d.None? || d.value == 0.0 || d.value >= p.priceData.value.price.value)
  {
  }

  /** No record with an effective price reduction passes the filter. */
  lemma DiscountedRecordExcluded(p: ProductRecord)
    requires p.priceData.Some? && p.priceData.value.price.Some? && p.priceData.value.discountedPrice.Some?
    requires 0.0 < p.priceData.value.discountedPrice.value < p.priceData.value.price.value
    ensures !ServiceEligible(p)
  {
  }

  /** The returned item, with defaults for missing fields. */
  function Project(p: ProductRecord): Product
  {
    Product(
      if p.id.Some? then p.id.value else "000",
      if p.name.Some? then p.name.value else "Unnamed Product",
      PriceOrZero(p),
      if p.priceData.Some? && p.priceData.value.currency.Some? then p.priceData.value.currency.value else "USD",
      if p.imageUrl.Some? then p.imageUrl.value else "/placeholder.svg",
      if p.description.Some? then p.description.value else "")
  }

  /** Each present field is copied unchanged; each missing one takes its default.
      For an eligible record the price default 0 is never used. */
  lemma ProjectFields(p: ProductRecord)
    ensures p.id.Some? ==> Project(p).id == p.id.value
    ensures p.id.None? ==> Project(p).id == "000"
    ensures p.name.Some? ==> Project(p).name == p.name.value
    ensures p.name.None? ==> Project(p).name == "Unnamed Product"
    ensures p.imageUrl.Some? ==> Project(p).imageUrl == p.imageUrl.value
    ensures p.imageUrl.None? ==> Project(p).imageUrl == "/placeholder.svg"
    ensures p.description.Some? ==> Project(p).description == p.description.value
    ensures p.description.None? ==> Project(p).description == ""
    ensures p.priceData.Some? && p.priceData.value.currency.Some? ==> Project(p).currency == p.priceData.value.currency.value
    ensures p.priceData.None? || p.priceData.value.currency.None? ==> Project(p).currency == "USD"
    ensures ServiceEligible(p) ==> Project(p).price == p.priceData.value.price.value
  {
  }

  /** `r` is what the selector may answer for `page`: nothing exactly when no item is
      eligible, otherwise the projection of an eligible item whose price is the largest. */
  ghost predicate IsMostExpensiveEligible(page: seq<ProductRecord>, r: Option<Product>)
  {
    && (r.None? <==> forall p :: p in page ==> !ServiceEligible(p))
    && (r.Some? ==> exists p :: p in page && ServiceEligible(p) && r.value == Project(p))
    && (r.Some? ==> forall q :: q in page && ServiceEligible(q) ==> PriceOrZero(q) <= r.value.price)
  }

  /** `getMostExpensiveNonDiscountedProduct`, given the answer of the catalogue query
      (None when the query failed, which the service turns into `null`). */
  method GetMostExpensiveNonDiscountedProduct(response: Option<seq<ProductRecord>>) returns (r: Option<Product>)
    ensures IsMostExpensiveEligible(QueryPage(response), r)
  {
    var items := QueryPage(response);
    if |items| == 0 {
      return None;
    }
    var filtered := Sequences.Filter(items, ServiceEligible);
    if |filtered| == 0 {
      forall p | p in items
        ensures !ServiceEligible(p)
      {
        assert p !in filtered;
      }
      return None;
    }
    var sorted := new ProductRecord[|filtered|](i requires 0 <= i < |filtered| => filtered[i]);
    assert sorted[..] == filtered;
    Sequences.SortDescending(sorted, PriceOrZero);
    var top := sorted[0];
    assert top in multiset(sorted[..]);
    assert top in filtered;
    Sequences.HeadIsMax(sorted[..], PriceOrZero);
    forall q | q in items && ServiceEligible(q)
      ensures PriceOrZero(q) <= PriceOrZero(top)
    {
      assert q in multiset(filtered);
      assert q in sorted[..];
    }
    r := Some(Project(top));
  }

  /** Any two answers the selector may give agree on whether there is a product, and on its price. */
  lemma SelectionPriceDetermined(page: seq<ProductRecord>, r1: Option<Product>, r2: Option<Product>)
    requires IsMostExpensiveEligible(page, r1) && IsMostExpensiveEligible(page, r2)
    ensures r1.None? <==> r2.None?
    ensures r1.Some? ==> r1.value.price == r2.value.price
  {
  }

  /** Items past the first page never influence the selection. */
  lemma OnlyFirstPageConsidered(items: seq<ProductRecord>, rest: seq<ProductRecord>)
    requires |items| >= PageLimit
    ensures QueryPage(Some(items + rest)) == QueryPage(Some(items))
  {
  }

  // ---------------------------------------------------------------------------
  // Applying a discount

  /** Half-up rounding of a non-negative amount to whole cents. */
  function HalfUpCents(x: real): (c: int)
    requires x >= 0.0
    ensures 100.0 * x - 0.5 < c as real <= 100.0 * x + 0.5
  {
    (x * 100.0 + 0.5).Floor
  }

  /** `x` is a whole number of cents. */
  predicate WholeCents(x: real)
  {
    (100.0 * x).Floor as real == 100.0 * x
  }

  /** `Number(x.toFixed(2))` on exact numbers: the nearest multiple of 0.01, halves away from zero.
      A whole number of cents in a half-open interval one cent wide is unique, so these
      clauses fix the result. */
  function Round2(x: real): (r: real)
    ensures WholeCents(r)
    ensures x >= 0.0 ==> x - 0.005 < r <= x + 0.005
    ensures x < 0.0 ==> x - 0.005 <= r < x + 0.005
  {
    if x < 0.0 then
      var c := -HalfUpCents(-x);
      CentsAreWhole(c);
      c as real / 100.0
    else
      var c := HalfUpCents(x);
      CentsAreWhole(c);
      c as real / 100.0
  }

  /** A count of cents, as an amount, is a whole number of cents. */
  lemma CentsAreWhole(c: int)
    ensures WholeCents(c as real / 100.0)
  {
    assert 100.0 * (c as real / 100.0) == c as real;
  }

  /** Round2's contract determines its value: any whole number of cents within its bounds is Round2's result. */
  lemma Round2Unique(x: real, r: real)
    requires WholeCents(r)
    requires x >= 0.0 ==> x - 0.005 < r <= x + 0.005
    requires x < 0.0 ==> x - 0.005 <= r < x + 0.005
    ensures r == Round2(x)
  {
    var i := (100.0 * r).Floor;
    var j := (100.0 * Round2(x)).Floor;
    assert -1.0 < (i - j) as real < 1.0;
    assert i == j;
  }

  /** An amount already in whole cents is left as it is. */
  lemma Round2OfCents(cents: int)
    ensures Round2(cents as real / 100.0) == cents as real / 100.0
  {
    var x := cents as real / 100.0;
    if cents < 0 {
      assert (-x * 100.0 + 0.5).Floor == -cents;
    } else {
      assert (x * 100.0 + 0.5).Floor == cents;
    }
  }

  /** `originalPrice * (1 - discountPercentage / 100)`, rounded to cents. */
  function DiscountedPrice(originalPrice: real, discountPercentage: real): (d: real)
    ensures WholeCents(d)
    ensures var amount := originalPrice * (1.0 - discountPercentage / 100.0);
      amount >= 0.0 ==> amount - 0.005 < d <= amount + 0.005
    ensures var amount := originalPrice * (1.0 - discountPercentage / 100.0);
      amount < 0.0 ==> amount - 0.005 <= d < amount + 0.005
  {
    Round2(originalPrice * (1.0 - discountPercentage / 100.0))
  }

  /** The update `applyDiscountToProduct` sends for the record it fetched, or None when it
      gives up before sending: no record, or a price that is absent or 0. */
  function DiscountPatch(fetched: Option<ProductRecord>, discountPercentage: real): (r: Option<Patch>)
    ensures r.None? <==> fetched.None? || !Truthy(ListedPrice(fetched.value))
    ensures r.Some? ==> r.value.discount == Discount("PERCENT", Some(discountPercentage))
    ensures r.Some? ==> r.value.discountedPrice == DiscountedPrice(ListedPrice(fetched.value).value, discountPercentage)
  {
    if fetched.None? || !Truthy(ListedPrice(fetched.value)) then None
    else
      var originalPrice := ListedPrice(fetched.value).value;
      Some(Patch(DiscountedPrice(originalPrice, discountPercentage), Discount("PERCENT", Some(discountPercentage))))
  }

  /** Scaling a positive price by a factor in [0, 1) keeps it in [0, price). */
  lemma ScaledBelow(price: real, factor: real)
    requires price > 0.0 && 0.0 <= factor < 1.0
    ensures 0.0 <= price * factor < price
    ensures 100.0 * (price * factor) < 100.0 * price
  {
  }

  /** Rounding an amount below a whole number of cents never exceeds it. */
  lemma Round2Below(amount: real, cents: int)
    requires 0.0 <= amount && 100.0 * amount < cents as real
    ensures 0.0 <= Round2(amount) <= cents as real / 100.0
  {
    assert HalfUpCents(amount) <= cents;
  }

  /** For a positive price in whole cents and a percentage in (0, 99], the discounted
      price lies between 0 and the original price. */
  lemma DiscountWithinPrice(cents: int, discountPercentage: real)
    requires cents > 0
    requires 0.0 < discountPercentage <= 99.0
    ensures 0.0 <= DiscountedPrice(cents as real / 100.0, discountPercentage) <= cents as real / 100.0
  {
    var price := cents as real / 100.0;
    var amount := price * (1.0 - discountPercentage / 100.0);
    ScaledBelow(price, 1.0 - discountPercentage / 100.0);
    assert 100.0 * price == cents as real;
    assert 100.0 * amount < cents as real;
    Round2Below(amount, cents);
    assert DiscountedPrice(price, discountPercentage) == Round2(amount);
  }

  /** Below a whole cent the bound [0, price] fails: 1% off 0.006 rounds up to 0.01. */
  lemma SubCentPriceRoundsAbovePrice()
    ensures DiscountedPrice(0.006, 1.0) == 0.01
    ensures DiscountedPrice(0.006, 1.0) > 0.006
  {
    assert (0.00594 * 100.0 + 0.5).Floor == 1;
  }

  /** 10% off 100.00 is 90.00. */
  lemma TenPercentOffHundred(p: ProductRecord)
    requires ListedPrice(p) == Some(100.0)
    ensures DiscountPatch(Some(p), 10.0) == Some(Patch(90.0, Discount("PERCENT", Some(10.0))))
  {
  }

  /** The validation rejects only an absent or zero price: a negative price is discounted too. */
  lemma NegativePriceAccepted(p: ProductRecord)
    requires ListedPrice(p) == Some(-5.0)
    ensures DiscountPatch(Some(p), 10.0).Some?
    ensures DiscountPatch(Some(p), 10.0).value.discountedPrice == -4.5
  {
  }

  /** The calls `applyDiscountToProduct` issues: the lookup, then the update when the price is valid. */
  function ServiceRequests(productId: string, patch: Option<Patch>): seq<Request>
  {
    [Get(productId)] + if patch.Some? then [Update(productId, patch.value)] else []
  }

  /** `applyDiscountToProduct`: fetch, validate the price, send one update, report success.
      Every failure is reported as `false`. */
  method ApplyDiscountToProduct(client: CatalogClient, productId: string, discountPercentage: real) returns (ok: bool)
    modifies client`requests, client`products
    ensures var patch := DiscountPatch(GetResult(old(client.online), old(client.products), productId), discountPercentage);
      && ok == (patch.Some? && client.acceptsUpdates)
      && client.requests == old(client.requests) + ServiceRequests(productId, patch)
      && client.products == if ok then ApplyPatch(old(client.products), productId, patch.value) else old(client.products)
  {
    var product := client.GetProduct(productId);
    var patch := DiscountPatch(product, discountPercentage);
    if patch.None? {
      return false;
    }
    ok := client.UpdateProduct(productId, patch.value);
  }
}
