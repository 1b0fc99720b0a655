/** The discount dashboard page: its apply handler (an ordered chain of guards, an
    in-flight flag, the service call, a refetch) and the message it shows instead of
    the product card. */
module DiscountPage {
  import opened Catalog
  import opened ProductService

  /** A JavaScript number, as `Number(...)` makes one from the percentage field. */
  datatype Num = Finite(v: real) | PosInf | NegInf | NaN

  const NoProductSelected := "No product selected"
  const ProductIdMissing := "Product ID is missing"
  const DiscountOutOfRange := "Discount must be between 1 and 99"
  const AlreadyApplying := "Already applying discount"
  const ApplyFailed := "Failed to apply discount. Please try again."
  const SuccessToast := "Great! The discount has been applied."
  const LoadingMessage := "Loading..."
  const LoadErrorMessage := "Error loading product"
  const NothingFoundMessage := "No non-discounted products found"

  /** `isNaN(d) || d <= 0 || d > 99` with JavaScript's comparisons (false whenever NaN is involved). */
  function RejectsDiscount(d: Num): (rejected: bool)
    ensures !rejected <==> d.Finite? && 0.0 < d.v <= 99.0
  {
    d.NaN? || (d.NegInf? || (d.Finite? && d.v <= 0.0)) || (d.PosInf? || (d.Finite? && d.v > 99.0))
  }

  /** The range check lets fractional percentages through, and stops 0 and 100. */
  lemma RangeCheckExamples()
    ensures !RejectsDiscount(Finite(0.5)) && !RejectsDiscount(Finite(99.0))
    ensures RejectsDiscount(Finite(0.0)) && RejectsDiscount(Finite(100.0)) && RejectsDiscount(NaN)
  {
  }

  /** The message the handler's guards stop with, in the order they are checked; None when all pass. */
  function ApplyGuard(product: Option<Product>, discount: Num, isApplying: bool): (rejection: Option<string>)
    ensures rejection == Some(NoProductSelected) <==> product.None?
    ensures rejection == Some(ProductIdMissing) <==> product.Some? && product.value.id == ""
    ensures rejection == Some(DiscountOutOfRange) <==>
      product.Some? && product.value.id != "" && RejectsDiscount(discount)
    ensures rejection == Some(AlreadyApplying) <==>
      product.Some? && product.value.id != "" && !RejectsDiscount(discount) && isApplying
    ensures rejection.None? <==>
      product.Some? && product.value.id != "" && discount.Finite? && 0.0 < discount.v <= 99.0 && !isApplying
  {
    if product.None? then Some(NoProductSelected)
    else if product.value.id == "" then Some(ProductIdMissing)
    else if RejectsDiscount(discount) then Some(DiscountOutOfRange)
    else if isApplying then Some(AlreadyApplying)
    else None
  }

  /** A selected record without an identifier is shown with the default id "000", so the
      missing-id guard fires only for a record whose identifier is the empty string. */
  lemma IdGuardOnlyForEmptyId(p: ProductRecord, discount: Num, isApplying: bool)
    ensures ApplyGuard(Some(Project(p)), discount, isApplying) == Some(ProductIdMissing) <==> p.id == Some("")
  {
  }

  /** What the page shows instead of the product card; None when the card is shown. */
  function FallbackMessage(isLoading: bool, error: bool, product: Option<Product>): (message: Option<string>)
    ensures message.None? <==> !isLoading && !error && product.Some?
    ensures isLoading ==> message == Some(LoadingMessage)
    ensures !isLoading && error ==> message == Some(LoadErrorMessage)
    ensures !isLoading && !error && product.None? ==> message == Some(NothingFoundMessage)
  {
    if isLoading || error || product.None? then
      Some(if isLoading then LoadingMessage else if error then LoadErrorMessage else NothingFoundMessage)
    else None
  }

  /** The state of one page: what the product hook holds, the percentage field, the in-flight
      flag, the status message, the toasts shown, and the catalogue client it talks to. */
  class DiscountDashboardPage {
    const client: CatalogClient
    var product: Option<Product>
    var isLoading: bool
    var error: bool
    var discountPercentage: Num
    var isApplying: bool
    var successMessage: Option<string>
    var toasts: seq<string>
    /** The in-flight flag and the message as they stood at each service call, with the
        number of requests the client had received by then. */
    ghost var stateAtCalls: seq<(bool, Option<string>, nat)>

    /** A freshly mounted page, before the first fetch has resolved. */
    constructor (client: CatalogClient)
      ensures this.client == client
      ensures product == None && isLoading && !error
      ensures discountPercentage == Finite(10.0) && !isApplying && successMessage == None
      ensures toasts == [] && stateAtCalls == []
    {
      this.client := client;
      product := None;
      isLoading := true;
      error := false;
      discountPercentage := Finite(10.0);
      isApplying := false;
      successMessage := None;
      toasts := [];
      stateAtCalls := [];
    }

    /** The percentage field changed. */
    method SetDiscountPercentage(d: Num)
      modifies this`discountPercentage
      ensures discountPercentage == d
    {
      discountPercentage := d;
    }

    /** The hook's `refetch`: re-run the selector over the catalogue as it is now. The
        selector never throws, so `error` is never set. */
    method Refetch()
      modifies this`product, this`isLoading, client`requests
      ensures client.requests == old(client.requests) + [Query]
      ensures IsMostExpensiveEligible(QueryPage(if client.online then Some(client.products) else None), product)
      ensures !isLoading
    {
      isLoading := true;
      var response := client.QueryProducts();
      product := GetMostExpensiveNonDiscountedProduct(response);
      isLoading := false;
    }

    /** The four early-return guards of the apply handler. On a rejection the status message
        is set and nothing else changes. */
    method CheckGuards() returns (passed: bool)
      modifies this`successMessage
      ensures var rejection := ApplyGuard(product, discountPercentage, isApplying);
        && passed == rejection.None?
        && successMessage == if passed then old(successMessage) else rejection
    {
      if product.None? {
        successMessage := Some(NoProductSelected);
        return false;
      }
      if product.value.id == "" {
        successMessage := Some(ProductIdMissing);
        return false;
      }
      var discount := discountPercentage;
      if RejectsDiscount(discount) {
        successMessage := Some(DiscountOutOfRange);
        return false;
      }
      if isApplying {
        successMessage := Some(AlreadyApplying);
        return false;
      }
      return true;
    }

    /** `applyDiscount` as written: the service's boolean answer is discarded, so the refetch
        and the success toast follow every call that passed the guards. */
    method ApplyDiscount()
      modifies this`successMessage, this`isApplying, this`product, this`isLoading, this`toasts, this`stateAtCalls
      modifies client`requests, client`products
      ensures var rejection := ApplyGuard(old(product), old(discountPercentage), old(isApplying));
        rejection.Some? ==>
          && successMessage == rejection && isApplying == old(isApplying)
          && product == old(product) && isLoading == old(isLoading)
          && toasts == old(toasts) && stateAtCalls == old(stateAtCalls)
          && client.requests == old(client.requests) && client.products == old(client.products)
      ensures var rejection := ApplyGuard(old(product), old(discountPercentage), old(isApplying));
        rejection.None? ==>
          var id := old(product).value.id;
          var patch := DiscountPatch(GetResult(client.online, old(client.products), id), old(discountPercentage).v);
          && stateAtCalls == old(stateAtCalls) + [(true, None, |old(client.requests)|)]
          && client.products == (if patch.Some? && client.acceptsUpdates then ApplyPatch(old(client.products), id, patch.value) else old(client.products))
          && client.requests == old(client.requests) + ServiceRequests(id, patch) + [Query]
          && IsMostExpensiveEligible(QueryPage(if client.online then Some(client.products) else None), product)
          && toasts == old(toasts) + [SuccessToast]
          && !isLoading && !isApplying && successMessage == None
    {
      var passed := CheckGuards();
      if !passed {
        return;
      }
      isApplying := true;
      successMessage := None;
      stateAtCalls := stateAtCalls + [(isApplying, successMessage, |client.requests|)];
      var applied := ApplyDiscountToProduct(client, product.value.id, discountPercentage.v);
      Refetch();
      toasts := toasts + [SuccessToast];
      isApplying := false;
    }

    /** `applyDiscount` as its failure message intends: a `false` from the service shows
        the failure message, with no refetch and no success toast. */
    method ApplyDiscountReportingFailure()
      modifies this`successMessage, this`isApplying, this`product, this`isLoading, this`toasts, this`stateAtCalls
      modifies client`requests, client`products
      ensures var rejection := ApplyGuard(old(product), old(discountPercentage), old(isApplying));
        rejection.Some? ==>
          && successMessage == rejection && isApplying == old(isApplying)
          && product == old(product) && isLoading == old(isLoading)
          && toasts == old(toasts) && stateAtCalls == old(stateAtCalls)
          && client.requests == old(client.requests) && client.products == old(client.products)
      ensures var rejection := ApplyGuard(old(product), old(discountPercentage), old(isApplying));
        rejection.None? ==>
          var id := old(product).value.id;
          var patch := DiscountPatch(GetResult(client.online, old(client.products), id), old(discountPercentage).v);
          var ok := patch.Some? && client.acceptsUpdates;
          && stateAtCalls == old(stateAtCalls) + [(true, None, |old(client.requests)|)]
          && client.products == (if ok then ApplyPatch(old(client.products), id, patch.value) else old(client.products))
          && !isApplying
          && (ok ==>
                && client.requests == old(client.requests) + ServiceRequests(id, patch) + [Query]
                && IsMostExpensiveEligible(QueryPage(if client.online then Some(client.products) else None), product)
                && toasts == old(toasts) + [SuccessToast]
                && !isLoading && successMessage == None)
          && (!ok ==>
                && client.requests == old(client.requests) + ServiceRequests(id, patch)
                && product == old(product) && isLoading == old(isLoading)
                && toasts == old(toasts) && successMessage == Some(ApplyFailed))
    {
      var passed := CheckGuards();
      if !passed {
        return;
      }
      isApplying := true;
      successMessage := None;
      stateAtCalls := stateAtCalls + [(isApplying, successMessage, |client.requests|)];
      var applied := ApplyDiscountToProduct(client, product.value.id, discountPercentage.v);
      if applied {
        Refetch();
        toasts := toasts + [SuccessToast];
      } else {
        successMessage := Some(ApplyFailed);
      }
      isApplying := false;
    }
  }

  /** The as-written handler reports success for a product whose price is 0: the service
      refuses it, yet the page refetches and shows the success toast. */
  method ZeroPriceShowsSuccess() returns (toasts: seq<string>, message: Option<string>, requests: seq<Request>)
    ensures toasts == [SuccessToast] && message == None
    ensures requests == [Get("p"), Query]
  {
    var record := ProductRecord(Some("p"), None, Some(PriceData(Some(0.0), None, None)), None, None, None, None);
    var client := new CatalogClient([record], true, true);
    var page := new DiscountDashboardPage(client);
    page.Refetch();
    assert page.product.Some? by {
      assert QueryPage(Some([record])) == [record];
      assert ServiceEligible(record);
    }
    assert page.product.value.id == "p";
    page.ApplyDiscount();
    toasts, message, requests := page.toasts, page.successMessage, client.requests[1..];
  }

  /** The corrected handler, on the same page, shows the failure message and no toast. */
  method ZeroPriceReportedAsFailure() returns (toasts: seq<string>, message: Option<string>, requests: seq<Request>)
    ensures toasts == [] && message == Some(ApplyFailed)
    ensures requests == [Get("p")]
  {
    var record := ProductRecord(Some("p"), None, Some(PriceData(Some(0.0), None, None)), None, None, None, None);
    var client := new CatalogClient([record], true, true);
    var page := new DiscountDashboardPage(client);
    page.Refetch();
    assert page.product.Some? by {
      assert QueryPage(Some([record])) == [record];
      assert ServiceEligible(record);
    }
    assert page.product.value.id == "p";
    page.ApplyDiscountReportingFailure();
    toasts, message, requests := page.toasts, page.successMessage, client.requests[1..];
  }
}
