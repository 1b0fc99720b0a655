# Most expensive undiscounted product — a Dafny model

This is a model of the decision logic in a store-dashboard widget. The widget finds the highest-priced catalogue product that is not already discounted, and it lets an operator apply a percentage discount to that product. The model covers three pieces of code:

- **The dashboard service** (`src/services/product-service.ts`):
  - `getMostExpensiveNonDiscountedProduct` takes the first 100 items of a catalogue query.
    - It keeps the items that have a price and either no `discountedPrice` or a `discountedPrice` that is falsy or at least the price.
    - It sorts them by price, largest first.
    - It projects the top item into a `Product`, filling in defaults for missing fields.
  - `applyDiscountToProduct` fetches the product and rejects a missing or zero price.
    - Otherwise it sends one update: `round2(price * (1 - pct/100))` plus a `PERCENT` descriptor.
    - Any failure comes back as `false`.
- **The backend selector** (`src/backend/productService.ts`). It does the same job with a different test: it keeps an item when `discount?.value` is falsy. It sorts the filtered copy in place by `price.amount` and returns that array's first element, without projecting it.
- **The discount page** (`src/dashboard/pages/discount-page/page.tsx`). Its apply handler runs four ordered early-return guards: no product, empty id, percentage outside (0, 99], already applying. It then sets the in-flight flag, calls the service, refetches and shows a toast, and clears the flag in `finally`. A separate nested conditional picks the message shown in place of the product card.

## Layout

- `catalog.dfy` (`Catalog`) holds the catalogue record and the update patch. It also has `CatalogClient`, a class that stands in for the platform's query, get and update calls.
  - The class holds the catalogue and two failure switches: `online` and `acceptsUpdates`.
  - It logs every request it receives.
- `sequences.dfy` (`Sequences`) holds `Filter`, a pure comprehension, and `SortDescending`, an in-place insertion sort of an `array`. The sort is proved sorted and a permutation.
- `product_service.dfy` (`ProductService`) holds the service selector, the rounding, the discount payload and `ApplyDiscountToProduct`.
- `backend_product_service.dfy` (`BackendProductService`) holds the backend selector.
- `selector_comparison.dfy` (`SelectorComparison`) holds lemmas on where the two selectors disagree. It also says what each selector makes of a record after a discount was applied to it.
- `discount_page.dfy` (`DiscountPage`) holds the guard chain and the fallback message as functions, and the page as the class `DiscountDashboardPage`.
  - The class fields are `product`, `isLoading`, `error`, `discountPercentage`, `isApplying`, `successMessage` and `toasts`.
  - A ghost log records the flag, the message and the client's request count just before each service call, which pins the calls' order against the state changes.

Both selectors work like the source. The filter copies the input into a fresh array, the array is sorted in place, and the first element is read. The input sequence is a value, so it is never changed.

Three behaviours of the code are easy to miss:

- The service's filter never looks at the `discount` descriptor. So, for a catalogue of a 100.00 product with a 20% descriptor and an 80.00 product, the service answers the 100.00 one; only the backend answers the 80.00 one. See `ServiceOnExample` and `BackendOnExample`.
- Among the modelled prices, the price check in `applyDiscountToProduct` rejects only an absent or zero price. A negative price is discounted (`NegativePriceAccepted`).
- The service's filter drops a record without `priceData.price` before sorting. The backend's filter never looks at prices, so a record without `price` survives it whenever its discount value is falsy. If that record is the only survivor, it is returned. If two or more records survive, the sort comparator reads `price.amount` on it and the call rejects with a type error.

## Model

| member | source | states |
|---|---|---|
| Catalog.Truthy | src/services/product-service.ts:24 | JavaScript truthiness of an optional number: present and nonzero (definition; used for `!discountedPrice`, `!originalPrice` at line 65 and `!p.discount?.value` in src/backend/productService.ts) |
| Catalog.FindById | src/services/product-service.ts:60-61 | The record the get-by-id call answers is the first one in the catalogue carrying the requested id; there is none exactly when no record has that id |
| Catalog.GetResult | src/services/product-service.ts:60-61 | What the stand-in client answers for `getProduct`: the record `FindById` finds, or nothing when unreachable (definition) |
| Catalog.ApplyPatch | src/services/product-service.ts:73-81 | What the stand-in client does for a successful `updateProduct`: `PatchRecord` on every record with that id, every other record unchanged (definition) |
| Catalog.PatchRecord | src/services/product-service.ts:73-81 | Merging an update sets `priceData.discountedPrice` and the descriptor, and keeps every other field: the price, the currency, id, name, `price.amount`, image and description |
| Catalog.CatalogClient.constructor | src/services/product-service.ts:2 | A client starts with its catalogue, its two failure switches and an empty request log |
| Catalog.CatalogClient.QueryProducts | src/services/product-service.ts:17 | A query is logged and answers the whole catalogue in platform order, or fails when the platform is unreachable |
| Catalog.CatalogClient.GetProduct | src/services/product-service.ts:60-61 | A lookup is logged and answers the record with that id, or nothing when unreachable or unknown |
| Catalog.CatalogClient.UpdateProduct | src/services/product-service.ts:73-81 | An update is logged; it succeeds exactly when the platform is online, accepts writes and knows the id, and only then is the patch merged |
| Sequences.Filter | src/backend/productService.ts:7 | The filtered copy holds exactly the input elements the predicate accepts, and is no longer than the input (multiplicity and order: the next two rows) |
| Sequences.FilterCount | src/backend/productService.ts:7 | Each accepted element occurs in the copy as often as in the input; each rejected one does not occur |
| Sequences.FilterAppend | src/backend/productService.ts:7 | Filtering keeps order: the filter of a concatenation is the concatenation of the filters |
| Sequences.HeadIsMax | src/services/product-service.ts:31-37 | The first element of a descending sequence has the largest key of all its elements |
| Sequences.SortDescending | src/backend/productService.ts:11 | Sorting in place leaves the array ordered by key, largest first, and a permutation of what it held |
| ProductService.QueryPage | src/services/product-service.ts:17-19 | The query yields the first min(n, 100) items in order, and nothing when it fails |
| ProductService.OnlyFirstPageConsidered | src/services/product-service.ts:17 | Catalogue items beyond the first 100 never change what the selector sees |
| ProductService.ListedPrice | src/services/product-service.ts:23 | `priceData?.price`, read by the filter and by the price check at line 63 (definition) |
| ProductService.PriceOrZero | src/services/product-service.ts:32-34 | The sort key `priceData?.price ?? 0` (definition; no contract of its own) |
| ProductService.ServiceEligible | src/services/product-service.ts:21-27 | The service's filter predicate (definition; characterised by `ServiceEligibleIff`) |
| ProductService.ServiceEligibleIff | src/services/product-service.ts:21-27 | An item is eligible exactly when it has a price and its discounted price is absent, zero or at least the price |
| ProductService.DiscountedRecordExcluded | src/services/product-service.ts:21-27 | A positive discounted price below the price always excludes the item |
| ProductService.Project | src/services/product-service.ts:39-47 | The projection into a `Product` with its defaults (definition; characterised by `ProjectFields`) |
| ProductService.ProjectFields | src/services/product-service.ts:39-47 | Present fields are copied; missing ones become "000", "Unnamed Product", "USD", "/placeholder.svg" and ""; for an eligible item the price default 0 is never used |
| ProductService.GetMostExpensiveNonDiscountedProduct | src/services/product-service.ts:15-52 | The answer is null exactly when no item of the first page is eligible (a failed or empty query included); otherwise it is the projection of an eligible item whose price is at least every eligible item's price |
| ProductService.SelectionPriceDetermined | src/services/product-service.ts:29-37 | Any two admissible answers agree on being null and on the price, so re-running on the same snapshot gives the same price |
| ProductService.HalfUpCents | src/services/product-service.ts:70 | Rounding to cents lands within half a cent of the amount, halves rounding up |
| ProductService.WholeCents | src/services/product-service.ts:69-71 | An amount is a whole number of cents (definition) |
| ProductService.Round2 | src/services/product-service.ts:69-71 | `Number(x.toFixed(2))` is a whole number of cents in (x - 0.005, x + 0.005] for x >= 0 and in [x - 0.005, x + 0.005) for x < 0, so halves round away from zero |
| ProductService.Round2Unique | src/services/product-service.ts:69-71 | Those clauses fix the value: any whole number of cents within the bounds equals `Round2(x)` |
| ProductService.Round2OfCents | src/services/product-service.ts:69-71 | An amount already in whole cents is unchanged by rounding |
| ProductService.DiscountedPrice | src/services/product-service.ts:69-71 | The discounted price is a whole number of cents in the same half-open interval around price * (1 - pct/100) as `Round2`'s, so its value is fixed |
| ProductService.DiscountPatch | src/services/product-service.ts:60-81 | No update is built exactly when the product is missing or its price is absent or 0; otherwise the update carries the rounded discounted price and the descriptor {PERCENT, pct} |
| ProductService.DiscountWithinPrice | src/services/product-service.ts:69-71 | For a positive whole-cent price and 0 < pct <= 99 the discounted price lies in [0, price] |
| ProductService.SubCentPriceRoundsAbovePrice | src/services/product-service.ts:69-71 | Without whole-cent prices that bound fails: 1% off 0.006 gives 0.01, above the price |
| ProductService.TenPercentOffHundred | src/services/product-service.ts:69-81 | 10% off 100.00 sends 90.00 with descriptor {PERCENT, 10} |
| ProductService.NegativePriceAccepted | src/services/product-service.ts:65 | A negative price passes the validation and is discounted |
| ProductService.ServiceRequests | src/services/product-service.ts:60-81 | The calls `applyDiscountToProduct` issues: the lookup, then the update only when a patch was built (definition) |
| ProductService.ApplyDiscountToProduct | src/services/product-service.ts:55-92 | One lookup is always issued; the single update is issued only for a valid price; the result is true exactly when that update went through, and the catalogue changes only then |
| BackendProductService.DiscountValue | src/backend/productService.ts:7 | `p.discount?.value` (definition) |
| BackendProductService.BackendEligible | src/backend/productService.ts:7 | The backend's filter predicate, as written (definition; characterised by `BackendEligibleIff`) |
| BackendProductService.BackendEligibleIff | src/backend/productService.ts:7 | An item is kept exactly when its discount value is absent or zero; the `=== 0` test is subsumed, and negative values exclude |
| BackendProductService.Amount | src/backend/productService.ts:11 | `price.amount`, the backend's sort key, 0 for a record without `price` (definition) |
| BackendProductService.ComparatorThrows | src/backend/productService.ts:11 | The sort throws exactly when two or more records survive and one lacks `price` (definition; used by `GetMostExpensiveUndiscountedProduct`) |
| BackendProductService.GetMostExpensiveUndiscountedProduct | src/backend/productService.ts:3-14 | The call rejects exactly when two or more items survive the filter and one lacks a price; otherwise it returns null exactly when none survives, else one of the input records, unprojected, that passes the filter and whose amount is at least that of every surviving item |
| BackendProductService.SingleSurvivorNeedsNoPrice | src/backend/productService.ts:9-13 | A lone survivor without a price is returned, since the comparator is never called |
| BackendProductService.MissingPriceAmongSeveralThrows | src/backend/productService.ts:11 | Two survivors, one without a price, make the sort throw |
| SelectorComparison.DiscountValueSeenOnlyByBackend | src/backend/productService.ts:7 | A nonzero descriptor value with no discounted price: service keeps it, backend drops it |
| SelectorComparison.DiscountedPriceSeenOnlyByService | src/services/product-service.ts:21-27 | A discounted price below the price with no descriptor: service drops it, backend keeps it |
| SelectorComparison.MissingPriceTreatedDifferently | src/services/product-service.ts:23 | A record without `priceData.price` and without a discount descriptor is excluded by the service and kept by the backend filter |
| SelectorComparison.ServiceOnExample | src/services/product-service.ts:21-47 | For [100.00 with a 20% descriptor, 80.00] the service answers the 100.00 product |
| SelectorComparison.BackendOnExample | src/backend/productService.ts:7-13 | For the same catalogue the backend answers the 80.00 record |
| SelectorComparison.PatchedRecordLeftByBackend | src/backend/productService.ts:7 | After a discount with a nonzero percentage is applied, the backend no longer keeps the record |
| SelectorComparison.PatchedRecordForService | src/services/product-service.ts:21-27 | After a discount is applied, the service still keeps the record exactly when the rounded discounted price is 0 or not below the price |
| SelectorComparison.OneCentSurvivesTenPercent | src/services/product-service.ts:69-71 | A 0.01 product discounted by 10% rounds back to 0.01 and stays eligible for the service |
| DiscountPage.RejectsDiscount | src/dashboard/pages/discount-page/page.tsx:36-37 | The check `isNaN(d) or d <= 0 or d > 99` passes exactly the finite percentages in (0, 99] |
| DiscountPage.RangeCheckExamples | src/dashboard/pages/discount-page/page.tsx:36-40 | 0.5 and 99 pass; 0, 100 and NaN are refused |
| DiscountPage.ApplyGuard | src/dashboard/pages/discount-page/page.tsx:25-44 | Each guard's message appears exactly when its condition fails and every earlier one holds; none appears exactly when all four pass |
| DiscountPage.IdGuardOnlyForEmptyId | src/dashboard/pages/discount-page/page.tsx:31-34 | For a selected record, "Product ID is missing" appears exactly when its id is the empty string (an absent id shows as "000") |
| DiscountPage.FallbackMessage | src/dashboard/pages/discount-page/page.tsx:70-75 | The card is replaced exactly when loading, in error or without product, with precedence loading, then error, then "No non-discounted products found" |
| DiscountPage.DiscountDashboardPage.constructor | src/dashboard/pages/discount-page/page.tsx:20-23 | A new page has the percentage field at 10, the flag clear and no message; from the product hook (src/hooks/useProductsQuery.ts, lines 8-10) it has no product, is loading and has no error |
| DiscountPage.DiscountDashboardPage.SetDiscountPercentage | src/dashboard/pages/discount-page/page.tsx:108 | Editing the field replaces the percentage |
| DiscountPage.DiscountDashboardPage.Refetch | src/hooks/useProductsQuery.ts:12-22 | A refetch issues one query, stores an admissible selector answer for the current catalogue, ends not loading and never sets the error |
| DiscountPage.DiscountDashboardPage.CheckGuards | src/dashboard/pages/discount-page/page.tsx:26-44 | The guards pass exactly when the guard chain finds no rejection; a rejection only sets its message |
| DiscountPage.DiscountDashboardPage.ApplyDiscount | src/dashboard/pages/discount-page/page.tsx:25-67 | A rejected attempt only sets its message and issues no call. An accepted one sets the flag and clears the message before the call (the ghost log shows both while the client has received no request of this attempt), issues the service's calls then one query, shows the success toast whatever the service answered, and ends with the flag clear |
| DiscountPage.DiscountDashboardPage.ApplyDiscountReportingFailure | src/dashboard/pages/discount-page/page.tsx:49-67 | As above, but a `false` from the service sets "Failed to apply discount. Please try again." with no refetch and no toast |
| DiscountPage.ZeroPriceShowsSuccess | src/dashboard/pages/discount-page/page.tsx:50-58 | A product priced 0 is refused by the service, yet the page refetches, shows the success toast and no message |
| DiscountPage.ZeroPriceReportedAsFailure | src/dashboard/pages/discount-page/page.tsx:62-64 | The corrected handler shows the failure message for the same product, with no toast and no refetch |

## Left out

- Prices are exact reals. `toFixed(2)` on IEEE doubles is modelled as exact rounding to cents, with halves rounding away from zero. Binary floating-point error is not modelled.
- NaN and infinite prices or discount values in catalogue records are not modelled. The page's percentage, however, passes through `Number(...)` and is modelled as a JavaScript number (`Num`: finite, +Infinity, -Infinity or NaN). Parsing the text field into that number is not modelled.
- The platform calls (`queryProducts`, `getProduct`, `updateProduct`) are a fake client class with a request log. Their wire format, a response without `items` or `product`, and a record whose `price` exists but has no `amount` are not modelled.
- `typeof originalPrice !== "number"` in `applyDiscountToProduct` (src/services/product-service.ts:65) cannot be expressed: every modelled price is a number, so only the `!originalPrice` half of that check is modelled.
- DiscountWithinPrice: the bound [0, price] is stated only for prices that are whole cents, because it is false otherwise (`SubCentPriceRoundsAbovePrice`).
- A failure of the backend's query is not modelled. The backend never catches it, so it propagates to the caller.
- GetMostExpensiveNonDiscountedProduct: when several eligible items share the top price, the contract does not say which one is returned. JavaScript's stable sort would return the first in query order. The model promises only an eligible item of maximal price (and `SelectionPriceDetermined` shows the price is fixed).
- BackendProductService.GetMostExpensiveUndiscountedProduct: the same tie-break caveat applies.
- Sequences.SortDescending: sorted and a permutation are proved; stability is not.
- The apply handler is one sequential method. `await`, React's state batching and the closure's captured `isApplying` are not modelled. A click that arrives while a call is in flight is modelled as a run that starts with `isApplying` already true.
- Console logging, the toast's styling and the delayed `navigateBack` after two seconds are not modelled. Toasts are recorded only as a list of messages.
- Rendering is not modelled. This covers `MostExpensiveProductCard.tsx` and the product-banner plugin, whose only behaviour is navigating to the page. The page's render branch is modelled as `FallbackMessage`.
- The handler's `catch` branch does not appear in `ApplyDiscount`, because nothing inside that `try` can throw in this model. The service swallows its errors, the refetch swallows the selector's, and the toast call is treated as never failing.
- Likewise `error` in the product hook is never set, because the selector catches every error itself.

## Findings

| source | as written | input that shows it | evidently intended | confidence | as-written member | corrected member |
|---|---|---|---|---|---|---|
| src/dashboard/pages/discount-page/page.tsx:50-64 | The handler awaits `applyDiscountToProduct` and discards its boolean; the service turns every failure into `false`, so the failure message in `catch` is unreachable and a refused update is reported as a success | A selected product whose price is 0: the service issues no update and answers `false`, yet the page refetches and shows "Great! The discount has been applied." | A `false` answer shows "Failed to apply discount. Please try again." and skips the refetch and the toast | high (not executed) | DiscountPage.ZeroPriceShowsSuccess | DiscountPage.ZeroPriceReportedAsFailure |
