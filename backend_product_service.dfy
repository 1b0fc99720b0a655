/** The backend's `getMostExpensiveUndiscountedProduct`: filter on the discount
    descriptor, sort the filtered copy in place by `price.amount`, return its head. */
module BackendProductService {
  import opened Catalog
  import Sequences

  /** `p.discount?.value`. */
  function DiscountValue(p: ProductRecord): Option<real>
  {
    if p.discount.Some? then p.discount.value.value else None
  }

  /** The backend's filter, as written: `!p.discount?.value || p.discount?.value === 0`. */
  predicate BackendEligible(p: ProductRecord)
  {
    !Truthy(DiscountValue(p)) || DiscountValue(p) == Some(0.0)
  }

  /** The `=== 0` test adds nothing: a record is kept exactly when it has no discount value
      or a zero one, and any other value, negative ones included, excludes it. */
  lemma BackendEligibleIff(p: ProductRecord)
    ensures BackendEligible(p) <==> DiscountValue(p).None? || DiscountValue(p) == Some(0.0)
    ensures BackendEligible(p) <==> !Truthy(DiscountValue(p))
  {
  }

  /** `p.price.amount`, read by the comparator; 0 stands for a record without `price`,
      whose amount the comparator never returns (it throws first). */
  function Amount(p: ProductRecord): real
  {
    if p.price.Some? then p.price.value else 0.0
  }

  /** The sort's comparator throws: at least two records are compared and one of them has no `price`. */
  predicate ComparatorThrows(filtered: seq<ProductRecord>)
  {
    |filtered| >= 2 && exists p :: p in filtered && p.price.None?
  }

  /** How the call ends: it resolves to a record or `null`, or it rejects with a type error. */
  datatype Outcome = Returned(product: Option<ProductRecord>) | Threw

  /** `r` is what the backend selector may answer for `items`: a rejection exactly when the
      comparator throws; otherwise `null` exactly when no item survives the filter, else one of
      the input records, unprojected, that survives and has the largest amount. */
  ghost predicate IsMostExpensiveUndiscounted(items: seq<ProductRecord>, r: Outcome)
  {
    && (r.Threw? <==> ComparatorThrows(Sequences.Filter(items, BackendEligible)))
    && (r.Returned? ==> (r.product.None? <==> forall p :: p in items ==> !BackendEligible(p)))
    && (r.Returned? && r.product.Some? ==> r.product.value in items && BackendEligible(r.product.value))
    && (r.Returned? && r.product.Some? ==>
          forall q :: q in items && BackendEligible(q) ==> Amount(q) <= Amount(r.product.value))
  }

  /** `getMostExpensiveUndiscountedProduct`, given every item the unlimited query returned. */
  method GetMostExpensiveUndiscountedProduct(items: seq<ProductRecord>) returns (r: Outcome)
    ensures IsMostExpensiveUndiscounted(items, r)
  {
    var filtered := Sequences.Filter(items, BackendEligible);
    if |filtered| == 0 {
      forall p | p in items
        ensures !BackendEligible(p)
      {
        assert p !in filtered;
      }
      return Returned(None);
    }
    if ComparatorThrows(filtered) {
      return Threw;
    }
    var sorted := new ProductRecord[|filtered|](i requires 0 <= i < |filtered| => filtered[i]);
    assert sorted[..] == filtered;
    Sequences.SortDescending(sorted, Amount);
    var top := sorted[0];
    assert top in multiset(sorted[..]);
    assert top in filtered;
    Sequences.HeadIsMax(sorted[..], Amount);
    forall q | q in items && BackendEligible(q)
      ensures Amount(q) <= Amount(top)
    {
      assert q in multiset(filtered);
      assert q in sorted[..];
    }
    r := Returned(Some(top));
  }

  /** A single surviving record is returned even without a price: the comparator is never called. */
  lemma SingleSurvivorNeedsNoPrice(p: ProductRecord)
    requires BackendEligible(p) && p.price.None?
    ensures Sequences.Filter([p], BackendEligible) == [p]
    ensures !ComparatorThrows(Sequences.Filter([p], BackendEligible))
  {
  }

  /** Two surviving records, one without a price, make the call reject. */
  lemma MissingPriceAmongSeveralThrows(p: ProductRecord, q: ProductRecord)
    requires BackendEligible(p) && BackendEligible(q) && p.price.None?
    ensures ComparatorThrows(Sequences.Filter([p, q], BackendEligible))
  {
  }
}
