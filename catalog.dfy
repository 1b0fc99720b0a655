/** Catalogue items as the hosted store platform returns them, and a fake
    catalogue client standing for the platform's query / get / update calls. */
module Catalog {

  datatype Option<+T> = None | Some(value: T)

  /** JavaScript truthiness of an optional number: absent and 0 are falsy. */
  predicate Truthy(n: Option<real>)
  {
    n.Some? && n.value != 0.0
  }

  /** The `priceData` part of a catalogue item. */
  datatype PriceData = PriceData(price: Option<real>, discountedPrice: Option<real>, currency: Option<string>)

  /** A discount descriptor: its `type` and its `value`. */
  datatype Discount = Discount(kind: string, value: Option<real>)

  /** One catalogue item. Both data shapes the platform may return are present:
      `priceData` (read by the dashboard service) and `price`, the `price.amount`
      read by the backend selector. `imageUrl` is `media.mainMedia.image.url`. */
  datatype ProductRecord = ProductRecord(
    id: Option<string>,
    name: Option<string>,
    priceData: Option<PriceData>,
    price: Option<real>,
    discount: Option<Discount>,
    imageUrl: Option<string>,
    description: Option<string>)

  /** The partial record sent by an update: a new discounted price and a discount descriptor. */
  datatype Patch = Patch(discountedPrice: real, discount: Discount)

  /** A remote call issued to the platform. */
  datatype Request = Query | Get(id: string) | Update(id: string, patch: Patch)

  /** The first record whose identifier is `id`, if any. */
  function FindById(products: seq<ProductRecord>, id: string): (r: Option<ProductRecord>)
    ensures r.Some? ==> r.value in products && r.value.id == Some(id)
    ensures r.Some? ==>
      exists i :: 0 <= i < |products| && products[i] == r.value && forall j :: 0 <= j < i ==> products[j].id != Some(id)
    ensures r.None? <==> forall p :: p in products ==> p.id != Some(id)
  {
    if |products| == 0 then None
    else if products[0].id == Some(id) then Some(products[0])
    else FindById(products[1..], id)
  }

  /** What a get-by-id call answers: None when the platform is unreachable or the id is unknown. */
  function GetResult(online: bool, products: seq<ProductRecord>, id: string): Option<ProductRecord>
  {
    if online then FindById(products, id) else None
  }

  /** A record after `patch` has been merged into it. */
  function PatchRecord(p: ProductRecord, patch: Patch): (r: ProductRecord)
    ensures r.priceData.Some? && r.priceData.value.discountedPrice == Some(patch.discountedPrice)
    ensures r.discount == Some(patch.discount)
    ensures p.priceData.Some? ==> r.priceData.value.price == p.priceData.value.price
    ensures p.priceData.Some? ==> r.priceData.value.currency == p.priceData.value.currency
    ensures p.priceData.None? ==> r.priceData.value.price.None? && r.priceData.value.currency.None?
    ensures r.id == p.id && r.name == p.name && r.price == p.price
    ensures r.imageUrl == p.imageUrl && r.description == p.description
  {
    var pd := if p.priceData.Some? then p.priceData.value else PriceData(None, None, None);
    p.(priceData := Some(pd.(discountedPrice := Some(patch.discountedPrice))), discount := Some(patch.discount))
  }

  /** The catalogue after `patch` has been merged into every record with identifier `id`. */
  function ApplyPatch(products: seq<ProductRecord>, id: string, patch: Patch): seq<ProductRecord>
  {
    seq(|products|, i requires 0 <= i < |products| =>
      if products[i].id == Some(id) then PatchRecord(products[i], patch) else products[i])
  }

  /** A stand-in for the platform: the catalogue it holds, whether it answers at all,
      whether it accepts writes, and the log of every call it received. */
  class CatalogClient {
    var products: seq<ProductRecord>
    var online: bool
    var acceptsUpdates: bool
    var requests: seq<Request>

    constructor (products: seq<ProductRecord>, online: bool, acceptsUpdates: bool)
      ensures this.products == products && this.online == online && this.acceptsUpdates == acceptsUpdates
      ensures requests == []
    {
      this.products := products;
      this.online := online;
      this.acceptsUpdates := acceptsUpdates;
      requests := [];
    }

    /** `queryProducts().find()`: the whole catalogue in platform order, None when the call fails. */
    method QueryProducts() returns (r: Option<seq<ProductRecord>>)
      modifies this`requests
      ensures requests == old(requests) + [Query]
      ensures r == if online then Some(products) else None
    {
      requests := requests + [Query];
      r := if online then Some(products) else None;
    }

    /** `getProduct(id)`: None when the call fails or no record has that id. */
    method GetProduct(id: string) returns (r: Option<ProductRecord>)
      modifies this`requests
      ensures requests == old(requests) + [Get(id)]
      ensures r == GetResult(online, products, id)
    {
      requests := requests + [Get(id)];
      r := GetResult(online, products, id);
    }

    /** `updateProduct(id, patch)`: fails when the platform is unreachable, refuses writes or
        knows no record with that id; otherwise the patch is merged into the catalogue. */
    method UpdateProduct(id: string, patch: Patch) returns (ok: bool)
      modifies this`requests, this`products
      ensures requests == old(requests) + [Update(id, patch)]
      ensures ok == (online && acceptsUpdates && FindById(old(products), id).Some?)
      ensures products == if ok then ApplyPatch(old(products), id, patch) else old(products)
    {
      requests := requests + [Update(id, patch)];
      ok := online && acceptsUpdates && FindById(products, id).Some?;
      if ok {
        products := ApplyPatch(products, id, patch);
      }
    }
  }
}
