/**
 * The in-memory product store behind the product endpoints: ingestion under a new id,
 * lookup with tenant ownership checks, and the per-tenant listing. The store is a
 * dictionary from product id to the stored record, kept in insertion order as Python
 * keeps it. The new id is drawn by the caller and passed in.
 */
module Products {
  import opened Wrappers
  import Dicts
  import opened Schemas

  /** The record kept for one product. */
  datatype StoredProduct = StoredProduct(
    id: Uuid,
    tenantId: Uuid,
    sku: string,
    name: string,
    fitType: string,
    fabricComposition: Dicts.Dict<string, real>,
    measurements: Dicts.Dict<string, GarmentMeasurements>)

  /** One line of the product listing. */
  datatype ProductSummary = ProductSummary(id: Uuid, sku: string, name: string, fitType: string, sizesCount: nat)

  /** The listing response: the tenant's products and how many there are. */
  datatype ProductList = ProductList(products: seq<ProductSummary>, total: nat)

  /** The HTTP errors a lookup raises. */
  datatype HttpError = NotFound(productId: Uuid) | Forbidden

  function StatusCode(e: HttpError): int {
    match e
    case NotFound(_) => 404
    case Forbidden => 403
  }

  /** `{size: measurements.model_dump() for size, measurements in ...}`. */
  function DumpMeasurements(ms: Dicts.Dict<string, ProductMeasurements>): (r: Dicts.Dict<string, GarmentMeasurements>)
    ensures |r| == |ms|
    ensures forall i :: 0 <= i < |ms| ==> r[i] == (ms[i].0, ModelDump(ms[i].1))
  {
    if ms == [] then []
    else DumpMeasurements(ms[..|ms| - 1]) + [(ms[|ms| - 1].0, ModelDump(ms[|ms| - 1].1))]
  }

  /** The stored sizes are the request's sizes, in the request's order. */
  lemma DumpKeepsSizes(ms: Dicts.Dict<string, ProductMeasurements>)
    ensures Dicts.Keys(DumpMeasurements(ms)) == Dicts.Keys(ms)
  {
    var r := DumpMeasurements(ms);
    assert forall i :: 0 <= i < |ms| ==> Dicts.Keys(r)[i] == r[i].0 == ms[i].0 == Dicts.Keys(ms)[i];
  }

  /** The record `ingest_product` builds for a request. */
  function Record(request: ProductIngestRequest, tenantId: Uuid, productId: Uuid): StoredProduct {
    StoredProduct(productId, tenantId, request.sku, request.name, FitTypeValue(request.fitType),
                  request.fabricComposition, DumpMeasurements(request.measurements))
  }

  /** `get_product`: 404 for an unknown id, 403 for another tenant's product, else the record. */
  function Lookup(store: Dicts.Dict<Uuid, StoredProduct>, productId: Uuid, tenantId: Uuid): (r: Result<StoredProduct, HttpError>)
    ensures r == Failure(NotFound(productId)) <==> !Dicts.HasKey(store, productId)
    ensures r == Failure(Forbidden) <==> Dicts.Get(store, productId).Some? && Dicts.Get(store, productId).value.tenantId != tenantId
    ensures r.Success? <==> Dicts.Get(store, productId).Some? && Dicts.Get(store, productId).value.tenantId == tenantId
    ensures r.Success? ==> Dicts.Get(store, productId) == Some(r.value)
  {
    Dicts.GetSomeIffHasKey(store, productId);
    match Dicts.Get(store, productId)
    case None => Failure(NotFound(productId))
    case Some(product) => if product.tenantId != tenantId then Failure(Forbidden) else Success(product)
  }

  function Summary(p: StoredProduct): ProductSummary {
    ProductSummary(p.id, p.sku, p.name, p.fitType, |p.measurements|)
  }

  /** The listing lines of one tenant's products, in store order. */
  function TenantSummaries(store: Dicts.Dict<Uuid, StoredProduct>, tenantId: Uuid): seq<ProductSummary> {
    if store == [] then []
    else
      var last := store[|store| - 1].1;
      TenantSummaries(store[..|store| - 1], tenantId) + (if last.tenantId == tenantId then [Summary(last)] else [])
  }

  /** `list_products`. */
  function Listing(store: Dicts.Dict<Uuid, StoredProduct>, tenantId: Uuid): (r: ProductList)
    ensures r.total == |r.products|
  {
    var products := TenantSummaries(store, tenantId);
    ProductList(products, |products|)
  }

  /**
   * The listing holds exactly the summaries of the tenant's records: each line comes
   * from a record of the tenant, and each record of the tenant gives a line.
   */
  lemma {:induction false} ListingIsTenantRecords(store: Dicts.Dict<Uuid, StoredProduct>, tenantId: Uuid)
    ensures forall s :: s in TenantSummaries(store, tenantId) ==>
      exists i :: 0 <= i < |store| && store[i].1.tenantId == tenantId && s == Summary(store[i].1)
    ensures forall i :: 0 <= i < |store| && store[i].1.tenantId == tenantId ==> Summary(store[i].1) in TenantSummaries(store, tenantId)
  {
    if store != [] {
      var p := store[..|store| - 1];
      ListingIsTenantRecords(p, tenantId);
      assert forall i :: 0 <= i < |p| ==> p[i] == store[i];
    }
  }

  /** A record added at the end adds its line at the end of its tenant's listing only. */
  lemma ListingAfterAppend(store: Dicts.Dict<Uuid, StoredProduct>, entry: (Uuid, StoredProduct), tenantId: Uuid)
    ensures TenantSummaries(store + [entry], tenantId) ==
      TenantSummaries(store, tenantId) + (if entry.1.tenantId == tenantId then [Summary(entry.1)] else [])
  {
    assert (store + [entry])[..|store|] == store;
  }

  /** The product store of the router. */
  class ProductStore {
    var store: Dicts.Dict<Uuid, StoredProduct>

    /** Every id is stored once, under the record that carries it. */
    ghost predicate Valid()
      reads this
    {
      Dicts.DistinctKeys(store) && forall i :: 0 <= i < |store| ==> store[i].1.id == store[i].0
    }

    constructor()
      ensures store == [] && Valid()
    {
      store := [];
    }

    /**
     * `ingest_product`: stores the record under `productId` and reports the number of
     * sizes. The request's size table is a parsed dictionary, so its keys are unique and
     * its length is `len(request.measurements)`.
     */
    method IngestProduct(request: ProductIngestRequest, tenantId: Uuid, productId: Uuid) returns (response: ProductIngestResponse)
      requires Valid() && Dicts.DistinctKeys(request.measurements)
      modifies this
      ensures Valid()
      ensures store == Dicts.Set(old(store), productId, Record(request, tenantId, productId))
      ensures response == ProductIngestResponse(productId, request.sku, "Product ingested successfully", |request.measurements|)
    {
      var productData := Record(request, tenantId, productId);
      ghost var before := store;
      store := Dicts.Set(store, productId, productData);
      Dicts.SetDistinct(before, productId, productData);
      Dicts.SetEntries(before, productId, productData);
      assert forall i :: 0 <= i < |store| ==> store[i] in before || store[i] == (productId, productData) by {
        forall i | 0 <= i < |store| ensures store[i] in before || store[i] == (productId, productData) {
          assert store[i] in store;
        }
      }
      response := ProductIngestResponse(productId, request.sku, "Product ingested successfully", |request.measurements|);
    }

    /** `get_product`. */
    method GetProduct(productId: Uuid, tenantId: Uuid) returns (r: Result<StoredProduct, HttpError>)
      ensures r == Lookup(store, productId, tenantId)
    {
      var found := Dicts.Get(store, productId);
      if found.None? {
        return Failure(NotFound(productId));
      }
      var product := found.value;
      if product.tenantId != tenantId {
        return Failure(Forbidden);
      }
      return Success(product);
    }

    /** `list_products`. */
    method ListProducts(tenantId: Uuid) returns (r: ProductList)
      ensures r == Listing(store, tenantId)
    {
      var products := TenantSummaries(store, tenantId);
      r := ProductList(products, |products|);
    }

    /** `get_product_by_id`: the stored record, or `None` for an unknown id. */
    method GetProductById(productId: Uuid) returns (r: Option<StoredProduct>)
      requires Valid()
      ensures r == Dicts.Get(store, productId)
      ensures r.None? <==> !Dicts.HasKey(store, productId)
      ensures r.Some? ==> r.value.id == productId
    {
      Dicts.GetSomeIffHasKey(store, productId);
      r := Dicts.Get(store, productId);
      if r.Some? {
        ghost var i :| 0 <= i < |store| && Dicts.Keys(store)[i] == productId;
        Dicts.GetAt(store, i);
      }
    }
  }

  // --- Store properties ---

  /** Ingesting under a fresh id appends exactly one entry. */
  lemma IngestAppends(store: Dicts.Dict<Uuid, StoredProduct>, request: ProductIngestRequest, tenantId: Uuid, productId: Uuid)
    requires !Dicts.HasKey(store, productId)
    ensures Dicts.Set(store, productId, Record(request, tenantId, productId)) == store + [(productId, Record(request, tenantId, productId))]
    ensures |Dicts.Set(store, productId, Record(request, tenantId, productId))| == |store| + 1
  {
  }

  /** Ingesting leaves every other product as it was. */
  lemma IngestLeavesOthers(store: Dicts.Dict<Uuid, StoredProduct>, request: ProductIngestRequest, tenantId: Uuid, productId: Uuid, other: Uuid)
    requires other != productId
    ensures Dicts.Get(Dicts.Set(store, productId, Record(request, tenantId, productId)), other) == Dicts.Get(store, other)
  {
    Dicts.GetSetOther(store, productId, Record(request, tenantId, productId), other);
  }

  /**
   * After ingestion the owner reads back the record, whose sizes are the request's and
   * whose size count is the one reported; any other tenant is refused with 403.
   */
  lemma IngestThenGet(store: Dicts.Dict<Uuid, StoredProduct>, request: ProductIngestRequest, tenantId: Uuid, productId: Uuid, caller: Uuid)
    ensures var after := Dicts.Set(store, productId, Record(request, tenantId, productId));
      && (caller == tenantId ==> Lookup(after, productId, caller) == Success(Record(request, tenantId, productId)))
      && (caller != tenantId ==> Lookup(after, productId, caller) == Failure(Forbidden))
    ensures Dicts.Keys(Record(request, tenantId, productId).measurements) == Dicts.Keys(request.measurements)
    ensures Summary(Record(request, tenantId, productId)).sizesCount == |request.measurements|
  {
    Dicts.GetSetSame(store, productId, Record(request, tenantId, productId));
    DumpKeepsSizes(request.measurements);
  }

  /** A fresh product shows up at the end of its owner's listing and in no other tenant's. */
  lemma IngestThenList(store: Dicts.Dict<Uuid, StoredProduct>, request: ProductIngestRequest, tenantId: Uuid, productId: Uuid, caller: Uuid)
    requires !Dicts.HasKey(store, productId)
    ensures var after := Dicts.Set(store, productId, Record(request, tenantId, productId));
      TenantSummaries(after, caller) ==
        TenantSummaries(store, caller) + (if caller == tenantId then [Summary(Record(request, tenantId, productId))] else [])
  {
    ListingAfterAppend(store, (productId, Record(request, tenantId, productId)), caller);
  }
}
