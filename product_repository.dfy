/** The product queries and the stock decrement of the products repository. */
module ProductRepository {
  import opened Wrappers
  import opened Seqs
  import opened Schema
  import opened Scopes
  import opened Query

  /** Products per page of the active listing. */
  const PAGE_LIMIT: int := 6

  /** `active()`. */
  function ActiveProducts(db: Db): map<int, Product> {
    Where(db.products, IsActive)
  }

  /** `active()->toRaffle()`: active products whose raffle date is not after `now`. */
  function ProductsToRaffle(db: Db, now: int): map<int, Product> {
    Where(ActiveProducts(db), p => ToRaffle(p, now))
  }

  /** `active()->findOrFail($id)`, with ModelNotFoundException turned into ProductNotFoundException. */
  function FindActiveProductById(db: Db, id: int): (r: Result<Product, Exception>)
    ensures r.Success? <==> id in db.products && IsActive(db.products[id])
    ensures r.Success? ==> r.value == db.products[id]
    ensures r.Failure? ==> r.error == ProductNotFound
  {
    match FindOrFail(ActiveProducts(db), id)
    case Success(p) => Success(p)
    case Failure(_) => Failure(ProductNotFound)
  }

  /**
   * `active()->forSlug($slug)->firstOrFail()`, with ModelNotFoundException turned into
   * ProductNotFoundException. The brand and category it eager-loads are not part of this model.
   */
  ghost function FindActiveProductBySlugWithBrandAndCategory(db: Db, slug: string): (r: Result<Product, Exception>)
    ensures r.Success? <==> exists id :: id in db.products && IsActive(db.products[id]) && ForSlug(db.products[id], slug)
    ensures r.Success? ==> IsActive(r.value) && ForSlug(r.value, slug) && r.value in db.products.Values
    ensures r.Failure? ==> r.error == ProductNotFound
  {
    match FirstOrFail(Where(ActiveProducts(db), p => ForSlug(p, slug)))
    case Success(p) => Success(p)
    case Failure(_) => Failure(ProductNotFound)
  }

  /** Slugs are unique, so the slug lookup finds the one active product carrying it. */
  lemma SlugLookupIsUnique(db: Db, slug: string, id: int)
    requires ProductsValid(db)
    requires id in db.products && IsActive(db.products[id]) && ForSlug(db.products[id], slug)
    ensures FindActiveProductBySlugWithBrandAndCategory(db, slug) == Success(db.products[id])
  {
    var r := FindActiveProductBySlugWithBrandAndCategory(db, slug);
    var other :| other in db.products && db.products[other] == r.value;
    assert other == id;
  }

  /** `active()->toRaffle()->findOrFail($id)`; the ModelNotFoundException is not translated. */
  function FindActiveProductToRaffleById(db: Db, id: int, now: int): (r: Result<Product, Exception>)
    ensures r.Success? <==> id in db.products && IsActive(db.products[id]) && db.products[id].raffleDate <= now
    ensures r.Success? ==> r.value == db.products[id]
    ensures r.Failure? ==> r.error == ModelNotFound
  {
    FindOrFail(ProductsToRaffle(db, now), id)
  }

  /** `active()->toRaffle()->pluck('id')`, in the order `rowOrder` the database returns rows in. */
  function GetActiveProductIdsToRaffle(db: Db, rowOrder: seq<int>, now: int): (r: seq<int>)
    ensures forall id :: id in r ==> id in db.products && IsActive(db.products[id]) && ToRaffle(db.products[id], now)
    ensures NoDuplicates(rowOrder) ==> NoDuplicates(r)
  {
    Pluck(ProductsToRaffle(db, now), rowOrder)
  }

  /** Read over the whole table, the raffle list holds exactly the eligible products, each once. */
  lemma RaffleListIsExact(db: Db, rowOrder: seq<int>, now: int)
    requires Enumerates(rowOrder, db.products.Keys)
    ensures NoDuplicates(GetActiveProductIdsToRaffle(db, rowOrder, now))
    ensures forall id :: id in GetActiveProductIdsToRaffle(db, rowOrder, now) <==>
      id in db.products && IsActive(db.products[id]) && ToRaffle(db.products[id], now)
    ensures |GetActiveProductIdsToRaffle(db, rowOrder, now)| == |ProductsToRaffle(db, now)|
  {
    PluckCardinality(ProductsToRaffle(db, now), rowOrder, db.products.Keys);
  }

  /**
   * `where('id', $id)->decrement('qty')`: no row matches an unknown id, and taking the unsigned
   * column below zero is refused by the database.
   */
  function DecrementStockQty(db: Db, productId: int): (r: Result<Db, Exception>)
    ensures r.Failure? <==> productId in db.products && db.products[productId].qty < 1
    ensures r.Failure? ==> r.error == QueryException(OutOfRange("qty"))
    ensures r.Success? ==> r.value == db.(products := r.value.products)
    ensures r.Success? ==> r.value.products.Keys == db.products.Keys
    ensures r.Success? ==> forall id :: id in db.products && id != productId ==> r.value.products[id] == db.products[id]
    ensures r.Success? && productId in db.products ==>
      r.value.products[productId] == db.products[productId].(qty := db.products[productId].qty - 1)
  {
    if productId !in db.products then
      Success(db)
    else
      var p := db.products[productId];
      if p.qty - 1 < 0 then
        Failure(QueryException(OutOfRange("qty")))
      else
        Success(db.(products := db.products[productId := p.(qty := p.qty - 1)]))
  }

  /** A decrement keeps every constraint and every order settled. */
  lemma DecrementStockQtyPreservesConsistency(db: Db, productId: int)
    requires Consistent(db)
    ensures DecrementStockQty(db, productId).Success? ==> Consistent(DecrementStockQty(db, productId).value)
  {
    var r := DecrementStockQty(db, productId);
    if r.Success? {
      var db' := r.value;
      assert forall id :: id in db.products ==>
        db'.products[id] == db.products[id].(qty := db'.products[id].qty) && 0 <= db'.products[id].qty <= db.products[id].qty;
      assert ProductsValid(db');
      assert EntriesValid(db') && OrdersValid(db') && OrdersSettled(db');
    }
  }

  /**
   * `active()->simplePaginate(PAGE_LIMIT)` on page `page` (a page below 1 reads as page 1): the
   * active products, in row order, from position (page - 1) * PAGE_LIMIT on, at most PAGE_LIMIT of them.
   */
  function ActiveProductsPage(db: Db, rowOrder: seq<int>, page: int): (r: seq<Product>)
    ensures |r| <= PAGE_LIMIT
    ensures forall i :: 0 <= i < |r| ==> IsActive(r[i]) && r[i] in db.products.Values
  {
    var ids := Pluck(ActiveProducts(db), rowOrder);
    var first := PageStart(page);
    var window := if first < |ids| then Take(ids[first..], PAGE_LIMIT) else [];
    assert forall i :: 0 <= i < |window| ==> window[i] in ids;
    seq(|window|, i requires 0 <= i < |window| => db.products[window[i]])
  }

  /** The position in the listing of the first product of page `page`. */
  function PageStart(page: int): (r: nat)
    ensures page >= 1 ==> r == (page - 1) * PAGE_LIMIT
  {
    if page < 1 then 0 else (page - 1) * PAGE_LIMIT
  }

  /** The `i`-th product of a page is the listing's product at the page's start plus `i`. */
  lemma ActivePageEntry(db: Db, rowOrder: seq<int>, page: int, i: int)
    requires 0 <= i < |ActiveProductsPage(db, rowOrder, page)|
    ensures PageStart(page) + i < |Pluck(ActiveProducts(db), rowOrder)|
    ensures ActiveProductsPage(db, rowOrder, page)[i] == db.products[Pluck(ActiveProducts(db), rowOrder)[PageStart(page) + i]]
  {
  }

  /**
   * Read over the whole table, a page holds as many products as remain from its start, up to
   * PAGE_LIMIT: a full page while at least PAGE_LIMIT active products are left, and none past the end.
   */
  lemma ActivePageSize(db: Db, rowOrder: seq<int>, page: int)
    requires Enumerates(rowOrder, db.products.Keys)
    ensures var n, first := |ActiveProducts(db)|, PageStart(page);
      |ActiveProductsPage(db, rowOrder, page)| ==
        if n <= first then 0 else if n - first < PAGE_LIMIT then n - first else PAGE_LIMIT
  {
    PluckCardinality(ActiveProducts(db), rowOrder, db.products.Keys);
  }

  /** Read over the whole table, every active product is listed on some page. */
  lemma ActivePagesCover(db: Db, rowOrder: seq<int>, id: int)
    requires Enumerates(rowOrder, db.products.Keys)
    requires id in db.products && IsActive(db.products[id])
    ensures exists page :: page >= 1 && db.products[id] in ActiveProductsPage(db, rowOrder, page)
  {
    var ids := Pluck(ActiveProducts(db), rowOrder);
    var k :| 0 <= k < |ids| && ids[k] == id;
    var page := k / PAGE_LIMIT + 1;
    var i := k % PAGE_LIMIT;
    assert PageStart(page) + i == k;
    ActivePageSize(db, rowOrder, page);
    PluckCardinality(ActiveProducts(db), rowOrder, db.products.Keys);
    ActivePageEntry(db, rowOrder, page, i);
    assert ActiveProductsPage(db, rowOrder, page)[i] == db.products[id];
  }

  /**
   * Read over the whole table, no product is listed twice: the same product in two places of the
   * pages is the same place of the same page.
   */
  lemma ActivePagesDisjoint(db: Db, rowOrder: seq<int>, page1: int, i: int, page2: int, j: int)
    requires Linked(db) && Enumerates(rowOrder, db.products.Keys)
    requires page1 >= 1 && 0 <= i < |ActiveProductsPage(db, rowOrder, page1)|
    requires page2 >= 1 && 0 <= j < |ActiveProductsPage(db, rowOrder, page2)|
    requires ActiveProductsPage(db, rowOrder, page1)[i] == ActiveProductsPage(db, rowOrder, page2)[j]
    ensures page1 == page2 && i == j
  {
    var ids := Pluck(ActiveProducts(db), rowOrder);
    ActivePageEntry(db, rowOrder, page1, i);
    ActivePageEntry(db, rowOrder, page2, j);
    var k1, k2 := PageStart(page1) + i, PageStart(page2) + j;
    assert ids[k1] in db.products && ids[k2] in db.products;
    assert ids[k1] == db.products[ids[k1]].id == db.products[ids[k2]].id == ids[k2];
    assert k1 == k2;
    assert k1 / PAGE_LIMIT == page1 - 1 && k2 / PAGE_LIMIT == page2 - 1;
  }
}
