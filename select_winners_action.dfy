/**
 * Drawing the winners of one product: check stock, check entries, draw up to qty pending
 * entries, and settle each drawn entry in a batch that tolerates failures.
 */
module SelectWinnersAction {
  import opened Wrappers
  import opened Seqs
  import opened Schema
  import opened Scopes
  import opened PaymentService
  import Decimal
  import RaffleStatus
  import OrderStatus
  import PaymentStatus
  import ProductRepository
  import RaffleEntryRepository
  import ChargeWinnerAction

  type ChargeOutcome = ChargeWinnerAction.ChargeOutcome

  /**
   * What the world outside the database decides during a raffle: the order `inRandomOrder`
   * shuffles the entries into when drawing for a product, the payment service's answer when an
   * entry is charged, and the uuid its order gets.
   */
  datatype Oracle = Oracle(randomOrder: int -> seq<int>, payment: int -> PaymentResult, orderCode: int -> string)

  /** How a selection ended: the lookup threw, it stopped early, or a batch of settlements ran. */
  datatype SelectOutcome =
    | Aborted(error: Exception)
    | NoStock
    | NoEntries
    | Batched(name: string, entryIds: seq<int>, results: seq<ChargeOutcome>)

  datatype Selection = Selection(outcome: SelectOutcome, db: Db)

  /** The outcome of each job of a batch, in order, and the state after the last. */
  datatype Batch = Batch(results: seq<ChargeOutcome>, db: Db)

  const BATCH_NAME_PREFIX: string := "charge_raffle_winners_"

  /** `sprintf('charge_raffle_winners_%s', $product->id)`. */
  function BatchName(productId: int): string {
    BATCH_NAME_PREFIX + Decimal.IntToString(productId)
  }

  /** Each product's batch has its own name, and the product can be read back from it. */
  lemma BatchNameIdentifiesProduct(a: int, b: int)
    ensures BatchName(a)[..|BATCH_NAME_PREFIX|] == BATCH_NAME_PREFIX
    ensures Decimal.ParseInt(BatchName(a)[|BATCH_NAME_PREFIX|..]) == Some(a)
    ensures BatchName(a) == BatchName(b) <==> a == b
  {
    Decimal.IntToStringRoundTrip(a);
    Decimal.IntToStringRoundTrip(b);
    assert BatchName(a)[|BATCH_NAME_PREFIX|..] == Decimal.IntToString(a);
    assert BatchName(b)[|BATCH_NAME_PREFIX|..] == Decimal.IntToString(b);
  }

  /** The product has stock left to raffle. */
  predicate CheckIfProductHasStockToProceed(product: Product) {
    product.qty > 0
  }

  /** The product has at least one pending entry. */
  predicate CheckIfRaffleHasEntriesToProceed(db: Db, product: Product) {
    RaffleEntryRepository.GetEntryCount(db, product.id) > 0
  }

  /**
   * The batch of settlement jobs, one per id in order; a job that fails or is declined does not
   * stop the ones after it, which run on the state it left.
   */
  function SettleBatch(db: Db, ids: seq<int>, oracle: Oracle): (r: Batch)
    requires Linked(db)
    ensures |r.results| == |ids|
    ensures Linked(r.db)
    decreases |ids|
  {
    if ids == [] then
      Batch([], db)
    else
      var charge := ChargeWinnerAction.Handle(db, ids[0], oracle.payment(ids[0]), oracle.orderCode(ids[0]));
      var rest := SettleBatch(charge.db, ids[1..], oracle);
      Batch([charge.outcome] + rest.results, rest.db)
  }

  /** The batch from position `i` on is job `i` followed by the batch from `i + 1` on. */
  lemma SettleBatchStep(db: Db, ids: seq<int>, i: int, oracle: Oracle)
    requires Linked(db) && 0 <= i < |ids|
    ensures var charge := ChargeWinnerAction.Handle(db, ids[i], oracle.payment(ids[i]), oracle.orderCode(ids[i]));
      var rest := SettleBatch(charge.db, ids[i + 1..], oracle);
      SettleBatch(db, ids[i..], oracle) == Batch([charge.outcome] + rest.results, rest.db)
  {
    assert ids[i..][0] == ids[i] && ids[i..][1..] == ids[i + 1..];
  }

  /** Names the batch, draws the winners, and runs one settlement job per drawn entry. */
  function SelectAndChargeWinners(db: Db, product: Product, oracle: Oracle): (r: Selection)
    requires Linked(db)
    ensures r.outcome.Batched? && r.outcome.name == BatchName(product.id)
    ensures r.outcome.entryIds == RaffleEntryRepository.RandomlySelectWinners(db, product, oracle.randomOrder(product.id))
    ensures |r.outcome.results| == |r.outcome.entryIds|
    ensures r.db == SettleBatch(db, r.outcome.entryIds, oracle).db
  {
    var ids := RaffleEntryRepository.RandomlySelectWinners(db, product, oracle.randomOrder(product.id));
    var batch := SettleBatch(db, ids, oracle);
    Selection(Batched(BatchName(product.id), ids, batch.results), batch.db)
  }

  /**
   * Looks the product up among the active products whose raffle date has come, stops when it
   * has no stock, then when it has no pending entry, and otherwise draws and settles.
   */
  function Handle(db: Db, productId: int, now: int, oracle: Oracle): (r: Selection)
    requires Linked(db)
    ensures Linked(r.db)
    ensures !r.outcome.Batched? ==> r.db == db
    ensures r.outcome.Aborted? <==>
      !(productId in db.products && IsActive(db.products[productId]) && ToRaffle(db.products[productId], now))
    ensures r.outcome.Aborted? ==> r.outcome.error == ModelNotFound
    ensures r.outcome.NoStock? <==> !r.outcome.Aborted? && db.products[productId].qty <= 0
    ensures r.outcome.NoEntries? <==>
      !r.outcome.Aborted? && db.products[productId].qty > 0 && RaffleEntryRepository.GetEntryCount(db, productId) == 0
    ensures r.outcome.Batched? ==>
      && r.outcome.name == BatchName(productId)
      && r.outcome.entryIds == RaffleEntryRepository.RandomlySelectWinners(db, db.products[productId], oracle.randomOrder(productId))
      && |r.outcome.results| == |r.outcome.entryIds|
      && r.db == SettleBatch(db, r.outcome.entryIds, oracle).db
  {
    match ProductRepository.FindActiveProductToRaffleById(db, productId, now)
    case Failure(e) => Selection(Aborted(e), db)
    case Success(product) =>
      if !CheckIfProductHasStockToProceed(product) then
        Selection(NoStock, db)
      else if !CheckIfRaffleHasEntriesToProceed(db, product) then
        Selection(NoEntries, db)
      else
        SelectAndChargeWinners(db, product, oracle)
  }

  /** A batch keeps every constraint and every order settled. */
  lemma {:induction false} SettleBatchPreservesConsistency(db: Db, ids: seq<int>, oracle: Oracle)
    requires Consistent(db)
    ensures Consistent(SettleBatch(db, ids, oracle).db)
    decreases |ids|
  {
    if ids != [] {
      ChargeWinnerAction.HandlePreservesConsistency(db, ids[0], oracle.payment(ids[0]), oracle.orderCode(ids[0]));
      var charge := ChargeWinnerAction.Handle(db, ids[0], oracle.payment(ids[0]), oracle.orderCode(ids[0]));
      SettleBatchPreservesConsistency(charge.db, ids[1..], oracle);
    }
  }

  /** A selection keeps every constraint and every order settled. */
  lemma HandlePreservesConsistency(db: Db, productId: int, now: int, oracle: Oracle)
    requires Consistent(db)
    ensures Consistent(Handle(db, productId, now, oracle).db)
  {
    var r := Handle(db, productId, now, oracle);
    if r.outcome.Batched? {
      SettleBatchPreservesConsistency(db, r.outcome.entryIds, oracle);
    }
  }

  /** How many of `ids` the payment service pays with a transaction code. */
  function PaidCount(ids: seq<int>, oracle: Oracle): (n: nat)
    ensures n <= |ids|
  {
    if ids == [] then 0 else (if Pays(oracle.payment(ids[0])) then 1 else 0) + PaidCount(ids[1..], oracle)
  }

  /**
   * The drawn ids can all be charged in turn: distinct entries of the product, whose user and
   * address exist, and no more of them than the product has stock.
   */
  ghost predicate Drawable(db: Db, ids: seq<int>, productId: int) {
    && NoDuplicates(ids)
    && productId in db.products && |ids| <= db.products[productId].qty
    && forall k :: 0 <= k < |ids| ==>
         && ids[k] in db.entries && db.entries[ids[k]].productId == productId
         && db.entries[ids[k]].userId in db.users && db.entries[ids[k]].addressId in db.addresses
  }

  /** The uuids the batch will generate are distinct from each other and from those already stored. */
  ghost predicate CodesFresh(db: Db, ids: seq<int>, oracle: Oracle) {
    && (forall k, l :: 0 <= k < l < |ids| ==> oracle.orderCode(ids[k]) != oracle.orderCode(ids[l]))
    && (forall k, l :: 0 <= k < l < |ids| && Pays(oracle.payment(ids[k])) && Pays(oracle.payment(ids[l])) ==>
          oracle.payment(ids[k]).code != oracle.payment(ids[l]).code)
    && (forall k, i :: 0 <= k < |ids| && 0 <= i < |db.orders| ==> db.orders[i].orderCode != oracle.orderCode(ids[k]))
    && (forall k, i :: 0 <= k < |ids| && 0 <= i < |db.orders| && Pays(oracle.payment(ids[k])) ==>
          db.orders[i].paymentTransactionCode != oracle.payment(ids[k]).code)
  }

  /** An entry after `setWinner`. */
  function Promoted(e: RaffleEntry): RaffleEntry {
    e.(status := RaffleStatus.Value(RaffleStatus.Winner))
  }

  /** From `db` to `db'` the product lost `n` units of stock and no other product changed. */
  ghost predicate StockTaken(db: Db, db': Db, productId: int, n: int) {
    productId in db.products &&
    db'.products == db.products[productId := db.products[productId].(qty := db.products[productId].qty - n)]
  }

  /** From `db` to `db'` exactly the paid entries among `ids` became winners. */
  ghost predicate WinnersMarked(db: Db, db': Db, ids: seq<int>, oracle: Oracle) {
    && db'.entries.Keys == db.entries.Keys
    && forall id :: id in db.entries ==>
         db'.entries[id] == if id in ids && Pays(oracle.payment(id)) then Promoted(db.entries[id]) else db.entries[id]
  }

  /** From `db` to `db'`, `n` completed, successfully paid orders of the product were appended. */
  ghost predicate OrdersAppended(db: Db, db': Db, n: int, productId: int) {
    && 0 <= n
    && |db'.orders| == |db.orders| + n
    && db'.orders[..|db.orders|] == db.orders
    && forall i :: |db.orders| <= i < |db'.orders| ==>
         && db'.orders[i].productId == productId
         && db'.orders[i].status == OrderStatus.Value(OrderStatus.Completed)
         && db'.orders[i].paymentStatus == PaymentStatus.Value(PaymentStatus.Status.Success)
  }

  /** Job k recorded an order exactly when entry ids[k] was paid with a code, and was declined when the answer was falsy. */
  ghost predicate ResultsFollowPayments(results: seq<ChargeOutcome>, ids: seq<int>, oracle: Oracle) {
    && |results| == |ids|
    && forall k :: 0 <= k < |ids| ==>
         && (results[k].Charged? <==> Pays(oracle.payment(ids[k])))
         && (!Truthy(oracle.payment(ids[k])) ==> results[k].Declined?)
  }

  /** The first job of a drawable batch, and what it leaves for the rest. */
  lemma FirstJob(db: Db, ids: seq<int>, oracle: Oracle, productId: int) returns (charge: ChargeWinnerAction.Charge)
    requires Linked(db) && Drawable(db, ids, productId) && CodesFresh(db, ids, oracle) && ids != []
    ensures charge == ChargeWinnerAction.Handle(db, ids[0], oracle.payment(ids[0]), oracle.orderCode(ids[0]))
    ensures Linked(charge.db) && charge.db.users == db.users && charge.db.addresses == db.addresses
    ensures ResultsFollowPayments([charge.outcome], ids[..1], oracle)
    ensures var paid := if Pays(oracle.payment(ids[0])) then 1 else 0;
      && StockTaken(db, charge.db, productId, paid)
      && WinnersMarked(db, charge.db, ids[..1], oracle)
      && OrdersAppended(db, charge.db, paid, productId)
  {
    var id := ids[0];
    var pay := oracle.payment(id);
    charge := ChargeWinnerAction.Handle(db, id, pay, oracle.orderCode(id));
    assert ids[..1] == [id];
    var p := db.products[productId];
    if Pays(pay) {
      assert forall i :: 0 <= i < |db.orders| ==> db.orders[i].orderCode != oracle.orderCode(ids[0]);
      assert forall i :: 0 <= i < |db.orders| ==> db.orders[i].paymentTransactionCode != pay.code;
      assert charge.outcome.Charged?;
      assert charge.db.products == db.products[productId := p.(qty := p.qty - 1)];
      assert charge.db.orders == db.orders + [charge.outcome.order];
    } else {
      assert charge.db == db;
      assert db.products[productId := p.(qty := p.qty - 0)] == db.products;
    }
  }

  /** After the first job, the rest of the batch is still drawable with fresh codes. */
  lemma RestOfBatch(db: Db, ids: seq<int>, oracle: Oracle, productId: int, db': Db)
    requires Drawable(db, ids, productId) && CodesFresh(db, ids, oracle) && ids != []
    requires var paid := if Pays(oracle.payment(ids[0])) then 1 else 0;
      StockTaken(db, db', productId, paid) && WinnersMarked(db, db', ids[..1], oracle) && OrdersAppended(db, db', paid, productId)
    requires db'.users == db.users && db'.addresses == db.addresses
    requires Pays(oracle.payment(ids[0])) ==>
      db'.orders[|db.orders|].orderCode == oracle.orderCode(ids[0]) &&
      db'.orders[|db.orders|].paymentTransactionCode == oracle.payment(ids[0]).code
    ensures Drawable(db', ids[1..], productId) && CodesFresh(db', ids[1..], oracle)
  {
    var rest := ids[1..];
    forall k, l | 0 <= k < l < |rest| ensures rest[k] != rest[l] {
      assert rest[k] == ids[k + 1] && rest[l] == ids[l + 1];
    }
    forall k | 0 <= k < |rest|
      ensures rest[k] in db'.entries && db'.entries[rest[k]].productId == productId
      ensures db'.entries[rest[k]].userId in db'.users && db'.entries[rest[k]].addressId in db'.addresses
    {
      assert rest[k] == ids[k + 1];
    }
    forall k, i | 0 <= k < |rest| && 0 <= i < |db'.orders|
      ensures db'.orders[i].orderCode != oracle.orderCode(rest[k])
      ensures Pays(oracle.payment(rest[k])) ==> db'.orders[i].paymentTransactionCode != oracle.payment(rest[k]).code
    {
      assert rest[k] == ids[k + 1];
      if i < |db.orders| {
        assert db'.orders[i] == db'.orders[..|db.orders|][i] == db.orders[i];
      }
    }
    forall k, l | 0 <= k < l < |rest|
      ensures oracle.orderCode(rest[k]) != oracle.orderCode(rest[l])
      ensures Pays(oracle.payment(rest[k])) && Pays(oracle.payment(rest[l])) ==>
        oracle.payment(rest[k]).code != oracle.payment(rest[l]).code
    {
      assert rest[k] == ids[k + 1] && rest[l] == ids[l + 1];
    }
  }

  /** Two stretches of jobs compose. */
  lemma ComposeStretches(db0: Db, db1: Db, db2: Db, ids: seq<int>, oracle: Oracle, productId: int, n: int, m: int, total: int)
    requires ids != [] && NoDuplicates(ids) && total == n + m
    requires StockTaken(db0, db1, productId, n) && StockTaken(db1, db2, productId, m)
    requires WinnersMarked(db0, db1, ids[..1], oracle) && WinnersMarked(db1, db2, ids[1..], oracle)
    requires OrdersAppended(db0, db1, n, productId) && OrdersAppended(db1, db2, m, productId)
    ensures StockTaken(db0, db2, productId, total)
    ensures WinnersMarked(db0, db2, ids, oracle)
    ensures OrdersAppended(db0, db2, total, productId)
  {
    assert ids[0] !in ids[1..] by {
      forall k | 0 <= k < |ids[1..]| ensures ids[1..][k] != ids[0] {
        assert ids[1..][k] == ids[k + 1];
      }
    }
    forall x | x in db0.entries
      ensures db2.entries[x] == if x in ids && Pays(oracle.payment(x)) then Promoted(db0.entries[x]) else db0.entries[x]
    {
      assert x in ids <==> x in ids[..1] || x in ids[1..] by {
        assert ids == ids[..1] + ids[1..];
      }
    }
    assert db2.orders[..|db0.orders|] == db0.orders by {
      assert db2.orders[..|db1.orders|][..|db0.orders|] == db1.orders[..|db0.orders|];
    }
    forall i | |db0.orders| <= i < |db2.orders|
      ensures db2.orders[i].productId == productId
      ensures db2.orders[i].status == OrderStatus.Value(OrderStatus.Completed)
      ensures db2.orders[i].paymentStatus == PaymentStatus.Value(PaymentStatus.Status.Success)
    {
      if i < |db1.orders| {
        assert db2.orders[i] == db2.orders[..|db1.orders|][i] == db1.orders[i];
      }
    }
  }

  /**
   * The effect of a batch: job k records an order exactly when the payment service pays entry
   * ids[k] with a transaction code, and is declined when it answers falsy; declined and failed
   * jobs leave no trace and do not stop the others. The product loses one unit of stock per paid
   * job, exactly the paid entries become winners, and one completed, successfully paid order of
   * the product is appended per paid job.
   */
  lemma {:induction false} SettleBatchEffect(db: Db, ids: seq<int>, oracle: Oracle, productId: int)
    requires Linked(db)
    requires Drawable(db, ids, productId)
    requires CodesFresh(db, ids, oracle)
    ensures var r := SettleBatch(db, ids, oracle);
      && ResultsFollowPayments(r.results, ids, oracle)
      && StockTaken(db, r.db, productId, PaidCount(ids, oracle))
      && WinnersMarked(db, r.db, ids, oracle)
      && OrdersAppended(db, r.db, PaidCount(ids, oracle), productId)
    decreases |ids|
  {
    var r := SettleBatch(db, ids, oracle);
    if ids == [] {
      assert r.db == db;
    } else {
      var charge := FirstJob(db, ids, oracle, productId);
      var paid := if Pays(oracle.payment(ids[0])) then 1 else 0;
      var n := PaidCount(ids, oracle);
      assert n == paid + PaidCount(ids[1..], oracle);
      RestOfBatch(db, ids, oracle, productId, charge.db);
      SettleBatchEffect(charge.db, ids[1..], oracle, productId);
      var after := SettleBatch(charge.db, ids[1..], oracle);
      assert r.results == [charge.outcome] + after.results && r.db == after.db;
      ComposeStretches(db, charge.db, r.db, ids, oracle, productId, paid, PaidCount(ids[1..], oracle), n);
      ResultsCompose(charge.outcome, after.results, ids, oracle);
    }
  }

  /** The first job's result followed by the rest's follow the payments of the whole batch. */
  lemma ResultsCompose(first: ChargeOutcome, rest: seq<ChargeOutcome>, ids: seq<int>, oracle: Oracle)
    requires ids != []
    requires ResultsFollowPayments([first], ids[..1], oracle)
    requires ResultsFollowPayments(rest, ids[1..], oracle)
    ensures ResultsFollowPayments([first] + rest, ids, oracle)
  {
    var results := [first] + rest;
    forall k | 0 <= k < |ids|
      ensures results[k].Charged? <==> Pays(oracle.payment(ids[k]))
      ensures !Truthy(oracle.payment(ids[k])) ==> results[k].Declined?
    {
      if k > 0 {
        assert results[k] == rest[k - 1] && ids[k] == ids[1..][k - 1];
      } else {
        assert results[0] == first && ids[0] == ids[..1][0];
      }
    }
  }

  /**
   * The uuids and transaction codes of the world are unique: no two entries get the same order
   * code or, when paid, the same transaction code, and none the entries of the product would get
   * is already stored.
   */
  ghost predicate OracleFresh(db: Db, oracle: Oracle, productId: int) {
    && (forall a, b :: a != b ==> oracle.orderCode(a) != oracle.orderCode(b))
    && (forall a, b :: a != b && Pays(oracle.payment(a)) && Pays(oracle.payment(b)) ==>
          oracle.payment(a).code != oracle.payment(b).code)
    && (forall a, i :: a in db.entries && db.entries[a].productId == productId && 0 <= i < |db.orders| ==>
          db.orders[i].orderCode != oracle.orderCode(a))
    && (forall a, i ::
          a in db.entries && db.entries[a].productId == productId && 0 <= i < |db.orders| && Pays(oracle.payment(a)) ==>
          db.orders[i].paymentTransactionCode != oracle.payment(a).code)
  }

  lemma FreshOracleGivesFreshCodes(db: Db, ids: seq<int>, oracle: Oracle, productId: int)
    requires OracleFresh(db, oracle, productId) && NoDuplicates(ids)
    requires forall id :: id in ids ==> id in db.entries && db.entries[id].productId == productId
    ensures CodesFresh(db, ids, oracle)
  {
    forall k, i | 0 <= k < |ids| && 0 <= i < |db.orders|
      ensures db.orders[i].orderCode != oracle.orderCode(ids[k])
    {
      var a := ids[k];
      assert a in ids;
      assert db.orders[i].orderCode != oracle.orderCode(a);
    }
    forall k, i | 0 <= k < |ids| && 0 <= i < |db.orders| && Pays(oracle.payment(ids[k]))
      ensures db.orders[i].paymentTransactionCode != oracle.payment(ids[k]).code
    {
      var a := ids[k];
      assert a in ids;
      assert Pays(oracle.payment(a));
      assert db.orders[i].paymentTransactionCode != oracle.payment(a).code;
    }
  }

  /** Every pending entry of the product belongs to an existing user. */
  ghost predicate EntrantsKnown(db: Db, productId: int) {
    forall id :: id in db.entries && IsPending(db.entries[id]) && ForProduct(db.entries[id], productId) ==>
      db.entries[id].userId in db.users
  }

  /**
   * A selection that gets past both checks draws min(qty, pending entries) distinct pending
   * entries of the product, charges each once, and takes one unit of stock, makes one winner and
   * records one completed order per drawn entry the payment service pays.
   */
  lemma DrawEffect(db: Db, productId: int, now: int, oracle: Oracle)
    requires Consistent(db)
    requires Enumerates(oracle.randomOrder(productId), db.entries.Keys)
    requires EntrantsKnown(db, productId)
    requires OracleFresh(db, oracle, productId)
    ensures var r := Handle(db, productId, now, oracle);
      r.outcome.Batched? ==>
        var ids := r.outcome.entryIds;
        var p := db.products[productId];
        var count := RaffleEntryRepository.GetEntryCount(db, productId);
        && NoDuplicates(ids)
        && |ids| == (if p.qty < count then p.qty else count)
        && (forall id :: id in ids ==> id in db.entries && IsPending(db.entries[id]) && ForProduct(db.entries[id], productId))
        && ResultsFollowPayments(r.outcome.results, ids, oracle)
        && StockTaken(db, r.db, productId, PaidCount(ids, oracle))
        && WinnersMarked(db, r.db, ids, oracle)
        && OrdersAppended(db, r.db, PaidCount(ids, oracle), productId)
  {
    var r := Handle(db, productId, now, oracle);
    if r.outcome.Batched? {
      var p := db.products[productId];
      var ids := r.outcome.entryIds;
      RaffleEntryRepository.SelectionSize(db, p, oracle.randomOrder(productId));
      FreshOracleGivesFreshCodes(db, ids, oracle, productId);
      assert Drawable(db, ids, productId) by {
        forall k | 0 <= k < |ids|
          ensures ids[k] in db.entries && db.entries[ids[k]].productId == productId
          ensures db.entries[ids[k]].userId in db.users && db.entries[ids[k]].addressId in db.addresses
        {
          assert ids[k] in ids;
        }
      }
      SettleBatchEffect(db, ids, oracle, productId);
    }
  }

  /** When every entry is paid, each of `ids` counts. */
  lemma {:induction false} PaidCountAll(ids: seq<int>, oracle: Oracle)
    requires forall k :: 0 <= k < |ids| ==> Pays(oracle.payment(ids[k]))
    ensures PaidCount(ids, oracle) == |ids|
  {
    if ids != [] {
      PaidCountAll(ids[1..], oracle);
    }
  }

  /**
   * With every payment going through and at least as many pending entries as units of stock,
   * the product sells out: qty ends at 0, qty entries become winners and qty completed orders of
   * the product are recorded.
   */
  lemma SellsOutWhenAllPay(db: Db, productId: int, now: int, oracle: Oracle)
    requires Consistent(db)
    requires productId in db.products && IsActive(db.products[productId]) && ToRaffle(db.products[productId], now)
    requires 0 < db.products[productId].qty <= RaffleEntryRepository.GetEntryCount(db, productId)
    requires Enumerates(oracle.randomOrder(productId), db.entries.Keys)
    requires EntrantsKnown(db, productId)
    requires OracleFresh(db, oracle, productId)
    requires forall id :: Pays(oracle.payment(id))
    ensures var r := Handle(db, productId, now, oracle);
      && r.outcome.Batched?
      && |r.outcome.entryIds| == db.products[productId].qty
      && (forall k :: 0 <= k < |r.outcome.results| ==> r.outcome.results[k].Charged?)
      && r.db.products == db.products[productId := db.products[productId].(qty := 0)]
      && |r.db.orders| == |db.orders| + db.products[productId].qty
      && (forall id :: id in r.outcome.entryIds ==>
            id in r.db.entries && r.db.entries[id].status == RaffleStatus.Value(RaffleStatus.Winner))
  {
    var r := Handle(db, productId, now, oracle);
    assert r.outcome.Batched?;
    DrawEffect(db, productId, now, oracle);
    AllPaidBatch(db, r.db, productId, r.outcome.entryIds, r.outcome.results, oracle);
  }

  /** A batch of the whole stock whose every payment goes through charges every job and sells the product out. */
  lemma AllPaidBatch(db: Db, db': Db, productId: int, ids: seq<int>, results: seq<ChargeOutcome>, oracle: Oracle)
    requires productId in db.products && |ids| == db.products[productId].qty
    requires forall id :: Pays(oracle.payment(id))
    requires ResultsFollowPayments(results, ids, oracle)
    requires StockTaken(db, db', productId, PaidCount(ids, oracle))
    requires WinnersMarked(db, db', ids, oracle)
    requires OrdersAppended(db, db', PaidCount(ids, oracle), productId)
    requires forall id :: id in ids ==> id in db.entries
    ensures forall k :: 0 <= k < |results| ==> results[k].Charged?
    ensures db'.products == db.products[productId := db.products[productId].(qty := 0)]
    ensures |db'.orders| == |db.orders| + db.products[productId].qty
    ensures forall id :: id in ids ==>
      id in db'.entries && db'.entries[id].status == RaffleStatus.Value(RaffleStatus.Winner)
  {
    forall k | 0 <= k < |ids|
      ensures Pays(oracle.payment(ids[k]))
    {
      var id := ids[k];
      assert Pays(oracle.payment(id));
    }
    PaidCountAll(ids, oracle);
  }

  /** The selection for the product gets past the lookup and both checks and draws. */
  ghost predicate Drawing(db: Db, productId: int, now: int) {
    && productId in db.products
    && IsActive(db.products[productId]) && ToRaffle(db.products[productId], now)
    && db.products[productId].qty > 0
    && RaffleEntryRepository.GetEntryCount(db, productId) > 0
  }

  /**
   * From `db` to `db'` only the products in `touched` and their entries changed, every entry kept
   * its product, and orders were only appended, each completed and paid for a touched product's
   * entry and carrying the codes the oracle gives that entry.
   */
  ghost predicate Confined(db: Db, db': Db, touched: set<int>, oracle: Oracle) {
    && db'.users == db.users && db'.addresses == db.addresses && db'.nextEntryId == db.nextEntryId
    && db'.products.Keys == db.products.Keys
    && (forall q :: q in db.products && q !in touched ==> db'.products[q] == db.products[q])
    && db'.entries.Keys == db.entries.Keys
    && (forall id :: id in db.entries ==> db'.entries[id].productId == db.entries[id].productId)
    && (forall id :: id in db.entries && db.entries[id].productId !in touched ==> db'.entries[id] == db.entries[id])
    && |db.orders| <= |db'.orders| && db'.orders[..|db.orders|] == db.orders
    && forall i :: |db.orders| <= i < |db'.orders| ==>
         var o := db'.orders[i];
         && o.productId in touched
         && o.status == OrderStatus.Value(OrderStatus.Completed)
         && o.paymentStatus == PaymentStatus.Value(PaymentStatus.Status.Success)
         && o.raffleEntryId in db.entries && db.entries[o.raffleEntryId].productId == o.productId
         && o.orderCode == oracle.orderCode(o.raffleEntryId)
         && Pays(oracle.payment(o.raffleEntryId)) && o.paymentTransactionCode == oracle.payment(o.raffleEntryId).code
  }

  lemma ConfinedTransitive(db0: Db, db1: Db, db2: Db, s: set<int>, t: set<int>, oracle: Oracle)
    requires Confined(db0, db1, s, oracle) && Confined(db1, db2, t, oracle)
    ensures Confined(db0, db2, s + t, oracle)
  {
    assert db2.orders[..|db0.orders|] == db1.orders[..|db1.orders|][..|db0.orders|];
    forall i | |db0.orders| <= i < |db2.orders|
      ensures var o := db2.orders[i];
        && o.productId in s + t
        && o.raffleEntryId in db0.entries && db0.entries[o.raffleEntryId].productId == o.productId
    {
      if i < |db1.orders| {
        assert db2.orders[i] == db1.orders[i];
      }
    }
  }

  /** A settlement of an entry of the product changes only that product and its entries. */
  lemma ChargeConfined(db: Db, entryId: int, oracle: Oracle, productId: int)
    requires Linked(db)
    requires entryId in db.entries ==> db.entries[entryId].productId == productId
    ensures Confined(db, ChargeWinnerAction.Handle(db, entryId, oracle.payment(entryId), oracle.orderCode(entryId)).db,
                     {productId}, oracle)
  {
    var r := ChargeWinnerAction.Handle(db, entryId, oracle.payment(entryId), oracle.orderCode(entryId));
    if r.outcome.Charged? {
      assert r.db.orders[..|db.orders|] == db.orders;
    } else {
      assert db.orders[..|db.orders|] == db.orders;
    }
  }

  /** A batch over entries of the product changes only that product and its entries. */
  lemma {:induction false} SettleBatchConfined(db: Db, ids: seq<int>, oracle: Oracle, productId: int)
    requires Linked(db)
    requires forall id :: id in ids && id in db.entries ==> db.entries[id].productId == productId
    ensures Confined(db, SettleBatch(db, ids, oracle).db, {productId}, oracle)
    decreases |ids|
  {
    if ids == [] {
      assert db.orders[..|db.orders|] == db.orders;
    } else {
      var charge := ChargeWinnerAction.Handle(db, ids[0], oracle.payment(ids[0]), oracle.orderCode(ids[0]));
      assert ids[0] in ids;
      ChargeConfined(db, ids[0], oracle, productId);
      forall id | id in ids[1..] && id in charge.db.entries
        ensures charge.db.entries[id].productId == productId
      {
        assert id in ids;
      }
      SettleBatchConfined(charge.db, ids[1..], oracle, productId);
      ConfinedTransitive(db, charge.db, SettleBatch(db, ids, oracle).db, {productId}, {productId}, oracle);
    }
  }

  /** A selection draws exactly when `Drawing` holds, and changes only its own product and entries. */
  lemma HandleConfined(db: Db, productId: int, now: int, oracle: Oracle)
    requires Linked(db)
    ensures var r := Handle(db, productId, now, oracle);
      && (r.outcome.Batched? <==> Drawing(db, productId, now))
      && Confined(db, r.db, if Drawing(db, productId, now) then {productId} else {}, oracle)
  {
    var r := Handle(db, productId, now, oracle);
    if r.outcome.Batched? {
      SettleBatchConfined(db, r.outcome.entryIds, oracle, productId);
    } else {
      assert db.orders[..|db.orders|] == db.orders;
    }
  }

  /**
   * A product untouched from `db` to `db'` has the same pending entries in both, so its selection
   * sees the same count and draws the same ids.
   */
  lemma UntouchedProductDrawsAlike(db: Db, db': Db, touched: set<int>, oracle: Oracle, productId: int, now: int)
    requires Linked(db) && Confined(db, db', touched, oracle) && productId !in touched
    ensures RaffleEntryRepository.PendingEntriesOf(db', productId) == RaffleEntryRepository.PendingEntriesOf(db, productId)
    ensures Drawing(db', productId, now) == Drawing(db, productId, now)
    ensures productId in db.products ==>
      RaffleEntryRepository.RandomlySelectWinners(db', db'.products[productId], oracle.randomOrder(productId)) ==
      RaffleEntryRepository.RandomlySelectWinners(db, db.products[productId], oracle.randomOrder(productId))
  {
    var rows := RaffleEntryRepository.PendingEntriesOf(db, productId);
    var rows' := RaffleEntryRepository.PendingEntriesOf(db', productId);
    forall id | id in db.entries && db.entries[id].productId == productId
      ensures db'.entries[id] == db.entries[id]
    {
    }
    forall id ensures id in rows' <==> id in rows {
      if id in db'.entries && db'.entries[id].productId == productId {
        assert db.entries[id].productId == productId;
      }
    }
    assert rows'.Keys == rows.Keys;
    assert rows' == rows;
    if productId in db.products {
      assert db'.products[productId] == db.products[productId];
      assert db.products[productId].id == productId;
    }
  }
}
