/**
 * The database the raffle runs on, as an object whose tables the repositories and actions update
 * in place. Each method is proved to leave the tables exactly as the function of the same
 * operation computes them from the tables before the call.
 */
module Store {
  import opened Wrappers
  import opened Seqs
  import opened Schema
  import opened Scopes
  import opened PaymentService
  import RaffleStatus
  import OrderStatus
  import PaymentStatus
  import ProductRepository
  import RaffleEntryRepository
  import OrderRepository
  import CheckIfUserHasAlreadyEnteredRaffleAction
  import CreateRaffleEntryAction
  import CancelRaffleEntryAction
  import ChargeWinnerAction
  import SelectWinnersAction
  import StartRaffleAction

  type RaffleEntryDto = RaffleEntryRepository.RaffleEntryDto
  type ChargeOutcome = ChargeWinnerAction.ChargeOutcome
  type Oracle = SelectWinnersAction.Oracle
  type SelectOutcome = SelectWinnersAction.SelectOutcome

  class RaffleStore {
    var products: map<int, Product>
    var entries: map<int, RaffleEntry>
    var orders: seq<Order>
    var addresses: map<int, Address>
    var users: set<int>
    var events: seq<Event>
    var nextEntryId: int
    var nextOrderId: int

    /** The tables as a value. */
    function Snapshot(): Db
      reads this
    {
      Db(products, entries, orders, addresses, users, events, nextEntryId, nextOrderId)
    }

    /** The tables satisfy every constraint of the schema and every order is settled. */
    ghost predicate Valid()
      reads this
    {
      Consistent(Snapshot())
    }

    constructor (db: Db)
      requires Consistent(db)
      ensures Valid() && Snapshot() == db
    {
      products := db.products;
      entries := db.entries;
      orders := db.orders;
      addresses := db.addresses;
      users := db.users;
      events := db.events;
      nextEntryId := db.nextEntryId;
      nextOrderId := db.nextOrderId;
    }

    /** `ProductRepository::decrementStockQty`. */
    method DecrementStockQty(productId: int) returns (error: Option<Exception>)
      modifies this
      ensures var r := ProductRepository.DecrementStockQty(old(Snapshot()), productId);
        && (r.Failure? ==> error == Some(r.error) && Snapshot() == old(Snapshot()))
        && (r.Success? ==> error == None && Snapshot() == r.value)
    {
      if productId in products {
        var p := products[productId];
        if p.qty - 1 < 0 {
          return Some(QueryException(OutOfRange("qty")));
        }
        products := products[productId := p.(qty := p.qty - 1)];
      }
      return None;
    }

    /** `RaffleEntryRepository::save`. */
    method SaveEntry(dto: RaffleEntryDto, entryCode: string) returns (r: Result<RaffleEntry, Exception>)
      modifies this
      ensures var spec := RaffleEntryRepository.Save(old(Snapshot()), dto, entryCode);
        && (spec.Failure? ==> r == Failure(spec.error) && Snapshot() == old(Snapshot()))
        && (spec.Success? ==> r == Success(spec.value.0) && Snapshot() == spec.value.1)
    {
      if dto.addressId !in addresses {
        return Failure(QueryException(ForeignKeyFails("address_id")));
      }
      if dto.productId !in products {
        return Failure(QueryException(ForeignKeyFails("product_id")));
      }
      if exists id :: id in entries && entries[id].entryCode == entryCode {
        return Failure(QueryException(DuplicateKey("raffle_entries_entry_code_unique")));
      }
      if exists id :: id in entries && entries[id].productId == dto.productId && entries[id].userId == dto.userId {
        return Failure(QueryException(DuplicateKey("unique_product_user")));
      }
      var e := RaffleEntry(nextEntryId, entryCode, RaffleStatus.Value(dto.status), dto.userId,
                           dto.addressId, dto.productId, dto.paymentToken);
      entries := entries[e.id := e];
      nextEntryId := nextEntryId + 1;
      return Success(e);
    }

    /** `RaffleEntryRepository::setWinner`. */
    method SetWinner(entryId: int)
      modifies this
      ensures Snapshot() == RaffleEntryRepository.SetWinner(old(Snapshot()), entryId)
    {
      if entryId in entries {
        entries := entries[entryId := entries[entryId].(status := RaffleStatus.Value(RaffleStatus.Winner))];
      }
    }

    /** `OrderRepository::save`. */
    method SaveOrder(entry: RaffleEntry, status: OrderStatus.Status, paymentStatus: PaymentStatus.Status,
                     paymentTransactionCode: string, orderCode: string) returns (r: Result<Order, Exception>)
      requires entry.productId in products
      modifies this
      ensures var spec := OrderRepository.Save(old(Snapshot()), entry, status, paymentStatus, paymentTransactionCode, orderCode);
        && (spec.Failure? ==> r == Failure(spec.error) && Snapshot() == old(Snapshot()))
        && (spec.Success? ==> r == Success(spec.value.0) && Snapshot() == spec.value.1)
    {
      var amount := products[entry.productId].price;
      if exists i :: 0 <= i < |orders| && orders[i].orderCode == orderCode {
        return Failure(QueryException(DuplicateKey("orders_order_code_unique")));
      }
      if exists i :: 0 <= i < |orders| && orders[i].paymentTransactionCode == paymentTransactionCode {
        return Failure(QueryException(DuplicateKey("orders_payment_transaction_code_unique")));
      }
      if entry.id !in entries {
        return Failure(QueryException(ForeignKeyFails("raffle_entry_id")));
      }
      if entry.userId !in users {
        return Failure(QueryException(ForeignKeyFails("user_id")));
      }
      if entry.addressId !in addresses {
        return Failure(QueryException(ForeignKeyFails("address_id")));
      }
      var o := Order(nextOrderId, orderCode, paymentTransactionCode, OrderStatus.Value(status),
                     PaymentStatus.Value(paymentStatus), entry.id, entry.userId, entry.addressId,
                     entry.productId, amount);
      orders := orders + [o];
      nextOrderId := nextOrderId + 1;
      return Success(o);
    }

    /** `RaffleEntryRepository::findPendingByUserAndProduct`; the unique key makes the match unique. */
    method FindPendingByUserAndProduct(userId: int, productId: int) returns (r: Result<RaffleEntry, Exception>)
      requires Schema.Valid(Snapshot())
      ensures r.Success? ==> r.value in entries.Values && PendingFor(r.value, userId, productId)
      ensures r == RaffleEntryRepository.FindPendingByUserAndProduct(Snapshot(), userId, productId)
    {
      if id :| id in entries && PendingFor(entries[id], userId, productId) {
        RaffleEntryRepository.PendingLookupIsUnique(Snapshot(), userId, productId, id);
        r := Success(entries[id]);
      } else {
        r := Failure(ModelNotFound);
      }
    }

    /** `CheckIfUserHasAlreadyEnteredRaffleAction::handle`: the pending entry, or none. */
    method CheckIfUserHasAlreadyEnteredRaffle(userId: int, productId: int) returns (r: Option<RaffleEntry>)
      requires Schema.Valid(Snapshot())
      ensures r == CheckIfUserHasAlreadyEnteredRaffleAction.Handle(Snapshot(), userId, productId)
    {
      var found := FindPendingByUserAndProduct(userId, productId);
      r := if found.Success? then Some(found.value) else None;
    }

    /** `CreateRaffleEntryAction::handle`: the entry, and whether this call inserted it. */
    method CreateRaffleEntry(dto: RaffleEntryDto, entryCode: string) returns (r: Result<(RaffleEntry, bool), Exception>)
      requires Valid()
      modifies this
      ensures Valid()
      ensures var spec := CreateRaffleEntryAction.Handle(old(Snapshot()), dto, entryCode);
        && (spec.Failure? ==> r == Failure(spec.error) && Snapshot() == old(Snapshot()))
        && (spec.Success? ==> r == Success((spec.value.entry, spec.value.wasRecentlyCreated)) && Snapshot() == spec.value.db)
    {
      CreateRaffleEntryAction.HandlePreservesConsistency(Snapshot(), dto, entryCode);
      var existing := CheckIfUserHasAlreadyEnteredRaffle(dto.userId, dto.productId);
      if existing.Some? {
        return Success((existing.value, false));
      }
      var saved := SaveEntry(dto, entryCode);
      if saved.Failure? {
        return Failure(saved.error);
      }
      events := events + [RaffleEntryCreated(saved.value.id)];
      return Success((saved.value, true));
    }

    /** `delete()` of an entry row, refused while an order references it. */
    method DeleteEntry(entryId: int) returns (error: Option<Exception>)
      modifies this
      ensures var spec := CancelRaffleEntryAction.Delete(old(Snapshot()), entryId);
        && (spec.Failure? ==> error == Some(spec.error) && Snapshot() == old(Snapshot()))
        && (spec.Success? ==> error == None && Snapshot() == spec.value)
    {
      if exists i :: 0 <= i < |orders| && orders[i].raffleEntryId == entryId {
        return Some(QueryException(ForeignKeyFails("raffle_entry_id")));
      }
      entries := entries - {entryId};
      return None;
    }

    /** `CancelRaffleEntryAction::handle`. */
    method CancelRaffleEntry(userId: int, productId: int) returns (error: Option<Exception>)
      requires Valid()
      modifies this
      ensures Valid() && error == None
      ensures Snapshot() == CancelRaffleEntryAction.Handle(old(Snapshot()), userId, productId).value
    {
      CancelRaffleEntryAction.HandleRemovesPendingEntry(Snapshot(), userId, productId);
      var existing := CheckIfUserHasAlreadyEnteredRaffle(userId, productId);
      if existing.None? {
        return None;
      }
      error := DeleteEntry(existing.value.id);
    }

    /**
     * `ChargeWinnerAction::handle`: the decrement, the order and the promotion happen inside one
     * transaction; a rollback, or an exception before the commit, restores the tables it changed.
     */
    method ChargeWinner(entryId: int, payment: PaymentResult, orderCode: string) returns (outcome: ChargeOutcome)
      requires Valid()
      modifies this
      ensures Valid()
      ensures var spec := ChargeWinnerAction.Handle(old(Snapshot()), entryId, payment, orderCode);
        outcome == spec.outcome && Snapshot() == spec.db
    {
      ChargeWinnerAction.HandlePreservesConsistency(Snapshot(), entryId, payment, orderCode);
      if entryId !in entries {
        return ChargeWinnerAction.Thrown(ModelNotFound);
      }
      var entry := entries[entryId];
      ghost var before := Snapshot();
      var productsBefore := products;
      var decremented := DecrementStockQty(entry.productId);
      if decremented.Some? {
        return ChargeWinnerAction.Thrown(decremented.value);
      }
      if !Truthy(payment) {
        products := productsBefore;
        return ChargeWinnerAction.Declined;
      }
      if payment.Flag? {
        products := productsBefore;
        return ChargeWinnerAction.Thrown(TypeError);
      }
      var saved := SaveOrder(entry, OrderStatus.Completed, PaymentStatus.Status.Success, payment.code, orderCode);
      if saved.Failure? {
        products := productsBefore;
        return ChargeWinnerAction.Thrown(saved.error);
      }
      SetWinner(entry.id);
      events := events + [OrderCreated(saved.value.id)];
      return ChargeWinnerAction.Charged(saved.value);
    }

    /** `SelectWinnersAction::handle`: the batch runs its jobs one after the other. */
    method SelectWinners(productId: int, now: int, oracle: Oracle) returns (outcome: SelectOutcome)
      requires Valid()
      modifies this
      ensures Valid()
      ensures var spec := SelectWinnersAction.Handle(old(Snapshot()), productId, now, oracle);
        outcome == spec.outcome && Snapshot() == spec.db
    {
      if !(productId in products && IsActive(products[productId]) && ToRaffle(products[productId], now)) {
        return SelectWinnersAction.Aborted(ModelNotFound);
      }
      var product := products[productId];
      if !SelectWinnersAction.CheckIfProductHasStockToProceed(product) {
        return SelectWinnersAction.NoStock;
      }
      if !SelectWinnersAction.CheckIfRaffleHasEntriesToProceed(Snapshot(), product) {
        return SelectWinnersAction.NoEntries;
      }
      outcome := SelectAndChargeWinners(product, oracle);
    }

    /** `selectAndChargeWinners`: draws the winners and runs their settlement jobs one after the other. */
    method SelectAndChargeWinners(product: Product, oracle: Oracle) returns (outcome: SelectOutcome)
      requires Valid()
      modifies this
      ensures Valid()
      ensures var spec := SelectWinnersAction.SelectAndChargeWinners(old(Snapshot()), product, oracle);
        outcome == spec.outcome && Snapshot() == spec.db
    {
      var ids := RaffleEntryRepository.RandomlySelectWinners(Snapshot(), product, oracle.randomOrder(product.id));
      ghost var batch := SelectWinnersAction.SettleBatch(Snapshot(), ids, oracle);
      var results: seq<ChargeOutcome> := [];
      var i := 0;
      while i < |ids|
        invariant 0 <= i <= |ids| && Valid()
        invariant var rest := SelectWinnersAction.SettleBatch(Snapshot(), ids[i..], oracle);
          results + rest.results == batch.results && rest.db == batch.db
      {
        SelectWinnersAction.SettleBatchStep(Snapshot(), ids, i, oracle);
        var result := ChargeWinner(ids[i], oracle.payment(ids[i]), oracle.orderCode(ids[i]));
        ghost var next := SelectWinnersAction.SettleBatch(Snapshot(), ids[i + 1..], oracle);
        AppendAssociative(results, [result], next.results);
        results := results + [result];
        i := i + 1;
      }
      assert ids[i..] == [];
      return SelectWinnersAction.Batched(SelectWinnersAction.BatchName(product.id), ids, results);
    }

    /** `StartRaffleAction::handle`: one selection per due product, in the order read. */
    method StartRaffle(rowOrder: seq<int>, now: int, oracle: Oracle) returns (productIds: seq<int>, outcomes: seq<SelectOutcome>)
      requires Valid()
      modifies this
      ensures Valid()
      ensures var spec := StartRaffleAction.Handle(old(Snapshot()), rowOrder, now, oracle);
        productIds == spec.productIds && outcomes == spec.outcomes && Snapshot() == spec.db
    {
      productIds := ProductRepository.GetActiveProductIdsToRaffle(Snapshot(), rowOrder, now);
      outcomes := [];
      if |productIds| == 0 {
        return;
      }
      ghost var run := StartRaffleAction.SelectEach(Snapshot(), productIds, now, oracle);
      var i := 0;
      while i < |productIds|
        invariant 0 <= i <= |productIds| && Valid()
        invariant var rest := StartRaffleAction.SelectEach(Snapshot(), productIds[i..], now, oracle);
          outcomes + rest.outcomes == run.outcomes && rest.db == run.db
      {
        ghost var rest := StartRaffleAction.SelectEach(Snapshot(), productIds[i..], now, oracle);
        assert productIds[i..][0] == productIds[i] && productIds[i..][1..] == productIds[i + 1..];
        var outcome := SelectWinners(productIds[i], now, oracle);
        ghost var next := StartRaffleAction.SelectEach(Snapshot(), productIds[i + 1..], now, oracle);
        assert rest.outcomes == [outcome] + next.outcomes && rest.db == next.db;
        AppendAssociative(outcomes, [outcome], next.outcomes);
        outcomes := outcomes + [outcome];
        i := i + 1;
      }
      assert productIds[i..] == [];
    }
  }
}
