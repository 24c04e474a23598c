/** Settling one drawn entry: take a unit of stock, charge, then record the order and the winner, all or nothing. */
module ChargeWinnerAction {
  import opened Wrappers
  import opened Schema
  import RaffleStatus
  import OrderStatus
  import PaymentStatus
  import opened PaymentService
  import ProductRepository
  import RaffleEntryRepository
  import OrderRepository
  import Seqs

  /** How a settlement ended. */
  datatype ChargeOutcome = Charged(order: Order) | Declined | Thrown(error: Exception)

  /** The outcome and the committed state. */
  datatype Charge = Charge(outcome: ChargeOutcome, db: Db)

  /** An order can be recorded for `entry`: its codes are new and the rows it references exist. */
  ghost predicate Recordable(db: Db, entry: RaffleEntry, payment: PaymentResult, orderCode: string) {
    && Pays(payment)
    && (forall i :: 0 <= i < |db.orders| ==> db.orders[i].orderCode != orderCode)
    && (forall i :: 0 <= i < |db.orders| ==> db.orders[i].paymentTransactionCode != payment.code)
    && entry.userId in db.users && entry.addressId in db.addresses
  }

  /**
   * Settles entry `entryId` with the payment service's answer `payment` and the generated
   * `orderCode`. The entry is read first; then, in one transaction, the product's stock is
   * decremented, and a falsy payment rolls back, while a transaction code is recorded as a
   * completed, successfully paid order and the entry becomes a winner before the commit, after
   * which OrderCreated is dispatched. `true` cannot be passed on as a transaction code under
   * strict types, and any exception leaves the transaction uncommitted.
   */
  function Handle(db: Db, entryId: int, payment: PaymentResult, orderCode: string): (r: Charge)
    requires entryId in db.entries ==> db.entries[entryId].id == entryId && db.entries[entryId].productId in db.products
    ensures entryId !in db.entries ==> r == Charge(Thrown(ModelNotFound), db)
    ensures !r.outcome.Charged? ==> r.db == db
    ensures r.outcome.Declined? <==>
      entryId in db.entries && db.products[db.entries[entryId].productId].qty >= 1 && !Truthy(payment)
    ensures r.outcome.Charged? <==>
      && entryId in db.entries && db.products[db.entries[entryId].productId].qty >= 1
      && Recordable(db, db.entries[entryId], payment, orderCode)
    ensures r.outcome.Charged? ==>
      var e := db.entries[entryId];
      var p := db.products[e.productId];
      var o := r.outcome.order;
      && o == Order(db.nextOrderId, orderCode, payment.code, OrderStatus.Value(OrderStatus.Completed),
                    PaymentStatus.Value(PaymentStatus.Status.Success), entryId, e.userId, e.addressId,
                    e.productId, p.price)
      && r.db == db.(products := db.products[e.productId := p.(qty := p.qty - 1)],
                     entries := db.entries[entryId := e.(status := RaffleStatus.Value(RaffleStatus.Winner))],
                     orders := db.orders + [o],
                     nextOrderId := db.nextOrderId + 1,
                     events := db.events + [OrderCreated(o.id)])
  {
    match RaffleEntryRepository.FindById(db, entryId)
    case Failure(e) => Charge(Thrown(e), db)
    case Success(entry) =>
      match ProductRepository.DecrementStockQty(db, entry.productId)
      case Failure(e) => Charge(Thrown(e), db)
      case Success(decremented) =>
        if !Truthy(payment) then
          Charge(Declined, db)
        else if payment.Flag? then
          Charge(Thrown(TypeError), db)
        else
          match OrderRepository.Save(decremented, entry, OrderStatus.Completed, PaymentStatus.Status.Success, payment.code, orderCode)
          case Failure(e) => Charge(Thrown(e), db)
          case Success((order, saved)) =>
            var promoted := RaffleEntryRepository.SetWinner(saved, entry.id);
            Charge(Charged(order), promoted.(events := promoted.events + [OrderCreated(order.id)]))
  }

  /** Settling keeps every constraint, and the new order belongs to the entry it just made a winner. */
  lemma HandlePreservesConsistency(db: Db, entryId: int, payment: PaymentResult, orderCode: string)
    requires Consistent(db)
    ensures Consistent(Handle(db, entryId, payment, orderCode).db)
  {
    var r := Handle(db, entryId, payment, orderCode);
    if r.outcome.Charged? {
      RecordingWinnerPreservesConsistency(db, entryId, payment, orderCode);
    }
  }

  /** The state a successful settlement commits is consistent. */
  lemma RecordingWinnerPreservesConsistency(db: Db, entryId: int, payment: PaymentResult, orderCode: string)
    requires Consistent(db)
    requires Handle(db, entryId, payment, orderCode).outcome.Charged?
    ensures Consistent(Handle(db, entryId, payment, orderCode).db)
  {
    var r := Handle(db, entryId, payment, orderCode);
    var e := db.entries[entryId];
    var p := db.products[e.productId];
    var decremented := db.(products := db.products[e.productId := p.(qty := p.qty - 1)]);
    assert Consistent(decremented) by {
      ProductRepository.DecrementStockQtyPreservesConsistency(db, e.productId);
      assert ProductRepository.DecrementStockQty(db, e.productId) == Success(decremented);
    }
    var o := r.outcome.order;
    var saved := decremented.(orders := decremented.orders + [o], nextOrderId := decremented.nextOrderId + 1);
    AppendOrderPreservesValidity(decremented, o);
    PromotingKeepsOrdersSettled(db, saved, entryId);
    var promoted := saved.(entries := saved.entries[entryId := e.(status := RaffleStatus.Value(RaffleStatus.Winner))]);
    assert r.db == promoted.(events := promoted.events + [OrderCreated(saved.orders[|db.orders|].id)]);
  }

  /** Promoting the entry of the one order a settlement appended settles that order too. */
  lemma PromotingKeepsOrdersSettled(db: Db, saved: Db, entryId: int)
    requires Consistent(db) && Valid(saved)
    requires entryId in db.entries && saved.entries == db.entries && saved.events == db.events
    requires |saved.orders| == |db.orders| + 1 && saved.orders[..|db.orders|] == db.orders
    requires var o := saved.orders[|db.orders|];
      o.raffleEntryId == entryId && o.userId == db.entries[entryId].userId
      && o.addressId == db.entries[entryId].addressId && o.productId == db.entries[entryId].productId
    ensures var e := db.entries[entryId];
      var promoted := saved.(entries := saved.entries[entryId := e.(status := RaffleStatus.Value(RaffleStatus.Winner))]);
      Consistent(promoted) && Consistent(promoted.(events := promoted.events + [OrderCreated(saved.orders[|db.orders|].id)]))
  {
    var e := db.entries[entryId];
    var promoted := saved.(entries := saved.entries[entryId := e.(status := RaffleStatus.Value(RaffleStatus.Winner))]);
    StatusChangePreservesConsistency(saved, promoted);
    assert OrdersSettled(promoted) by {
      forall i | 0 <= i < |promoted.orders|
        ensures promoted.orders[i].raffleEntryId in promoted.entries
        ensures promoted.entries[promoted.orders[i].raffleEntryId].status == RaffleStatus.Value(RaffleStatus.Winner)
        ensures promoted.entries[promoted.orders[i].raffleEntryId].userId == promoted.orders[i].userId
        ensures promoted.entries[promoted.orders[i].raffleEntryId].addressId == promoted.orders[i].addressId
        ensures promoted.entries[promoted.orders[i].raffleEntryId].productId == promoted.orders[i].productId
      {
        if i < |db.orders| {
          assert promoted.orders[i] == db.orders[i];
        }
      }
    }
  }

  /**
   * Nothing checks that the entry is still pending: charging an entry that has already won, with
   * stock left and a fresh transaction, records a second order for it.
   */
  lemma RechargingWinnerAddsSecondOrder(db: Db, entryId: int, payment: PaymentResult, orderCode: string)
    requires Consistent(db)
    requires entryId in db.entries && db.entries[entryId].status == RaffleStatus.Value(RaffleStatus.Winner)
    requires exists i :: 0 <= i < |db.orders| && db.orders[i].raffleEntryId == entryId
    requires db.products[db.entries[entryId].productId].qty >= 1
    requires Recordable(db, db.entries[entryId], payment, orderCode)
    ensures var r := Handle(db, entryId, payment, orderCode);
      && r.outcome.Charged?
      && |set i | 0 <= i < |r.db.orders| && r.db.orders[i].raffleEntryId == entryId| >= 2
  {
    var r := Handle(db, entryId, payment, orderCode);
    var i :| 0 <= i < |db.orders| && db.orders[i].raffleEntryId == entryId;
    var j := |db.orders|;
    assert r.db.orders[i].raffleEntryId == entryId && r.db.orders[j].raffleEntryId == entryId;
    assert {i, j} <= set i | 0 <= i < |r.db.orders| && r.db.orders[i].raffleEntryId == entryId;
    assert |{i, j}| == 2;
    Seqs.SubsetCardinality({i, j}, set i | 0 <= i < |r.db.orders| && r.db.orders[i].raffleEntryId == entryId);
  }
}
