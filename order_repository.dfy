/** The order insert of the order repository. */
module OrderRepository {
  import opened Wrappers
  import opened Schema
  import OrderStatus
  import PaymentStatus

  /**
   * `create([...])` of an order for `entry`: the next auto-increment id, the generated
   * `orderCode`, the entry's id, user, address and product, the product's price at save time
   * as amount, and the given statuses and transaction code; unless a unique key or a foreign
   * key refuses it. The entry's product is loaded first, so it must exist.
   */
  function Save(db: Db, entry: RaffleEntry, status: OrderStatus.Status, paymentStatus: PaymentStatus.Status,
                paymentTransactionCode: string, orderCode: string): (r: Result<(Order, Db), Exception>)
    requires entry.productId in db.products
    ensures r.Success? <==>
      && (forall i :: 0 <= i < |db.orders| ==> db.orders[i].orderCode != orderCode)
      && (forall i :: 0 <= i < |db.orders| ==> db.orders[i].paymentTransactionCode != paymentTransactionCode)
      && entry.id in db.entries && entry.userId in db.users && entry.addressId in db.addresses
    ensures r.Failure? ==> r.error.QueryException?
    ensures r.Success? ==> var (o, db') := r.value;
      && o.id == db.nextOrderId
      && o.orderCode == orderCode
      && o.raffleEntryId == entry.id && o.userId == entry.userId
      && o.addressId == entry.addressId && o.productId == entry.productId
      && o.amount == db.products[entry.productId].price
      && o.status == OrderStatus.Value(status) && o.paymentStatus == PaymentStatus.Value(paymentStatus)
      && o.paymentTransactionCode == paymentTransactionCode
      && db' == db.(orders := db.orders + [o], nextOrderId := db.nextOrderId + 1)
  {
    var amount := db.products[entry.productId].price;
    if exists i :: 0 <= i < |db.orders| && db.orders[i].orderCode == orderCode then
      Failure(QueryException(DuplicateKey("orders_order_code_unique")))
    else if exists i :: 0 <= i < |db.orders| && db.orders[i].paymentTransactionCode == paymentTransactionCode then
      Failure(QueryException(DuplicateKey("orders_payment_transaction_code_unique")))
    else if entry.id !in db.entries then
      Failure(QueryException(ForeignKeyFails("raffle_entry_id")))
    else if entry.userId !in db.users then
      Failure(QueryException(ForeignKeyFails("user_id")))
    else if entry.addressId !in db.addresses then
      Failure(QueryException(ForeignKeyFails("address_id")))
    else
      var o := Order(db.nextOrderId, orderCode, paymentTransactionCode, OrderStatus.Value(status),
                     PaymentStatus.Value(paymentStatus), entry.id, entry.userId, entry.addressId,
                     entry.productId, amount);
      Success((o, db.(orders := db.orders + [o], nextOrderId := db.nextOrderId + 1)))
  }

  /**
   * An accepted insert keeps every constraint, and adds one order whose amount fits decimal(10,2)
   * because the product price does.
   */
  lemma SavePreservesValidity(db: Db, entry: RaffleEntry, status: OrderStatus.Status, paymentStatus: PaymentStatus.Status,
                              paymentTransactionCode: string, orderCode: string)
    requires Valid(db)
    requires entry.productId in db.products
    ensures var r := Save(db, entry, status, paymentStatus, paymentTransactionCode, orderCode);
      r.Success? ==> Valid(r.value.1) && |r.value.1.orders| == |db.orders| + 1 && -PRICE_BOUND < r.value.0.amount < PRICE_BOUND
  {
    var r := Save(db, entry, status, paymentStatus, paymentTransactionCode, orderCode);
    if r.Success? {
      AppendOrderPreservesValidity(db, r.value.0);
    }
  }
}
