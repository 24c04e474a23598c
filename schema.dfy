/**
 * The rows of the products, raffle_entries, orders and addresses tables, the database as a
 * value, and the constraints the migrations declare on it.
 */
module Schema {
  import ProductStatus
  import RaffleStatus
  import OrderStatus
  import PaymentStatus

  /** A products row. `price` is in cents (decimal(10,2)); `raffleDate` is a timestamp. */
  datatype Product = Product(
    id: int, status: int, sku: string, slug: string, price: int, qty: int, raffleDate: int)

  /** A raffle_entries row. */
  datatype RaffleEntry = RaffleEntry(
    id: int, entryCode: string, status: int, userId: int, addressId: int, productId: int,
    encryptedPaymentToken: string)

  /** An orders row. `amount` is in cents (decimal(10,2)). */
  datatype Order = Order(
    id: int, orderCode: string, paymentTransactionCode: string, status: int, paymentStatus: int,
    raffleEntryId: int, userId: int, addressId: int, productId: int, amount: int)

  /** An addresses row. */
  datatype Address = Address(id: int, userId: int, countryCode: string)

  /** The events handed to listeners, in the order they were dispatched. */
  datatype Event = RaffleEntryCreated(entryId: int) | OrderCreated(orderId: int)

  /**
   * The stored state: the tables keyed by primary key (orders are append-only, so a sequence),
   * the ids of the users table, the event log and the next auto-increment ids.
   */
  datatype Db = Db(
    products: map<int, Product>,
    entries: map<int, RaffleEntry>,
    orders: seq<Order>,
    addresses: map<int, Address>,
    users: set<int>,
    events: seq<Event>,
    nextEntryId: int,
    nextOrderId: int)

  /** Why the database refused a statement. */
  datatype DbError = DuplicateKey(index: string) | ForeignKeyFails(column: string) | OutOfRange(column: string)

  /** The exceptions the core can raise. */
  datatype Exception =
    | ModelNotFound
    | ProductNotFound
    | AddressNotFound
    | QueryException(error: DbError)
    | TypeError

  /** products.qty is an unsigned 32-bit integer. */
  const QTY_MAX: int := 4294967295

  /** decimal(10, 2): at most ten digits, two of them after the point, so |cents| < 10^10. */
  const PRICE_BOUND: int := 10000000000

  /** Column defaults. */
  const DEFAULT_PRODUCT_STATUS: int := 0
  const DEFAULT_ENTRY_STATUS: int := 0
  const DEFAULT_ORDER_STATUS: int := 0
  const DEFAULT_PAYMENT_STATUS: int := 0

  /** Every default status is the first case of its enum: inactive, pending, pending, pending. */
  lemma DefaultStatuses()
    ensures ProductStatus.ToString(DEFAULT_PRODUCT_STATUS) == "inactive"
    ensures RaffleStatus.ToString(DEFAULT_ENTRY_STATUS) == "pending"
    ensures OrderStatus.ToString(DEFAULT_ORDER_STATUS) == "pending"
    ensures PaymentStatus.ToString(DEFAULT_PAYMENT_STATUS) == "pending"
  {
  }

  /** products: key = id, unsigned qty, decimal(10,2) price, unique sku, unique slug. */
  ghost predicate ProductsValid(db: Db) {
    && (forall id :: id in db.products ==>
          && db.products[id].id == id && 0 < id
          && 0 <= db.products[id].qty <= QTY_MAX
          && -PRICE_BOUND < db.products[id].price < PRICE_BOUND)
    && (forall a, b :: a in db.products && b in db.products && a != b ==>
          db.products[a].sku != db.products[b].sku && db.products[a].slug != db.products[b].slug)
  }

  /**
   * raffle_entries: key = id (below the next auto-increment id), address_id and product_id
   * reference existing rows (user_id is only indexed), unique entry_code, unique (product_id, user_id).
   */
  ghost predicate EntriesValid(db: Db) {
    && 0 < db.nextEntryId
    && (forall id :: id in db.entries ==>
          && db.entries[id].id == id && 0 < id < db.nextEntryId
          && db.entries[id].addressId in db.addresses
          && db.entries[id].productId in db.products)
    && (forall a, b :: a in db.entries && b in db.entries && a != b ==>
          && db.entries[a].entryCode != db.entries[b].entryCode
          && (db.entries[a].productId != db.entries[b].productId || db.entries[a].userId != db.entries[b].userId))
  }

  /**
   * orders: ids below the next auto-increment id, unique id, order_code and payment_transaction_code,
   * and raffle_entry_id, user_id, address_id, product_id referencing existing rows.
   */
  ghost predicate OrdersValid(db: Db) {
    && 0 < db.nextOrderId
    && (forall i :: 0 <= i < |db.orders| ==>
          && 0 < db.orders[i].id < db.nextOrderId
          && db.orders[i].raffleEntryId in db.entries
          && db.orders[i].userId in db.users
          && db.orders[i].addressId in db.addresses
          && db.orders[i].productId in db.products)
    && (forall i, j :: 0 <= i < j < |db.orders| ==>
          && db.orders[i].id != db.orders[j].id
          && db.orders[i].orderCode != db.orders[j].orderCode
          && db.orders[i].paymentTransactionCode != db.orders[j].paymentTransactionCode)
  }

  /** addresses: key = id. */
  ghost predicate AddressesValid(db: Db) {
    forall id :: id in db.addresses ==> db.addresses[id].id == id
  }

  /**
   * Every product and entry row is stored under its own id, and every entry's product exists
   * (implied by Valid).
   */
  ghost predicate Linked(db: Db) {
    && (forall id :: id in db.products ==> db.products[id].id == id)
    && (forall id :: id in db.entries ==> db.entries[id].id == id && db.entries[id].productId in db.products)
  }

  /** Every constraint the migrations declare. */
  ghost predicate Valid(db: Db) {
    ProductsValid(db) && EntriesValid(db) && OrdersValid(db) && AddressesValid(db)
  }

  /**
   * What the application adds to the schema: every order belongs to a winning entry and copies
   * that entry's user, address and product.
   */
  ghost predicate OrdersSettled(db: Db) {
    forall i :: 0 <= i < |db.orders| ==>
      && db.orders[i].raffleEntryId in db.entries
      && db.entries[db.orders[i].raffleEntryId].status == RaffleStatus.Value(RaffleStatus.Winner)
      && db.entries[db.orders[i].raffleEntryId].userId == db.orders[i].userId
      && db.entries[db.orders[i].raffleEntryId].addressId == db.orders[i].addressId
      && db.entries[db.orders[i].raffleEntryId].productId == db.orders[i].productId
  }

  /**
   * Changing only the status of existing entries keeps every constraint; it keeps the orders
   * settled as long as no winner loses its status.
   */
  lemma StatusChangePreservesConsistency(db: Db, db': Db)
    requires db' == db.(entries := db'.entries)
    requires db'.entries.Keys == db.entries.Keys
    requires forall id :: id in db.entries ==> db'.entries[id] == db.entries[id].(status := db'.entries[id].status)
    requires forall id :: id in db.entries && db.entries[id].status == RaffleStatus.Value(RaffleStatus.Winner) ==>
      db'.entries[id].status == RaffleStatus.Value(RaffleStatus.Winner)
    ensures Valid(db) ==> Valid(db')
    ensures Consistent(db) ==> Consistent(db')
  {
    if Valid(db) {
      assert EntriesValid(db') by {
        forall a, b | a in db'.entries && b in db'.entries && a != b
          ensures db'.entries[a].entryCode != db'.entries[b].entryCode
          ensures db'.entries[a].productId != db'.entries[b].productId || db'.entries[a].userId != db'.entries[b].userId
        {
          assert db'.entries[a] == db.entries[a].(status := db'.entries[a].status);
          assert db'.entries[b] == db.entries[b].(status := db'.entries[b].status);
        }
      }
    }
  }

  /**
   * Inserting a row under the next auto-increment id keeps every constraint and every order
   * settled when the row's foreign keys exist and its unique keys are new.
   */
  lemma InsertEntryPreservesConsistency(db: Db, e: RaffleEntry)
    requires Consistent(db)
    requires e.id == db.nextEntryId
    requires e.addressId in db.addresses && e.productId in db.products
    requires forall id :: id in db.entries ==> db.entries[id].entryCode != e.entryCode
    requires forall id :: id in db.entries ==> !(db.entries[id].productId == e.productId && db.entries[id].userId == e.userId)
    ensures Consistent(db.(entries := db.entries[e.id := e], nextEntryId := db.nextEntryId + 1))
  {
    var db' := db.(entries := db.entries[e.id := e], nextEntryId := db.nextEntryId + 1);
    assert e.id !in db.entries;
    assert forall id :: id in db.entries ==> db'.entries[id] == db.entries[id];
    assert EntriesValid(db') by {
      forall a, b | a in db'.entries && b in db'.entries && a != b
        ensures db'.entries[a].entryCode != db'.entries[b].entryCode
        ensures db'.entries[a].productId != db'.entries[b].productId || db'.entries[a].userId != db'.entries[b].userId
      {
      }
    }
    assert OrdersValid(db');
    assert OrdersSettled(db');
  }

  /** Deleting an entry no order references keeps every constraint and every order settled. */
  lemma DeleteEntryPreservesConsistency(db: Db, entryId: int)
    requires Consistent(db)
    requires forall i :: 0 <= i < |db.orders| ==> db.orders[i].raffleEntryId != entryId
    ensures Consistent(db.(entries := db.entries - {entryId}))
  {
    var db' := db.(entries := db.entries - {entryId});
    assert forall id :: id in db'.entries ==> db'.entries[id] == db.entries[id];
    assert EntriesValid(db');
    assert OrdersValid(db');
    assert OrdersSettled(db');
  }

  /**
   * Appending an order under the next auto-increment id keeps every constraint when the rows it
   * references exist and its codes are new.
   */
  lemma AppendOrderPreservesValidity(db: Db, o: Order)
    requires Valid(db)
    requires o.id == db.nextOrderId
    requires o.raffleEntryId in db.entries && o.userId in db.users && o.addressId in db.addresses && o.productId in db.products
    requires forall i :: 0 <= i < |db.orders| ==> db.orders[i].orderCode != o.orderCode
    requires forall i :: 0 <= i < |db.orders| ==> db.orders[i].paymentTransactionCode != o.paymentTransactionCode
    ensures Valid(db.(orders := db.orders + [o], nextOrderId := db.nextOrderId + 1))
  {
    var db' := db.(orders := db.orders + [o], nextOrderId := db.nextOrderId + 1);
    assert OrdersValid(db') by {
      forall i, j | 0 <= i < j < |db'.orders|
        ensures db'.orders[i].id != db'.orders[j].id
        ensures db'.orders[i].orderCode != db'.orders[j].orderCode
        ensures db'.orders[i].paymentTransactionCode != db'.orders[j].paymentTransactionCode
      {
        if j == |db.orders| {
          assert db'.orders[j] == o && db'.orders[i] == db.orders[i];
        }
      }
    }
  }

  /** The invariant every operation of the core keeps. */
  ghost predicate Consistent(db: Db) {
    Valid(db) && OrdersSettled(db)
  }
}
