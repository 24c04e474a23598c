/** The raffle entry queries, the entry insert and the winner promotion of the raffle entry repository. */
module RaffleEntryRepository {
  import opened Wrappers
  import opened Seqs
  import opened Schema
  import opened Scopes
  import opened Query
  import RaffleStatus

  /** What an entry is created from: the user, address and product rows, the status and the payment token. */
  datatype RaffleEntryDto = RaffleEntryDto(
    userId: int, addressId: int, productId: int, status: RaffleStatus.Status, paymentToken: string)

  /** `findOrFail($id)` on raffle_entries. */
  function FindById(db: Db, id: int): (r: Result<RaffleEntry, Exception>)
    ensures r.Success? <==> id in db.entries
    ensures r.Success? ==> r.value == db.entries[id]
    ensures r.Failure? ==> r.error == ModelNotFound
  {
    FindOrFail(db.entries, id)
  }

  /** `pending()->forUser($user)->forProduct($product)`. */
  function PendingEntriesFor(db: Db, userId: int, productId: int): (r: map<int, RaffleEntry>)
    ensures forall id :: id in r <==> id in db.entries && PendingFor(db.entries[id], userId, productId)
    ensures forall id :: id in r ==> r[id] == db.entries[id]
  {
    Where(Where(Where(db.entries, IsPending), e => ForUser(e, userId)), e => ForProduct(e, productId))
  }

  /** `pending()->forProduct($product)`. */
  function PendingEntriesOf(db: Db, productId: int): (r: map<int, RaffleEntry>)
    ensures forall id :: id in r <==> id in db.entries && IsPending(db.entries[id]) && ForProduct(db.entries[id], productId)
    ensures forall id :: id in r ==> r[id] == db.entries[id]
  {
    Where(Where(db.entries, IsPending), e => ForProduct(e, productId))
  }

  /** `pending()->forUser($user)->forProduct($product)->firstOrFail()`. */
  ghost function FindPendingByUserAndProduct(db: Db, userId: int, productId: int): (r: Result<RaffleEntry, Exception>)
    ensures r.Success? <==> exists id :: id in db.entries && PendingFor(db.entries[id], userId, productId)
    ensures r.Success? ==> PendingFor(r.value, userId, productId) && r.value in db.entries.Values
    ensures r.Failure? ==> r.error == ModelNotFound
  {
    FirstOrFail(PendingEntriesFor(db, userId, productId))
  }

  /**
   * Under the unique (product_id, user_id) key the pending lookup is determined: it returns the
   * one pending entry of the pair.
   */
  lemma PendingLookupIsUnique(db: Db, userId: int, productId: int, id: int)
    requires Valid(db)
    requires id in db.entries && PendingFor(db.entries[id], userId, productId)
    ensures FindPendingByUserAndProduct(db, userId, productId) == Success(db.entries[id])
  {
    var r := FindPendingByUserAndProduct(db, userId, productId);
    var other :| other in db.entries && db.entries[other] == r.value;
    assert other == id;
  }

  /** `pending()->forProduct($product)->count()`. */
  function GetEntryCount(db: Db, productId: int): (r: int)
    ensures r == |set id | id in db.entries && IsPending(db.entries[id]) && ForProduct(db.entries[id], productId)|
    ensures 0 <= r <= |db.entries|
    ensures r == 0 <==> forall id :: id in db.entries ==> !(IsPending(db.entries[id]) && ForProduct(db.entries[id], productId))
  {
    var rows := PendingEntriesOf(db, productId);
    assert rows.Keys == set id | id in db.entries && IsPending(db.entries[id]) && ForProduct(db.entries[id], productId);
    SubsetCardinality(rows.Keys, db.entries.Keys);
    assert |rows.Keys| == |rows| && |db.entries.Keys| == |db.entries|;
    assert (forall id :: id !in rows.Keys) ==> rows.Keys == {};
    |rows|
  }

  /**
   * `pending()->forProduct($product)->inRandomOrder()->take($product->qty)->pluck('id')`, where
   * `randomOrder` is the order the database shuffled the rows into.
   */
  function RandomlySelectWinners(db: Db, product: Product, randomOrder: seq<int>): (r: seq<int>)
    ensures |r| <= if product.qty < 0 then 0 else product.qty
    ensures forall id :: id in r ==> id in db.entries && IsPending(db.entries[id]) && ForProduct(db.entries[id], product.id)
    ensures NoDuplicates(randomOrder) ==> NoDuplicates(r)
  {
    Take(Pluck(PendingEntriesOf(db, product.id), randomOrder), product.qty)
  }

  /**
   * With the whole table shuffled, the draw holds min(qty, pending entries) distinct pending
   * entries of the product; when the product has no more stock than entries, exactly qty winners.
   */
  lemma SelectionSize(db: Db, product: Product, randomOrder: seq<int>)
    requires Enumerates(randomOrder, db.entries.Keys)
    ensures NoDuplicates(RandomlySelectWinners(db, product, randomOrder))
    ensures var count := GetEntryCount(db, product.id);
      |RandomlySelectWinners(db, product, randomOrder)| ==
        if product.qty <= 0 then 0 else if product.qty < count then product.qty else count
  {
    var rows := PendingEntriesOf(db, product.id);
    PluckCardinality(rows, randomOrder, db.entries.Keys);
    assert |rows.Keys| == |rows|;
    assert GetEntryCount(db, product.id) == |rows|;
  }

  /**
   * `create([...])`: inserts one row with the next auto-increment id, the DTO's fields and the
   * generated `entryCode`, unless a unique key or a foreign key refuses it.
   */
  function Save(db: Db, dto: RaffleEntryDto, entryCode: string): (r: Result<(RaffleEntry, Db), Exception>)
    ensures r.Success? <==>
      && dto.addressId in db.addresses && dto.productId in db.products
      && (forall id :: id in db.entries ==> db.entries[id].entryCode != entryCode)
      && (forall id :: id in db.entries ==> !(db.entries[id].productId == dto.productId && db.entries[id].userId == dto.userId))
    ensures r.Failure? ==> r.error.QueryException?
    ensures r.Success? ==> var (e, db') := r.value;
      && e == RaffleEntry(db.nextEntryId, entryCode, RaffleStatus.Value(dto.status), dto.userId,
                          dto.addressId, dto.productId, dto.paymentToken)
      && db' == db.(entries := db.entries[e.id := e], nextEntryId := db.nextEntryId + 1)
  {
    if dto.addressId !in db.addresses then
      Failure(QueryException(ForeignKeyFails("address_id")))
    else if dto.productId !in db.products then
      Failure(QueryException(ForeignKeyFails("product_id")))
    else if exists id :: id in db.entries && db.entries[id].entryCode == entryCode then
      Failure(QueryException(DuplicateKey("raffle_entries_entry_code_unique")))
    else if exists id :: id in db.entries && db.entries[id].productId == dto.productId && db.entries[id].userId == dto.userId then
      Failure(QueryException(DuplicateKey("unique_product_user")))
    else
      var e := RaffleEntry(db.nextEntryId, entryCode, RaffleStatus.Value(dto.status), dto.userId,
                           dto.addressId, dto.productId, dto.paymentToken);
      Success((e, db.(entries := db.entries[e.id := e], nextEntryId := db.nextEntryId + 1)))
  }

  /** An accepted insert keeps every constraint and every order settled, and adds exactly one row. */
  lemma SavePreservesConsistency(db: Db, dto: RaffleEntryDto, entryCode: string)
    requires Consistent(db)
    ensures Save(db, dto, entryCode).Success? ==>
      var db' := Save(db, dto, entryCode).value.1;
      Consistent(db') && db.nextEntryId !in db.entries && |db'.entries| == |db.entries| + 1
  {
    if Save(db, dto, entryCode).Success? {
      var (e, db') := Save(db, dto, entryCode).value;
      InsertEntryPreservesConsistency(db, e);
      assert db.nextEntryId !in db.entries;
      assert db'.entries.Keys == db.entries.Keys + {e.id};
    }
  }

  /** `update(['status' => WINNER])` on an entry row; a row deleted meanwhile is not touched. */
  function SetWinner(db: Db, entryId: int): (r: Db)
    ensures r == db.(entries := r.entries)
    ensures r.entries.Keys == db.entries.Keys
    ensures forall id :: id in db.entries && id != entryId ==> r.entries[id] == db.entries[id]
    ensures entryId in db.entries ==>
      r.entries[entryId] == db.entries[entryId].(status := RaffleStatus.Value(RaffleStatus.Winner))
  {
    if entryId in db.entries then
      db.(entries := db.entries[entryId := db.entries[entryId].(status := RaffleStatus.Value(RaffleStatus.Winner))])
    else
      db
  }

  /** Promoting an entry keeps every constraint and every order settled. */
  lemma SetWinnerPreservesConsistency(db: Db, entryId: int)
    requires Consistent(db)
    ensures Consistent(SetWinner(db, entryId))
  {
    StatusChangePreservesConsistency(db, SetWinner(db, entryId));
  }
}
