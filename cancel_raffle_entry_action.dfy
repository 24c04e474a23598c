/** Leaving a raffle: delete the user's pending entry for the product, if there is one. */
module CancelRaffleEntryAction {
  import opened Wrappers
  import opened Schema
  import opened Scopes
  import CheckIfUserHasAlreadyEnteredRaffleAction

  /** `delete()` of an entry row; an order still referencing it makes the foreign key refuse. */
  function Delete(db: Db, entryId: int): (r: Result<Db, Exception>)
    ensures r.Failure? <==> exists i :: 0 <= i < |db.orders| && db.orders[i].raffleEntryId == entryId
    ensures r.Failure? ==> r.error == QueryException(ForeignKeyFails("raffle_entry_id"))
    ensures r.Success? ==> r.value == db.(entries := db.entries - {entryId})
  {
    if exists i :: 0 <= i < |db.orders| && db.orders[i].raffleEntryId == entryId then
      Failure(QueryException(ForeignKeyFails("raffle_entry_id")))
    else
      Success(db.(entries := db.entries - {entryId}))
  }

  /** Deletes the pending entry of (user, product) when there is one; otherwise does nothing. */
  ghost function Handle(db: Db, userId: int, productId: int): (r: Result<Db, Exception>)
    ensures (forall id :: id in db.entries ==> !PendingFor(db.entries[id], userId, productId)) ==> r == Success(db)
    ensures r.Success? ==> r.value == db.(entries := r.value.entries)
    ensures r.Success? ==> forall id :: id in r.value.entries ==> id in db.entries && r.value.entries[id] == db.entries[id]
    ensures r.Success? && EntriesValid(db) ==>
      forall id :: id in db.entries && id !in r.value.entries ==> PendingFor(db.entries[id], userId, productId)
    ensures r.Failure? ==> r.error.QueryException?
  {
    match CheckIfUserHasAlreadyEnteredRaffleAction.Handle(db, userId, productId)
    case None => Success(db)
    case Some(entry) => Delete(db, entry.id)
  }

  /**
   * In a consistent state cancelling never fails, leaves no pending entry of (user, product),
   * keeps every other entry, and keeps the state consistent.
   */
  lemma HandleRemovesPendingEntry(db: Db, userId: int, productId: int)
    requires Consistent(db)
    ensures Handle(db, userId, productId).Success?
    ensures var db' := Handle(db, userId, productId).value;
      && Consistent(db')
      && (forall id :: id in db'.entries ==> !PendingFor(db'.entries[id], userId, productId))
      && (forall id :: id in db.entries && !PendingFor(db.entries[id], userId, productId) ==> id in db'.entries)
  {
    var r := CheckIfUserHasAlreadyEnteredRaffleAction.Handle(db, userId, productId);
    if r.Some? {
      var k :| k in db.entries && db.entries[k] == r.value;
      assert r.value.id == k;
      assert forall i :: 0 <= i < |db.orders| ==> db.orders[i].raffleEntryId != k;
      var db' := db.(entries := db.entries - {k});
      forall id | id in db.entries && PendingFor(db.entries[id], userId, productId)
        ensures id == k
      {
      }
      DeleteEntryPreservesConsistency(db, k);
    }
  }

  /** Cancelling a second time changes nothing. */
  lemma HandleIsIdempotent(db: Db, userId: int, productId: int)
    requires Consistent(db)
    ensures var r := Handle(db, userId, productId);
      r.Success? && Handle(r.value, userId, productId) == r
  {
    HandleRemovesPendingEntry(db, userId, productId);
  }
}
