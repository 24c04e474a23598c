/** The pending-entry check used before creating or cancelling an entry. */
module CheckIfUserHasAlreadyEnteredRaffleAction {
  import opened Wrappers
  import opened Schema
  import opened Scopes
  import RaffleEntryRepository

  /**
   * The user's pending entry for the product, or none (`false`) when the lookup throws
   * ModelNotFoundException.
   */
  ghost function Handle(db: Db, userId: int, productId: int): (r: Option<RaffleEntry>)
    ensures r.Some? <==> exists id :: id in db.entries && PendingFor(db.entries[id], userId, productId)
    ensures r.Some? ==> r.value in db.entries.Values && IsPending(r.value)
    ensures r.Some? ==> r.value.userId == userId && r.value.productId == productId
  {
    match RaffleEntryRepository.FindPendingByUserAndProduct(db, userId, productId)
    case Success(e) => Some(e)
    case Failure(_) => None
  }

  /** Pending entries of other users, other products, and entries that are no longer pending are all ignored. */
  lemma IgnoresOtherEntries(db: Db, userId: int, productId: int, id: int, e: RaffleEntry)
    requires id !in db.entries
    requires !PendingFor(e, userId, productId)
    ensures Handle(db.(entries := db.entries[id := e]), userId, productId).None? <==> Handle(db, userId, productId).None?
  {
    var db' := db.(entries := db.entries[id := e]);
    if Handle(db', userId, productId).Some? {
      var k :| k in db'.entries && PendingFor(db'.entries[k], userId, productId);
      assert k != id && k in db.entries;
    }
  }
}
