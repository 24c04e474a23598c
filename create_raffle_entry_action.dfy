/** Entering a raffle: reuse the user's pending entry for the product, or insert one and announce it. */
module CreateRaffleEntryAction {
  import opened Wrappers
  import opened Schema
  import opened Scopes
  import RaffleStatus
  import RaffleEntryRepository
  import CheckIfUserHasAlreadyEnteredRaffleAction

  type RaffleEntryDto = RaffleEntryRepository.RaffleEntryDto

  /** The entry handed back, whether it was inserted by this call, and the state afterwards. */
  datatype Entered = Entered(entry: RaffleEntry, wasRecentlyCreated: bool, db: Db)

  /**
   * The pending entry of (user, product) if there is one, untouched; otherwise the row `save`
   * inserts with the generated `entryCode`, followed by a RaffleEntryCreated event.
   */
  ghost function Handle(db: Db, dto: RaffleEntryDto, entryCode: string): (r: Result<Entered, Exception>)
    ensures r.Success? ==> r.value.entry.userId == dto.userId && r.value.entry.productId == dto.productId
    ensures r.Success? && !r.value.wasRecentlyCreated ==>
      r.value.db == db && r.value.entry in db.entries.Values && IsPending(r.value.entry)
    ensures r.Success? && r.value.wasRecentlyCreated ==>
      && r.value.entry.id == db.nextEntryId
      && r.value.entry.entryCode == entryCode
      && r.value.entry.status == RaffleStatus.Value(dto.status)
      && r.value.entry.addressId == dto.addressId
      && r.value.entry.encryptedPaymentToken == dto.paymentToken
      && r.value.db == db.(entries := db.entries[r.value.entry.id := r.value.entry],
                           nextEntryId := db.nextEntryId + 1,
                           events := db.events + [RaffleEntryCreated(r.value.entry.id)])
    ensures r.Success? && r.value.wasRecentlyCreated <==>
      && CheckIfUserHasAlreadyEnteredRaffleAction.Handle(db, dto.userId, dto.productId).None?
      && RaffleEntryRepository.Save(db, dto, entryCode).Success?
    ensures CheckIfUserHasAlreadyEnteredRaffleAction.Handle(db, dto.userId, dto.productId).Some? ==>
      r == Success(Entered(CheckIfUserHasAlreadyEnteredRaffleAction.Handle(db, dto.userId, dto.productId).value, false, db))
    ensures r.Failure? <==>
      && CheckIfUserHasAlreadyEnteredRaffleAction.Handle(db, dto.userId, dto.productId).None?
      && RaffleEntryRepository.Save(db, dto, entryCode).Failure?
    ensures r.Failure? ==> r.error == RaffleEntryRepository.Save(db, dto, entryCode).error && r.error.QueryException?
  {
    match CheckIfUserHasAlreadyEnteredRaffleAction.Handle(db, dto.userId, dto.productId)
    case Some(existing) => Success(Entered(existing, false, db))
    case None =>
      match RaffleEntryRepository.Save(db, dto, entryCode)
      case Failure(e) => Failure(e)
      case Success((entry, db')) =>
        Success(Entered(entry, true, db'.(events := db'.events + [RaffleEntryCreated(entry.id)])))
  }

  /**
   * A pending entry the user already has for the product, however it got there, is handed back
   * as it is, and nothing is inserted.
   */
  lemma ReturnsExistingPendingEntry(db: Db, dto: RaffleEntryDto, entryCode: string, id: int)
    requires Valid(db)
    requires id in db.entries && PendingFor(db.entries[id], dto.userId, dto.productId)
    ensures Handle(db, dto, entryCode) == Success(Entered(db.entries[id], false, db))
  {
    RaffleEntryRepository.PendingLookupIsUnique(db, dto.userId, dto.productId, id);
  }

  /** Creating an entry keeps every constraint and every order settled. */
  lemma HandlePreservesConsistency(db: Db, dto: RaffleEntryDto, entryCode: string)
    requires Consistent(db)
    ensures Handle(db, dto, entryCode).Success? ==> Consistent(Handle(db, dto, entryCode).value.db)
  {
    RaffleEntryRepository.SavePreservesConsistency(db, dto, entryCode);
  }

  /**
   * The event log grows by exactly one RaffleEntryCreated event, for the inserted row, when a row
   * is inserted, and is left alone otherwise.
   */
  lemma EventIffInserted(db: Db, dto: RaffleEntryDto, entryCode: string)
    requires Valid(db)
    requires Handle(db, dto, entryCode).Success?
    ensures var r := Handle(db, dto, entryCode).value;
      (r.wasRecentlyCreated ==> r.db.events == db.events + [RaffleEntryCreated(r.entry.id)]) &&
      (!r.wasRecentlyCreated ==> r.db.events == db.events) &&
      (r.wasRecentlyCreated <==> |r.db.entries| == |db.entries| + 1)
  {
    var r := Handle(db, dto, entryCode).value;
    if r.wasRecentlyCreated {
      assert r.entry.id !in db.entries;
      assert r.db.entries.Keys == db.entries.Keys + {r.entry.id};
    }
  }

  /**
   * Entering twice with a pending DTO, whatever the second entry code, hands back the entry the
   * first call produced and changes nothing the second time.
   */
  lemma HandleIsIdempotent(db: Db, dto: RaffleEntryDto, code1: string, code2: string)
    requires Consistent(db)
    requires dto.status == RaffleStatus.Pending
    requires Handle(db, dto, code1).Success?
    ensures var first := Handle(db, dto, code1).value;
      Handle(first.db, dto, code2) == Success(Entered(first.entry, false, first.db))
  {
    var first := Handle(db, dto, code1).value;
    RaffleEntryRepository.SavePreservesConsistency(db, dto, code1);
    assert Valid(first.db) by {
      if first.wasRecentlyCreated {
        assert first.db.entries == first.db.entries;
      }
    }
    assert first.entry.id in first.db.entries && first.db.entries[first.entry.id] == first.entry by {
      if !first.wasRecentlyCreated {
        var k :| k in db.entries && db.entries[k] == first.entry;
        assert first.entry.id == k;
      }
    }
    RaffleEntryRepository.PendingLookupIsUnique(first.db, dto.userId, dto.productId, first.entry.id);
  }

  /**
   * Only pending entries are looked for: an entry of the pair that is no longer pending makes the
   * insert hit the unique (product_id, user_id) key.
   */
  lemma NonPendingEntryBlocksCreate(db: Db, dto: RaffleEntryDto, entryCode: string, id: int)
    requires Valid(db)
    requires id in db.entries && db.entries[id].userId == dto.userId && db.entries[id].productId == dto.productId
    requires !IsPending(db.entries[id])
    ensures Handle(db, dto, entryCode).Failure?
    ensures Handle(db, dto, entryCode).error.QueryException?
  {
  }
}
