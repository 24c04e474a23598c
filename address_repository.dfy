/** The address lookup of the address repository. */
module AddressRepository {
  import opened Wrappers
  import opened Schema
  import opened Scopes
  import opened Query

  /**
   * `ofUserId($userId)->findOrFail($addressId)`, with ModelNotFoundException turned into
   * AddressNotFoundException: another user's address is not found.
   */
  function FindAddressByIdForCurrentUser(db: Db, addressId: int, userId: int): (r: Result<Address, Exception>)
    ensures r.Success? <==> addressId in db.addresses && db.addresses[addressId].userId == userId
    ensures r.Success? ==> r.value == db.addresses[addressId]
    ensures r.Failure? ==> r.error == AddressNotFound
  {
    match FindOrFail(Where(db.addresses, a => OfUserId(a, userId)), addressId)
    case Success(a) => Success(a)
    case Failure(_) => Failure(AddressNotFound)
  }

  /** Of two different users at most one finds a given address. */
  lemma AddressBelongsToOneUser(db: Db, addressId: int, u1: int, u2: int)
    requires u1 != u2
    ensures !(FindAddressByIdForCurrentUser(db, addressId, u1).Success? && FindAddressByIdForCurrentUser(db, addressId, u2).Success?)
  {
  }
}
