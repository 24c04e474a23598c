/**
 * The API endpoints for entering and leaving a raffle: which lookups and actions they run, and
 * which JSON reply and HTTP code each outcome gets.
 */
module RaffleEntryController {
  import opened Wrappers
  import opened Schema
  import opened Scopes
  import RaffleStatus
  import AddressRepository
  import ProductRepository
  import RaffleEntryRepository
  import CreateRaffleEntryAction
  import CancelRaffleEntryAction
  import Storage = Store

  const HTTP_OK: int := 200
  const HTTP_CREATED: int := 201
  const HTTP_BAD_REQUEST: int := 400

  /** The messages of AddressNotFoundException and ProductNotFoundException, and the catch-all. */
  const ADDRESS_NOT_FOUND_MESSAGE: string := "Address not found."
  const PRODUCT_NOT_FOUND_MESSAGE: string := "Product not found."
  const SOMETHING_WENT_WRONG: string := "Something went wrong"

  /** A JSON reply with its HTTP code, or an exception the endpoint lets through. */
  datatype Reply =
    | Json(httpCode: int, status: string, entryCode: Option<string>, error: Option<string>)
    | Uncaught(exception: Exception)

  /** The reply and the state the request leaves. */
  datatype Response = Response(reply: Reply, db: Db)

  /** `response()->json(['status' => 'failed', 'error' => ...], $code)`. */
  function Failed(httpCode: int, message: string): Reply {
    Json(httpCode, "failed", None, Some(message))
  }

  /** The message `store` reports for an exception it catches. */
  function StoreErrorMessage(e: Exception): (message: string)
    ensures message == ADDRESS_NOT_FOUND_MESSAGE <==> e == AddressNotFound
    ensures message == PRODUCT_NOT_FOUND_MESSAGE <==> e == ProductNotFound
    ensures e != AddressNotFound && e != ProductNotFound ==> message == SOMETHING_WENT_WRONG
  {
    match e
    case AddressNotFound => ADDRESS_NOT_FOUND_MESSAGE
    case ProductNotFound => PRODUCT_NOT_FOUND_MESSAGE
    case _ => SOMETHING_WENT_WRONG
  }

  /** The DTO `store` builds from the user, the found address and product, PENDING and the token. */
  function EntryRequest(userId: int, address: Address, product: Product, paymentToken: string): RaffleEntryRepository.RaffleEntryDto {
    RaffleEntryRepository.RaffleEntryDto(userId, address.id, product.id, RaffleStatus.Pending, paymentToken)
  }

  /**
   * `store`: the user's address is looked up first, then the active product, then the entry is
   * created; a created entry is answered with 201, a reused one with 200, both with its entry
   * code, and every exception is caught and answered with 400 and its message.
   */
  ghost function StoreResponse(db: Db, userId: int, addressId: int, productId: int, paymentToken: string, entryCode: string): (r: Response)
    ensures r.reply.Json?
    ensures AddressRepository.FindAddressByIdForCurrentUser(db, addressId, userId).Failure? ==>
      r == Response(Failed(HTTP_BAD_REQUEST, ADDRESS_NOT_FOUND_MESSAGE), db)
    ensures AddressRepository.FindAddressByIdForCurrentUser(db, addressId, userId).Success? &&
            ProductRepository.FindActiveProductById(db, productId).Failure? ==>
      r == Response(Failed(HTTP_BAD_REQUEST, PRODUCT_NOT_FOUND_MESSAGE), db)
    ensures r.reply.status == "success" <==> r.reply.httpCode != HTTP_BAD_REQUEST
    ensures r.reply.httpCode == HTTP_BAD_REQUEST ==> r.db == db && r.reply.entryCode.None?
    ensures r.reply.httpCode == HTTP_CREATED <==>
      && AddressRepository.FindAddressByIdForCurrentUser(db, addressId, userId).Success?
      && ProductRepository.FindActiveProductById(db, productId).Success?
      && r.db.nextEntryId == db.nextEntryId + 1
    ensures r.reply.httpCode != HTTP_BAD_REQUEST ==>
      && productId in db.products && IsActive(db.products[productId])
      && exists id :: && id in r.db.entries && r.db.entries[id].userId == userId
                      && r.db.entries[id].productId == db.products[productId].id && IsPending(r.db.entries[id])
                      && Some(r.db.entries[id].entryCode) == r.reply.entryCode
  {
    match AddressRepository.FindAddressByIdForCurrentUser(db, addressId, userId)
    case Failure(e) => Response(Failed(HTTP_BAD_REQUEST, StoreErrorMessage(e)), db)
    case Success(address) =>
      match ProductRepository.FindActiveProductById(db, productId)
      case Failure(e) => Response(Failed(HTTP_BAD_REQUEST, StoreErrorMessage(e)), db)
      case Success(product) =>
        match CreateRaffleEntryAction.Handle(db, EntryRequest(userId, address, product, paymentToken), entryCode)
        case Failure(e) => Response(Failed(HTTP_BAD_REQUEST, StoreErrorMessage(e)), db)
        case Success(entered) =>
          assert entered.entry in entered.db.entries.Values by {
            if entered.wasRecentlyCreated {
              assert entered.db.entries[entered.entry.id] == entered.entry;
            }
          }
          Response(Json(if entered.wasRecentlyCreated then HTTP_CREATED else HTTP_OK, "success",
                        Some(entered.entry.entryCode), None),
                   entered.db)
  }

  /**
   * `destroy`: the active product is looked up, then the user's pending entry for it is
   * cancelled; a product not found is answered with 200 and status 'failed', and an exception of
   * the cancel itself is not caught.
   */
  ghost function DestroyResponse(db: Db, userId: int, productId: int): (r: Response)
    ensures ProductRepository.FindActiveProductById(db, productId).Failure? ==>
      r == Response(Failed(HTTP_OK, PRODUCT_NOT_FOUND_MESSAGE), db)
    ensures r.reply.Json? ==> r.reply.httpCode == HTTP_OK && r.reply.entryCode.None?
    ensures r.reply.Json? && r.reply.status == "success" <==>
      && ProductRepository.FindActiveProductById(db, productId).Success?
      && CancelRaffleEntryAction.Handle(db, userId, db.products[productId].id).Success?
    ensures r.reply.Uncaught? ==> r.db == db && r.reply.exception.QueryException?
  {
    match ProductRepository.FindActiveProductById(db, productId)
    case Failure(_) => Response(Failed(HTTP_OK, PRODUCT_NOT_FOUND_MESSAGE), db)
    case Success(product) =>
      match CancelRaffleEntryAction.Handle(db, userId, product.id)
      case Failure(e) => Response(Uncaught(e), db)
      case Success(db') => Response(Json(HTTP_OK, "success", None, None), db')
  }

  /** An address of another user, or a missing one, is reported even when the product is missing too. */
  lemma AddressCheckedBeforeProduct(db: Db, userId: int, addressId: int, productId: int, paymentToken: string, entryCode: string)
    requires addressId !in db.addresses || db.addresses[addressId].userId != userId
    ensures StoreResponse(db, userId, addressId, productId, paymentToken, entryCode).reply ==
      Json(HTTP_BAD_REQUEST, "failed", None, Some("Address not found."))
  {
  }

  /**
   * A user who already has a pending entry for the product, however it got there, is answered
   * with 200 and that entry's code, and nothing changes.
   */
  lemma StoreReusesPendingEntry(db: Db, userId: int, addressId: int, productId: int, paymentToken: string,
                                entryCode: string, id: int)
    requires Consistent(db)
    requires AddressRepository.FindAddressByIdForCurrentUser(db, addressId, userId).Success?
    requires ProductRepository.FindActiveProductById(db, productId).Success?
    requires id in db.entries && PendingFor(db.entries[id], userId, db.products[productId].id)
    ensures StoreResponse(db, userId, addressId, productId, paymentToken, entryCode) ==
      Response(Json(HTTP_OK, "success", Some(db.entries[id].entryCode), None), db)
  {
    var address := AddressRepository.FindAddressByIdForCurrentUser(db, addressId, userId).value;
    var product := ProductRepository.FindActiveProductById(db, productId).value;
    CreateRaffleEntryAction.ReturnsExistingPendingEntry(db, EntryRequest(userId, address, product, paymentToken), entryCode, id);
  }

  /** A found address and product whose entry cannot be created are answered with 400 and the catch-all message. */
  lemma StoreReportsFailedCreate(db: Db, userId: int, addressId: int, productId: int, paymentToken: string, entryCode: string)
    requires AddressRepository.FindAddressByIdForCurrentUser(db, addressId, userId).Success?
    requires ProductRepository.FindActiveProductById(db, productId).Success?
    requires var dto := EntryRequest(userId, AddressRepository.FindAddressByIdForCurrentUser(db, addressId, userId).value,
                                     ProductRepository.FindActiveProductById(db, productId).value, paymentToken);
      CreateRaffleEntryAction.Handle(db, dto, entryCode).Failure?
    ensures StoreResponse(db, userId, addressId, productId, paymentToken, entryCode) ==
      Response(Failed(HTTP_BAD_REQUEST, SOMETHING_WENT_WRONG), db)
  {
  }

  /**
   * Entering twice is answered first with the entry code, then with 200 and the same entry code,
   * and the second request changes nothing.
   */
  lemma StoreTwice(db: Db, userId: int, addressId: int, productId: int, paymentToken: string, code1: string, code2: string)
    requires Consistent(db)
    requires StoreResponse(db, userId, addressId, productId, paymentToken, code1).reply.httpCode != HTTP_BAD_REQUEST
    ensures var first := StoreResponse(db, userId, addressId, productId, paymentToken, code1);
      StoreResponse(first.db, userId, addressId, productId, paymentToken, code2) ==
        Response(Json(HTTP_OK, "success", first.reply.entryCode, None), first.db)
  {
    var address := db.addresses[addressId];
    var product := db.products[productId];
    var dto := EntryRequest(userId, address, product, paymentToken);
    var first := CreateRaffleEntryAction.Handle(db, dto, code1).value;
    CreateRaffleEntryAction.HandleIsIdempotent(db, dto, code1, code2);
    assert first.db.addresses == db.addresses && first.db.products == db.products;
  }

  /**
   * On a consistent state, leaving is always answered with 200 and never throws; when the product
   * is found, the user has no pending entry for it afterwards and their other entries stay.
   */
  lemma DestroyRemovesPendingEntry(db: Db, userId: int, productId: int)
    requires Consistent(db)
    ensures var r := DestroyResponse(db, userId, productId);
      && r.reply.Json? && r.reply.httpCode == HTTP_OK && Consistent(r.db)
      && (r.reply.status == "success" ==>
            && (forall id :: id in r.db.entries ==> !PendingFor(r.db.entries[id], userId, productId))
            && (forall id :: id in db.entries && !PendingFor(db.entries[id], userId, productId) ==> id in r.db.entries))
  {
    CancelRaffleEntryAction.HandleRemovesPendingEntry(db, userId, productId);
  }

  /** `store` on the database object. */
  method Store(store: Storage.RaffleStore, userId: int, addressId: int, productId: int, paymentToken: string, entryCode: string)
    returns (reply: Reply)
    requires store.Valid()
    modifies store
    ensures store.Valid()
    ensures Response(reply, store.Snapshot()) ==
      StoreResponse(old(store.Snapshot()), userId, addressId, productId, paymentToken, entryCode)
  {
    var address := AddressRepository.FindAddressByIdForCurrentUser(store.Snapshot(), addressId, userId);
    if address.Failure? {
      return Failed(HTTP_BAD_REQUEST, StoreErrorMessage(address.error));
    }
    var product := ProductRepository.FindActiveProductById(store.Snapshot(), productId);
    if product.Failure? {
      return Failed(HTTP_BAD_REQUEST, StoreErrorMessage(product.error));
    }
    var entered := store.CreateRaffleEntry(EntryRequest(userId, address.value, product.value, paymentToken), entryCode);
    if entered.Failure? {
      return Failed(HTTP_BAD_REQUEST, StoreErrorMessage(entered.error));
    }
    var (entry, wasRecentlyCreated) := entered.value;
    return Json(if wasRecentlyCreated then HTTP_CREATED else HTTP_OK, "success", Some(entry.entryCode), None);
  }

  /** `destroy` on the database object; on a consistent database the cancel cannot throw. */
  method Destroy(store: Storage.RaffleStore, userId: int, productId: int) returns (reply: Reply)
    requires store.Valid()
    modifies store
    ensures store.Valid()
    ensures Response(reply, store.Snapshot()) == DestroyResponse(old(store.Snapshot()), userId, productId)
  {
    var product := ProductRepository.FindActiveProductById(store.Snapshot(), productId);
    if product.Failure? {
      return Failed(HTTP_OK, PRODUCT_NOT_FOUND_MESSAGE);
    }
    var error := store.CancelRaffleEntry(userId, product.value.id);
    return Json(HTTP_OK, "success", None, None);
  }
}
