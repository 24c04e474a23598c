/** The Eloquent query scopes of the Product, RaffleEntry and Address models, as row predicates. */
module Scopes {
  import ProductStatus
  import RaffleStatus
  import opened Schema

  predicate IsActive(p: Product) {
    p.status == ProductStatus.Value(ProductStatus.Active)
  }

  predicate IsInactive(p: Product) {
    p.status == ProductStatus.Value(ProductStatus.Inactive)
  }

  predicate IsRaffled(p: Product) {
    p.status == ProductStatus.Value(ProductStatus.Raffled)
  }

  predicate ForSlug(p: Product, slug: string) {
    p.slug == slug
  }

  /** The raffle date has been reached; the bound is inclusive. */
  predicate ToRaffle(p: Product, now: int) {
    p.raffleDate <= now
  }

  predicate ForUser(e: RaffleEntry, userId: int) {
    e.userId == userId
  }

  predicate ForProduct(e: RaffleEntry, productId: int) {
    e.productId == productId
  }

  predicate IsPending(e: RaffleEntry) {
    e.status == RaffleStatus.Value(RaffleStatus.Pending)
  }

  predicate OfUserId(a: Address, userId: int) {
    a.userId == userId
  }

  /** `pending()->forUser($user)->forProduct($product)`: chained scopes conjoin. */
  predicate PendingFor(e: RaffleEntry, userId: int, productId: int) {
    IsPending(e) && ForUser(e, userId) && ForProduct(e, productId)
  }

  /** No product is in two of the three status scopes, and each scope picks exactly its label. */
  lemma StatusScopesDisjoint(p: Product)
    ensures !(IsActive(p) && IsInactive(p))
    ensures !(IsActive(p) && IsRaffled(p))
    ensures !(IsInactive(p) && IsRaffled(p))
    ensures IsActive(p) <==> ProductStatus.ToString(p.status) == "active"
    ensures IsInactive(p) <==> ProductStatus.ToString(p.status) == "inactive"
    ensures IsRaffled(p) <==> ProductStatus.ToString(p.status) == "raffled"
  {
  }

  /** The pending scope picks exactly the entries whose status reads "pending". */
  lemma PendingScopeMatchesLabel(e: RaffleEntry)
    ensures IsPending(e) <==> RaffleStatus.ToString(e.status) == "pending"
  {
  }
}
