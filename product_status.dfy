/** The product status enum: the values of the products.status column and their labels. */
module ProductStatus {
  import opened Wrappers

  datatype Status = Inactive | Active | Raffled

  /** The int backing each case. */
  function Value(s: Status): int {
    match s
    case Inactive => 0
    case Active => 1
    case Raffled => 2
  }

  /** The case backed by `value`, if any (PHP's `tryFrom`); the reference for `ToString`. */
  function TryFrom(value: int): (r: Option<Status>)
    ensures r.Some? ==> Value(r.value) == value
    ensures r.None? ==> forall s: Status :: Value(s) != value
  {
    if value == 0 then Some(Inactive)
    else if value == 1 then Some(Active)
    else if value == 2 then Some(Raffled)
    else None
  }

  /** The label of a stored status id; ids that back no case read as "undefined". */
  function ToString(statusId: int): (r: string)
    ensures r == "undefined" <==> TryFrom(statusId).None?
    ensures TryFrom(statusId) == Some(Inactive) ==> r == "inactive"
    ensures TryFrom(statusId) == Some(Active) ==> r == "active"
    ensures TryFrom(statusId) == Some(Raffled) ==> r == "raffled"
  {
    if statusId == Value(Inactive) then "inactive"
    else if statusId == Value(Active) then "active"
    else if statusId == Value(Raffled) then "raffled"
    else "undefined"
  }

  /** Distinct cases carry distinct labels, none of them "undefined". */
  lemma ToStringInjective(a: Status, b: Status)
    ensures ToString(Value(a)) != "undefined"
    ensures ToString(Value(a)) == ToString(Value(b)) ==> a == b
  {
  }
}
