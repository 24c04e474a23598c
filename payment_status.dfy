/** The payment status enum: the values of the orders.payment_status column and their labels. */
module PaymentStatus {
  import opened Wrappers

  datatype Status = Pending | Success | Declined

  /** The int backing each case. */
  function Value(s: Status): int {
    match s
    case Pending => 0
    case Success => 1
    case Declined => 2
  }

  /** The case backed by `value`, if any (PHP's `tryFrom`); the reference for `ToString`. */
  function TryFrom(value: int): (r: Option<Status>)
    ensures r.Some? ==> Value(r.value) == value
    ensures r.None? ==> forall s: Status :: Value(s) != value
  {
    if value == 0 then Some(Pending)
    else if value == 1 then Some(Status.Success)
    else if value == 2 then Some(Declined)
    else None
  }

  /** The label of a stored payment status id; ids that back no case read as "undefined". */
  function ToString(statusId: int): (r: string)
    ensures r == "undefined" <==> TryFrom(statusId).None?
    ensures TryFrom(statusId) == Some(Pending) ==> r == "pending"
    ensures TryFrom(statusId) == Some(Status.Success) ==> r == "success"
    ensures TryFrom(statusId) == Some(Declined) ==> r == "declined"
  {
    if statusId == Value(Pending) then "pending"
    else if statusId == Value(Status.Success) then "success"
    else if statusId == Value(Declined) then "declined"
    else "undefined"
  }

  /** Distinct cases carry distinct labels, none of them "undefined". */
  lemma ToStringInjective(a: Status, b: Status)
    ensures ToString(Value(a)) != "undefined"
    ensures ToString(Value(a)) == ToString(Value(b)) ==> a == b
  {
  }
}
