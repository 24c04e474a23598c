/** The order status enum: the values of the orders.status column and their labels. */
module OrderStatus {
  import opened Wrappers

  datatype Status = Pending | Completed

  /** The int backing each case. */
  function Value(s: Status): int {
    match s
    case Pending => 0
    case Completed => 1
  }

  /** The case backed by `value`, if any (PHP's `tryFrom`); the reference for `ToString`. */
  function TryFrom(value: int): (r: Option<Status>)
    ensures r.Some? ==> Value(r.value) == value
    ensures r.None? ==> forall s: Status :: Value(s) != value
  {
    if value == 0 then Some(Pending)
    else if value == 1 then Some(Completed)
    else None
  }

  /** The label of a stored status id; ids that back no case (2 among them) read as "undefined". */
  function ToString(statusId: int): (r: string)
    ensures r == "undefined" <==> TryFrom(statusId).None?
    ensures TryFrom(statusId) == Some(Pending) ==> r == "pending"
    ensures TryFrom(statusId) == Some(Completed) ==> r == "completed"
  {
    if statusId == Value(Pending) then "pending"
    else if statusId == Value(Completed) then "completed"
    else "undefined"
  }

  /** The two cases carry distinct labels, neither of them "undefined". */
  lemma ToStringInjective(a: Status, b: Status)
    ensures ToString(Value(a)) != "undefined"
    ensures ToString(Value(a)) == ToString(Value(b)) ==> a == b
  {
  }
}
