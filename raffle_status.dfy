/** The raffle entry status enum: the values of the raffle_entries.status column and their labels. */
module RaffleStatus {
  import opened Wrappers

  datatype Status = Pending | Winner | Loser

  /** The int backing each case. */
  function Value(s: Status): int {
    match s
    case Pending => 0
    case Winner => 1
    case Loser => 2
  }

  /** The case backed by `value`, if any (PHP's `tryFrom`); the reference for `ToString`. */
  function TryFrom(value: int): (r: Option<Status>)
    ensures r.Some? ==> Value(r.value) == value
    ensures r.None? ==> forall s: Status :: Value(s) != value
  {
    if value == 0 then Some(Pending)
    else if value == 1 then Some(Winner)
    else if value == 2 then Some(Loser)
    else None
  }

  /** The label of a stored status id; ids that back no case read as "undefined". */
  function ToString(statusId: int): (r: string)
    ensures r == "undefined" <==> TryFrom(statusId).None?
    ensures TryFrom(statusId) == Some(Pending) ==> r == "pending"
    ensures TryFrom(statusId) == Some(Winner) ==> r == "winner"
    ensures TryFrom(statusId) == Some(Loser) ==> r == "loser"
  {
    if statusId == Value(Pending) then "pending"
    else if statusId == Value(Winner) then "winner"
    else if statusId == Value(Loser) then "loser"
    else "undefined"
  }

  /** Distinct cases carry distinct labels, none of them "undefined". */
  lemma ToStringInjective(a: Status, b: Status)
    ensures ToString(Value(a)) != "undefined"
    ensures ToString(Value(a)) == ToString(Value(b)) ==> a == b
  {
  }
}
