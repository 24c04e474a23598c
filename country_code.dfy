/** The country code enum: the codes an address may carry and their full names. */
module CountryCode {
  import opened Wrappers

  datatype Code = UK | US | AU | CA | FR

  /** The string backing each case. */
  function Value(c: Code): string {
    match c
    case UK => "uk"
    case US => "us"
    case AU => "au"
    case CA => "ca"
    case FR => "fr"
  }

  /** The case backed by `value`, if any (PHP's `tryFrom`); the reference for `FullName`. */
  function TryFrom(value: string): (r: Option<Code>)
    ensures r.Some? ==> Value(r.value) == value
    ensures r.None? ==> forall c: Code :: Value(c) != value
  {
    if value == "uk" then Some(UK)
    else if value == "us" then Some(US)
    else if value == "au" then Some(AU)
    else if value == "ca" then Some(CA)
    else if value == "fr" then Some(FR)
    else None
  }

  /** The full country name of a code; matching is exact, anything else reads as "undefined". */
  function FullName(value: string): (r: string)
    ensures r == "undefined" <==> TryFrom(value).None?
    ensures TryFrom(value) == Some(UK) ==> r == "United Kingdom"
    ensures TryFrom(value) == Some(US) ==> r == "United States"
    ensures TryFrom(value) == Some(AU) ==> r == "Australia"
    ensures TryFrom(value) == Some(CA) ==> r == "Canada"
    ensures TryFrom(value) == Some(FR) ==> r == "France"
  {
    if value == Value(UK) then "United Kingdom"
    else if value == Value(US) then "United States"
    else if value == Value(AU) then "Australia"
    else if value == Value(CA) then "Canada"
    else if value == Value(FR) then "France"
    else "undefined"
  }

  /** Every case has a name other than "undefined", and distinct cases have distinct names. */
  lemma FullNameInjective(a: Code, b: Code)
    ensures FullName(Value(a)) != "undefined"
    ensures FullName(Value(a)) == FullName(Value(b)) ==> a == b
  {
  }

  /** Matching is case-sensitive: the upper-case spelling of a code is not a code. */
  lemma UpperCaseIsUndefined()
    ensures FullName("UK") == "undefined"
  {
  }
}
