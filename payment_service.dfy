/** What the payment service hands back: a transaction code, or a boolean. */
module PaymentService {

  /** `string|bool`. */
  datatype PaymentResult = Code(code: string) | Flag(flag: bool)

  /** PHP truthiness: "", "0" and false are falsy. */
  predicate Truthy(p: PaymentResult) {
    match p
    case Code(c) => c != "" && c != "0"
    case Flag(b) => b
  }

  /** A result that can be recorded as a transaction code: a truthy string. */
  predicate Pays(p: PaymentResult) {
    p.Code? && Truthy(p)
  }

  /** The falsy results are exactly "", "0" and false. */
  lemma FalsyResults(p: PaymentResult)
    ensures !Truthy(p) <==> p == Code("") || p == Code("0") || p == Flag(false)
  {
  }
}
