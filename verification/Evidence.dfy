/** Field-level evidence shared by contracts, fulfillment records and the preflight gate. */
module Evidence {
  import opened Wrappers

  datatype Role = Intent | Verification | Realization | NonApplicability | Decision

  /** A scalar with its Python type. */
  datatype Value = Text(text: string) | Number(number: int) | Flag(flag: bool) {
    /** Python's `==`, which does not tell `True` from `1` or `False` from `0`. */
    predicate SameAs(other: Value) {
      match (this, other)
      case (Flag(b), Number(n)) => n == if b then 1 else 0
      case (Number(n), Flag(b)) => n == if b then 1 else 0
      case _ => this == other
    }

    predicate SameType(other: Value) {
      (Text? <==> other.Text?) && (Number? <==> other.Number?)
    }
  }

  datatype Locator = Locator(kind: string, value: string)

  /** A reference from one field, written `P`, to an excerpt of an authoritative source. */
  datatype EvidenceRef<+P> = EvidenceRef(
    evidenceId: string,
    contractId: string,
    contractVersion: int,
    fieldPath: P,
    role: Role,
    sourceId: string,
    sourceVersion: string,
    sourceContentHash: string,
    locator: Locator,
    excerpt: string,
    assertion: string,
    assertedValue: Option<Value>)
}
