/** A chapter contract as a tree of records, tuples and scalars, with its identity and content hash. */
module Decisions {
  import opened Text

  /** A scalar leaf. Python compares booleans and integers by value, and a text enumeration by its text. */
  datatype Scalar = Null | Bool(bool) | Int(int) | Str(text: string) | Enum(text: string) {
    predicate SameAs(other: Scalar) {
      match (this, other)
      case (Bool(b), Int(n)) => n == if b then 1 else 0
      case (Int(n), Bool(b)) => n == if b then 1 else 0
      case (Str(s), Enum(t)) => s == t
      case (Enum(s), Str(t)) => s == t
      case _ => this == other
    }

    predicate SameType(other: Scalar) {
      && (Null? <==> other.Null?) && (Bool? <==> other.Bool?) && (Int? <==> other.Int?)
      && (Str? <==> other.Str?) && (Enum? <==> other.Enum?)
    }

    /** What canonical JSON keeps: an enumeration is written as its text. */
    function Encoded(): Scalar {
      if Enum? then Str(this.text) else this
    }

    /** Python's `str`. */
    function AsText(): string {
      match this
      case Null => "None"
      case Bool(b) => if b then "True" else "False"
      case Int(n) => if n < 0 then "-" + Decimal(-n) else Decimal(n)
      case Str(s) => s
      case Enum(s) => s
    }
  }

  /** Values that Python equates are one value exactly if they have one type. */
  lemma SameAsIff(a: Scalar, b: Scalar)
    ensures a == b <==> a.SameAs(b) && a.SameType(b)
    ensures a.SameAs(b) <==> b.SameAs(a)
    ensures forall c: Scalar :: a.SameAs(b) && b.SameAs(c) ==> a.SameAs(c)
  {
  }

  /** Of values that Python equates only booleans and integers differ in text and in JSON. */
  lemma SameAsText(a: Scalar, b: Scalar)
    requires a.SameAs(b)
    ensures a.AsText() == b.AsText() <==> (a.Bool? <==> b.Bool?)
    ensures a.Encoded() == b.Encoded() <==> (a.Bool? <==> b.Bool?)
  {
    assert Decimal(0) == [Digit(0)] && Decimal(1) == [Digit(1)];
  }

  datatype Tree = Leaf(value: Scalar) | Record(fields: seq<Field>) | Tuple(items: seq<Tree>)

  datatype Field = Field(name: string, tree: Tree)

  /** `tree` holds every field of the decision, the identity fields included. */
  datatype NarrativeDecision = NarrativeDecision(
    chapter: nat, contractId: string, contractVersion: nat, chapterId: string, tree: Tree)
  {
    /** The identity rules of a decision; the rules for its other fields are not part of this model. */
    predicate Valid() {
      && chapter > 0 && contractVersion > 0
      && contractId == "narrative-chapter-" + Padded(chapter, 3)
      && chapterId == "chapter_" + Padded(chapter, 3)
    }
  }

  /**
   SHA-256 of the canonical encoding: equal exactly for equal decisions, because every field of a decision
   has the type its schema gives it.
   */
  datatype ContentHash = ContentHash(decision: NarrativeDecision)
}
