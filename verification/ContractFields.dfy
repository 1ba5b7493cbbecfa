/**
 The causal fields of a chapter contract and what evidence must say about each of them. A field path is
 kept as the place it names instead of as text.
 */
module ContractFields {
  import opened Wrappers
  import opened Text
  import opened Decisions
  import opened Evidence

  datatype FieldName =
    | ArcPhase | ArcGoal | InheritedPressure | FuturePressures | Functions | DramaticQuestion
    | ChoiceStatus | ChoiceActor | ChoiceAction | ChoiceAlternatives | ChoiceCost | ChoiceConsequence
    | ReaderBefore | ReaderAfter | Reveal | Withhold | Misdirect | PressureStart | PressureTurn | PressureEnd
    | Foreshadow | EndingShift | Forbidden

  /** The closed list of causal fields, in its fixed order. */
  const CAUSAL_FIELDS: seq<FieldName> := [
    ArcPhase, ArcGoal, InheritedPressure, FuturePressures, Functions, DramaticQuestion,
    ChoiceStatus, ChoiceActor, ChoiceAction, ChoiceAlternatives, ChoiceCost, ChoiceConsequence,
    ReaderBefore, ReaderAfter, Reveal, Withhold, Misdirect, PressureStart, PressureTurn, PressureEnd,
    Foreshadow, EndingShift, Forbidden]

  /** Fields that stand for the items of an array. */
  predicate IsArray(f: FieldName) {
    f.FuturePressures? || f.Functions? || f.ChoiceAlternatives? || f.Reveal? || f.Withhold? || IsPlan(f)
  }

  /** Arrays that may be empty if the plan they belong to says why. */
  predicate IsPlan(f: FieldName) {
    f.Misdirect? || f.Foreshadow? || f.Forbidden?
  }

  const PLANS: seq<FieldName> := [Misdirect, Foreshadow, Forbidden]

  /**
   A concrete path: a field, an item of an array field, a missing
   choice field, a plan's reason, or any other text.
   */
  datatype Place = At(field: FieldName) | Item(field: FieldName, index: nat) | MissingAt(index: nat)
    | ReasonOf(plan: FieldName) | Elsewhere(text: string)

  datatype Plan = Plan(values: seq<Scalar>, reason: Scalar)

  /** The values of a candidate; a field that cannot be read as what it should be is not in its map. */
  datatype Content = Content(
    scalars: map<FieldName, Scalar>, arrays: map<FieldName, seq<Scalar>>, plans: map<FieldName, Plan>,
    status: Scalar, missing: Option<seq<Scalar>>)

  function ReadScalar(c: Content, f: FieldName): Option<Scalar> {
    if f.ChoiceStatus? then Some(c.status) else if f in c.scalars then Some(c.scalars[f]) else None
  }

  function ReadArray(c: Content, f: FieldName): Option<seq<Scalar>> {
    if IsPlan(f) then if f in c.plans then Some(c.plans[f].values) else None
    else if f in c.arrays then Some(c.arrays[f])
    else None
  }

  /** The value that evidence has to assert; an enumeration asserts its text. */
  function EvidenceValue(s: Scalar): Option<Value> {
    match s
    case Null => None
    case Bool(b) => Some(Flag(b))
    case Int(n) => Some(Number(n))
    case Str(t) => Some(Text(t))
    case Enum(t) => Some(Text(t))
  }

  /** Text, whether plain or an enumeration's, that is not blank. */
  predicate IsText(s: Scalar) {
    match s
    case Str(t) => !Blank(t)
    case Enum(t) => !Blank(t)
    case _ => false
  }

  /** The one role evidence for a place may have, and the value it has to assert. */
  datatype Need = Need(role: Role, value: Option<Value>)

  type Needs = map<Place, Need>

  /** A plan without values gives its reason instead. */
  predicate HasReason(plan: Plan) {
    plan.values == [] && IsText(plan.reason)
  }

  /** What evidence must say at `place`, if the candidate has something there. */
  function NeedAt(c: Content, place: Place): Option<Need> {
    match place
    case At(f) =>
      if !IsArray(f) && ReadScalar(c, f).Some? then Some(Need(Intent, EvidenceValue(ReadScalar(c, f).value))) else None
    case Item(f, i) =>
      if IsArray(f) && ReadArray(c, f).Some? && i < |ReadArray(c, f).value|
      then Some(Need(Intent, EvidenceValue(ReadArray(c, f).value[i]))) else None
    case MissingAt(i) =>
      if c.missing.Some? && i < |c.missing.value| then Some(Need(Intent, EvidenceValue(c.missing.value[i]))) else None
    case ReasonOf(f) =>
      if IsPlan(f) && f in c.plans && HasReason(c.plans[f])
      then Some(Need(NonApplicability, EvidenceValue(c.plans[f].reason))) else None
    case Elsewhere(_) => None
  }

  /** `needs` holds exactly what the candidate needs among the given places. */
  ghost predicate NeedsExactly(c: Content, needs: Needs, among: iset<Place>) {
    && (forall place <- needs :: place in among && NeedAt(c, place) == Some(needs[place]))
    && (forall place <- among :: NeedAt(c, place).Some? ==> place in needs)
  }

  ghost function PlacesOf(fields: seq<FieldName>): iset<Place> {
    iset place: Place | (place.At? || place.Item?) && place.field in fields
  }

  ghost function ItemsOf(f: FieldName, n: nat): iset<Place> {
    iset place: Place | place.Item? && place.field == f && place.index < n
  }

  ghost function MissingUpTo(n: nat): iset<Place> {
    iset place: Place | place.MissingAt? && place.index < n
  }

  ghost function ReasonsOf(plans: seq<FieldName>): iset<Place> {
    iset place: Place | place.ReasonOf? && place.plan in plans
  }

  // ----- When a candidate's fields are complete -----

  predicate MayNotBeEmpty(f: FieldName) {
    IsArray(f) && !IsPlan(f)
  }

  /** The two enumerated fields hold a member of their enumeration, every other field some text. */
  predicate ValidIntent(f: FieldName, s: Scalar) {
    if f.ArcPhase? || f.ChoiceStatus? then s.Enum? else IsText(s)
  }

  predicate FieldComplete(c: Content, f: FieldName) {
    if !IsArray(f) then ReadScalar(c, f).Some? && ValidIntent(f, ReadScalar(c, f).value)
    else
      && ReadArray(c, f).Some?
      && (ReadArray(c, f).value == [] ==> !MayNotBeEmpty(f))
      && forall v <- ReadArray(c, f).value :: ValidIntent(f, v)
  }

  predicate PlanComplete(c: Content, f: FieldName) {
    f in c.plans && if c.plans[f].values != [] then c.plans[f].reason.Null? else HasReason(c.plans[f])
  }

  predicate ChoiceComplete(c: Content) {
    c.status.SameAs(Enum("complete")) && c.missing == Some([])
  }

  predicate ContentComplete(c: Content) {
    && (forall f <- CAUSAL_FIELDS :: FieldComplete(c, f)) && ChoiceComplete(c)
    && (forall f <- PLANS :: PlanComplete(c, f))
  }

  /** Where a field stands in the list. */
  function Position(f: FieldName): (i: nat)
    ensures i < |CAUSAL_FIELDS|
  {
    match f
    case ArcPhase => 0 case ArcGoal => 1 case InheritedPressure => 2 case FuturePressures => 3 case Functions => 4
    case DramaticQuestion => 5 case ChoiceStatus => 6 case ChoiceActor => 7 case ChoiceAction => 8
    case ChoiceAlternatives => 9 case ChoiceCost => 10 case ChoiceConsequence => 11 case ReaderBefore => 12
    case ReaderAfter => 13 case Reveal => 14 case Withhold => 15 case Misdirect => 16 case PressureStart => 17
    case PressureTurn => 18 case PressureEnd => 19 case Foreshadow => 20 case EndingShift => 21 case Forbidden => 22
  }

  lemma EveryFieldListed(f: FieldName)
    ensures CAUSAL_FIELDS[Position(f)] == f
  {
  }

  lemma EveryPlanListed(f: FieldName)
    ensures f in PLANS <==> IsPlan(f)
  {
    assert PLANS[0] == Misdirect && PLANS[1] == Foreshadow && PLANS[2] == Forbidden;
  }
}
