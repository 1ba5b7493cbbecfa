/** What passing preflight and causal analysis says about the fields of a contract, one by one. */
module ReadyMeaning {
  import opened Wrappers
  import opened Text
  import opened Decisions
  import opened ContractFields
  import opened Causality
  import opened Preflight
  import EvidenceIntegrity
  import PreflightGate

  // ----- The fields -----

  const ARRAYS: set<FieldName> := {FuturePressures, Functions, ChoiceAlternatives, Reveal, Withhold}

  const OPTIONAL_ARRAYS: set<FieldName> := {Misdirect, Foreshadow, Forbidden}

  /** Some text that is not blank. */
  predicate HasText(s: Scalar) {
    (s.Str? || s.Enum?) && !Blank(s.text)
  }

  predicate AllHaveText(values: seq<Scalar>) {
    forall v <- values :: HasText(v)
  }

  /**
   A field that is no array: the arc phase is a member of its
   enumeration, the choice is complete, others have text.
   */
  predicate ScalarFilled(c: Content, f: FieldName) {
    match f
    case ArcPhase => f in c.scalars && c.scalars[f].Enum?
    case ChoiceStatus => c.status == Enum("complete")
    case _ => f in c.scalars && HasText(c.scalars[f])
  }

  predicate ArrayFilled(c: Content, f: FieldName) {
    f in c.arrays && c.arrays[f] != [] && AllHaveText(c.arrays[f])
  }

  /** Either values and no reason, or no values and a reason. */
  predicate PlanFilled(c: Content, f: FieldName) {
    f in c.plans
    && if c.plans[f].values == [] then HasText(c.plans[f].reason)
       else c.plans[f].reason == Null && AllHaveText(c.plans[f].values)
  }

  predicate FilledAt(c: Content, f: FieldName) {
    if f in ARRAYS then ArrayFilled(c, f) else if f in OPTIONAL_ARRAYS then PlanFilled(c, f) else ScalarFilled(c, f)
  }

  /** Every field is filled, and nothing of the choice is reported missing. */
  ghost predicate Filled(c: Content) {
    (forall f: FieldName :: FilledAt(c, f)) && c.missing == Some([])
  }

  lemma KindsOfFields(f: FieldName)
    ensures IsArray(f) <==> f in ARRAYS || f in OPTIONAL_ARRAYS
    ensures IsPlan(f) <==> f in OPTIONAL_ARRAYS
  {
  }

  lemma TextMeans(values: seq<Scalar>)
    ensures AllHaveText(values) <==> forall v <- values :: IsText(v)
  {
    forall v <- values
      ensures HasText(v) <==> IsText(v)
    {
    }
  }

  lemma ScalarFilledIff(c: Content, f: FieldName)
    requires f !in ARRAYS && f !in OPTIONAL_ARRAYS
    ensures ScalarFilled(c, f) <==> FieldComplete(c, f) && (f.ChoiceStatus? ==> c.status.SameAs(Enum("complete")))
  {
    KindsOfFields(f);
  }

  lemma ArrayFilledIff(c: Content, f: FieldName)
    requires f in ARRAYS
    ensures ArrayFilled(c, f) <==> FieldComplete(c, f)
  {
    KindsOfFields(f);
    if f in c.arrays {
      TextMeans(c.arrays[f]);
    }
  }

  lemma PlanFilledIff(c: Content, f: FieldName)
    requires f in OPTIONAL_ARRAYS
    ensures PlanFilled(c, f) <==> FieldComplete(c, f) && PlanComplete(c, f)
  {
    KindsOfFields(f);
    if f in c.plans {
      TextMeans(c.plans[f].values);
    }
  }

  ghost predicate CompleteAt(c: Content, f: FieldName) {
    && FieldComplete(c, f) && (f.ChoiceStatus? ==> c.status.SameAs(Enum("complete")))
    && (IsPlan(f) ==> PlanComplete(c, f))
  }

  lemma FilledAtIff(c: Content, f: FieldName)
    ensures CompleteAt(c, f) <==> FilledAt(c, f)
  {
    KindsOfFields(f);
    if f in ARRAYS {
      ArrayFilledIff(c, f);
    } else if f in OPTIONAL_ARRAYS {
      PlanFilledIff(c, f);
    } else {
      ScalarFilledIff(c, f);
    }
  }

  lemma EveryFieldChecked(c: Content)
    requires ContentComplete(c)
    ensures forall f: FieldName :: CompleteAt(c, f)
  {
    forall f: FieldName
      ensures CompleteAt(c, f)
    {
      EveryFieldListed(f);
      EveryPlanListed(f);
    }
  }

  lemma NoFieldOpen(c: Content)
    requires (forall f: FieldName :: CompleteAt(c, f)) && c.missing == Some([])
    ensures ContentComplete(c)
  {
    assert CompleteAt(c, ChoiceStatus);
    forall f <- CAUSAL_FIELDS
      ensures FieldComplete(c, f)
    {
      assert CompleteAt(c, f);
    }
    forall f <- PLANS
      ensures PlanComplete(c, f)
    {
      EveryPlanListed(f);
      assert CompleteAt(c, f);
    }
  }

  /** The contents of a contract are complete exactly if every one of its fields is filled as it has to be. */
  lemma CompleteIffFilled(c: Content)
    ensures ContentComplete(c) <==> Filled(c)
  {
    forall f: FieldName
      ensures CompleteAt(c, f) <==> FilledAt(c, f)
    {
      FilledAtIff(c, f);
    }
    if ContentComplete(c) {
      EveryFieldChecked(c);
    }
    if Filled(c) {
      NoFieldOpen(c);
    }
  }

  // ----- The control fields -----

  predicate AtLeastOne(s: Scalar) {
    match s case Int(n) => n >= 1 case _ => false
  }

  /** Identity, version, schema and kind fit each other; profile, volume and arc are named. */
  predicate ControlsFit(controls: map<Control, Scalar>) {
    && (forall control: Control :: control in controls)
    && AtLeastOne(controls[ContractVersion]) && AtLeastOne(controls[TargetChars])
    && (controls[SchemaVersion] == Int(2) || controls[SchemaVersion] == Int(3))
    && controls[Kind].SameAs(Str("narrative_decision"))
    && (match controls[ChapterNumber]
        case Int(n) =>
          && n >= 1 && controls[ContractId].SameAs(Str("narrative-chapter-" + Padded(n, 3)))
          && controls[ChapterId].SameAs(Str("chapter_" + Padded(n, 3)))
        case _ => false)
    && NamedControl(controls[ProfileId]) && NamedControl(controls[VolumeId]) && NamedControl(controls[ArcId])
  }

  /** Not null, and not blank if it is text. */
  predicate NamedControl(s: Scalar) {
    s != Null && (s.Str? || s.Enum? ==> !Blank(s.text))
  }

  lemma EveryControlListed(control: Control)
    ensures control in CONTROLS
  {
    var i :=
      match control
      case ContractId => 0 case ContractVersion => 1 case ChapterNumber => 2 case ProfileId => 3 case VolumeId => 4
      case ArcId => 5 case SchemaVersion => 6 case Kind => 7 case ChapterId => 8 case TargetChars => 9;
    assert CONTROLS[i] == control;
  }

  lemma ControlsValidIff(controls: map<Control, Scalar>)
    ensures ControlsValid(controls) <==> forall control: Control :: ControlValid(controls, control)
  {
    forall control: Control
      ensures control in CONTROLS
    {
      EveryControlListed(control);
    }
  }

  lemma FittingIsValid(controls: map<Control, Scalar>, control: Control)
    requires ControlsFit(controls)
    ensures ControlValid(controls, control)
  {
  }

  lemma ValidFits(controls: map<Control, Scalar>)
    requires forall control: Control :: ControlValid(controls, control)
    ensures ControlsFit(controls)
  {
    forall control: Control
      ensures control in controls
    {
      assert ControlValid(controls, control);
    }
    assert ControlValid(controls, ContractVersion) && ControlValid(controls, TargetChars);
    assert ControlValid(controls, SchemaVersion) && ControlValid(controls, Kind);
    assert ControlValid(controls, ChapterNumber) && ControlValid(controls, ContractId);
    assert ControlValid(controls, ChapterId) && ControlValid(controls, ProfileId);
    assert ControlValid(controls, VolumeId) && ControlValid(controls, ArcId);
  }

  /** The control fields pass exactly if they fit. */
  lemma ControlsFitIff(controls: map<Control, Scalar>)
    ensures ControlsValid(controls) <==> ControlsFit(controls)
  {
    ControlsValidIff(controls);
    if ControlsFit(controls) {
      forall control: Control
        ensures ControlValid(controls, control)
      {
        FittingIsValid(controls, control);
      }
    }
    if ControlsValid(controls) {
      ValidFits(controls);
    }
  }

  // ----- The optional candidates -----

  /** The scalar of the place: a field that is no array, or an item within an array field. */
  function ValueAt(c: Content, place: Place): Option<Scalar> {
    match place
    case At(f) =>
      if f in ARRAYS || f in OPTIONAL_ARRAYS then None
      else if f == ChoiceStatus then Some(c.status)
      else if f in c.scalars then Some(c.scalars[f])
      else None
    case Item(f, i) =>
      if f in ARRAYS then if f in c.arrays && i < |c.arrays[f]| then Some(c.arrays[f][i]) else None
      else if f in OPTIONAL_ARRAYS then
        if f in c.plans && i < |c.plans[f].values| then Some(c.plans[f].values[i]) else None
      else None
    case _ => None
  }

  lemma ValueAtIff(c: Content, place: Place)
    ensures Resolvable(c, place) <==> ValueAt(c, place).Some?
    ensures Resolvable(c, place) ==> ScalarAt(c, place) == ValueAt(c, place).value
  {
    if place.At? || place.Item? {
      KindsOfFields(place.field);
    }
  }

  /**
   The candidate names fields that the contract has, and whether it affects the chapter is decided, by a human
   or by the current rules. If it does, its value is known and stands in one of the fields it names.
   */
  predicate IsDecided(c: Content, r: Resolution) {
    && r.inputs != [] && (forall place <- r.inputs :: ValueAt(c, place).Some?)
    && r.impact != Undetermined
    && (r.decidedBy == Rule ==> r.decisionRef == "causal-rules-v1")
    && (r.decidedBy == Human ==> !Blank(r.decisionRef))
    && (r.impact == Yes ==>
          && r.known && r.proposed.Some?
          && exists place <- r.inputs ::
               ValueAt(c, place).Some? && ValueAt(c, place).value.SameAs(Str(r.proposed.value)))
  }

  /** The branches of the analysis settle a candidate exactly if it is decided. */
  lemma SettledIff(c: Content, r: Resolution)
    ensures Settled(c, r) <==> IsDecided(c, r)
  {
    forall place <- r.inputs
      ensures Resolvable(c, place) <==> ValueAt(c, place).Some?
      ensures Resolvable(c, place) ==> ScalarAt(c, place) == ValueAt(c, place).value
    {
      ValueAtIff(c, place);
    }
  }

  /** The parts of a resolution are there: names, reasons, and a proposed value exactly if it is known. */
  predicate IsWellFormed(r: Resolution) {
    && !Blank(r.candidateId) && !Blank(r.rationale) && !Blank(r.decisionRef) && r.inputs != []
    && (r.known <==> r.proposed.Some?) && (r.known ==> !Blank(r.proposed.value))
  }

  lemma WellFormedIff(r: Resolution)
    ensures r.Valid() <==> IsWellFormed(r)
  {
  }

  /**
   Causal analysis is accepted exactly if it lists the candidate's own resolutions for this very content, under
   the current rules and the closed list of fields, and each of them is well-formed and decided.
   */
  lemma AcceptedIff(c: Candidate, result: CausalResult)
    ensures Accepted(c, Some(result)) <==>
            && c.sound && result.resolutions == c.resolutions && (forall i <- result.issues :: !i.blocking)
            && result.ruleset == "causal-rules-v1" && result.fields == CAUSAL_FIELDS
            && result.hash == Some(ContentHash(c.decision))
            && forall r <- c.resolutions :: IsWellFormed(r) && IsDecided(c.content, r)
  {
    forall r <- c.resolutions
      ensures Settled(c.content, r) <==> IsDecided(c.content, r)
      ensures r.Valid() <==> IsWellFormed(r)
    {
      SettledIff(c.content, r);
      WellFormedIff(r);
    }
  }

  // ----- The whole gate -----

  /**
   A contract is ready exactly if its fields are filled, its control fields fit, every place that needs evidence
   has some that resolves, its candidates are decided by an analysis of this very content, and a contract of
   schema version 3 has obligations.
   */
  lemma ReadyIff(s: Subject, resolver: Option<EvidenceIntegrity.Resolver>, causal: Option<CausalResult>)
    ensures PreflightGate.Ready(s, resolver, causal) <==>
            && Filled(s.candidate.content) && ControlsFit(s.controls)
            && resolver.Some? && PreflightGate.Supported(s, resolver.value)
            && causal.Some? && s.candidate.sound
            && causal.value.resolutions == s.candidate.resolutions && (forall i <- causal.value.issues :: !i.blocking)
            && causal.value.ruleset == "causal-rules-v1" && causal.value.fields == CAUSAL_FIELDS
            && causal.value.hash == Some(ContentHash(s.candidate.decision))
            && (forall r <- s.candidate.resolutions :: IsWellFormed(r) && IsDecided(s.candidate.content, r))
            && (s.controls[SchemaVersion] == Int(3) ==> s.obligations > 0)
  {
    CompleteIffFilled(s.candidate.content);
    ControlsFitIff(s.controls);
    if causal.Some? {
      AcceptedIff(s.candidate, causal.value);
    }
  }
}
