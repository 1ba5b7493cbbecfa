/** A decision whose tree holds a complete contract with evidence for each field, so that preflight can be ready. */
module ReadyContract {
  import opened Wrappers
  import opened Text
  import opened Decisions
  import opened Evidence
  import opened ContractFields
  import opened EvidenceIntegrity
  import opened Causality
  import opened Preflight
  import opened PreflightGate
  import opened TreeReading
  import opened FieldPaths
  import opened DecisionReading
  import opened EvidenceTrees
  import opened ReadyTree
  import PreflightVerdict

  // ----- Places -----

  /** The one place of each field; an empty plan is at its reason. */
  predicate IsFieldPlace(place: Place, waived: bool) {
    || (place.At? && !IsArray(place.field))
    || (place.Item? && IsArray(place.field) && !IsWaived(place.field, waived) && place.index == 0)
    || (place.ReasonOf? && IsWaived(place.plan, waived))
  }

  function FieldOf(place: Place): FieldName
    requires place.At? || place.Item? || place.ReasonOf?
  {
    if place.ReasonOf? then place.plan else place.field
  }

  function PlaceFor(f: FieldName, waived: bool): (place: Place)
    ensures IsFieldPlace(place, waived) && FieldOf(place) == f
  {
    if IsWaived(f, waived) then ReasonOf(f) else if IsArray(f) then Item(f, 0) else At(f)
  }

  function NeedOf(place: Place): Need {
    Need(if place.ReasonOf? then NonApplicability else Intent, Some(Text(SaidAt(place))))
  }

  function SaidAt(place: Place): string {
    if place.At? || place.Item? then ValueOf(place.field).text else "said"
  }

  lemma NeedsHere(c: Content, waived: bool, place: Place)
    requires Full(c, waived)
    ensures NeedAt(c, place) == if IsFieldPlace(place, waived) then Some(NeedOf(place)) else None
  {
    NotBlank("said");
    if !place.Elsewhere? && !place.MissingAt? {
      assert FullAt(c, FieldOf(place), waived);
    }
  }

  function PlacesFor(fields: seq<FieldName>, waived: bool): (places: seq<Place>)
    ensures |places| == |fields| && forall i :: 0 <= i < |places| ==> places[i] == PlaceFor(fields[i], waived)
  {
    seq(|fields|, i requires 0 <= i < |fields| => PlaceFor(fields[i], waived))
  }

  ghost predicate DistinctPlaces(places: seq<Place>) {
    forall i, j :: 0 <= i < j < |places| ==> places[i] != places[j]
  }

  ghost predicate OnePlaceEach(places: seq<Place>, waived: bool) {
    DistinctPlaces(places) && forall place :: place in places <==> IsFieldPlace(place, waived)
  }

  lemma PositionOf(i: nat)
    requires i < |CAUSAL_FIELDS|
    ensures Position(CAUSAL_FIELDS[i]) == i
  {
  }

  lemma AllPlaces(waived: bool)
    ensures OnePlaceEach(PlacesFor(CAUSAL_FIELDS, waived), waived)
  {
    var fields, places := CAUSAL_FIELDS, PlacesFor(CAUSAL_FIELDS, waived);
    forall i, j | 0 <= i < j < |places|
      ensures places[i] != places[j]
    {
      PositionOf(i);
      PositionOf(j);
      assert FieldOf(places[i]) == fields[i] && FieldOf(places[j]) == fields[j];
    }
    forall place
      ensures place in places <==> IsFieldPlace(place, waived)
    {
      if IsFieldPlace(place, waived) {
        EveryFieldListed(FieldOf(place));
        assert places[Position(FieldOf(place))] == place;
      }
    }
  }

  // ----- The decision -----

  const LOCATOR := Locator("record_id", "here")

  /** Sixty-four digits. */
  function Digest(): string {
    Padded(0, 64)
  }

  function RefAt(place: Place, n: nat): EvidenceRef<string> {
    EvidenceRef("e", CONTRACT_NAME, n, TextOf(place), NeedOf(place).role, "source", "1", Digest(), LOCATOR,
                "excerpt", "claim", NeedOf(place).value)
  }

  function BindingFor(place: Place, n: nat): Tree {
    BindingTree(TextOf(place), [RefAt(place, n)])
  }

  function BindingTrees(places: seq<Place>, n: nat): (trees: seq<Tree>)
    ensures |trees| == |places| && forall i :: 0 <= i < |places| ==> trees[i] == BindingFor(places[i], n)
  {
    seq(|places|, i requires 0 <= i < |places| => BindingFor(places[i], n))
  }

  const CANDIDATE_NAMES := [
    "candidate_id", "kind", "value_state", "proposed_value", "dependency_inputs", "affects_current_chapter",
      "rationale",
    "decided_by", "decision_ref"]

  function CandidateTrees(input: Place): seq<Tree> {
    [TextTree("x"), Leaf(Enum("relationship_change")), Leaf(Enum("known")), TextTree("said"),
     Tuple([TextTree(TextOf(input))]), Leaf(Enum("yes")), TextTree("because"), Leaf(Enum("rule")), TextTree(RULESET)]
  }

  function CandidateTree(input: Place): Tree {
    Record(Zip(CANDIDATE_NAMES, CandidateTrees(input)))
  }

  /** An optional candidate that affects the chapter and whose value stands in the field it depends on. */
  function CandidatesTree(): Tree {
    Tuple([CandidateTree(At(ArcGoal))])
  }

  function PartsWith(places: seq<Place>, waived: bool, n: nat): Parts {
    Parts(Tuple(BindingTrees(places, n)), CandidatesTree(), waived)
  }

  function VersionWith(places: seq<Place>, waived: bool, n: nat): NarrativeDecision {
    NarrativeDecision(1, CONTRACT_NAME, n, CHAPTER_NAME, ContractTree(n, PartsWith(places, waived, n)))
  }

  /** Version `n` of the first chapter's contract; its last plan is empty if `waived`. */
  function Version(waived: bool, n: nat): NarrativeDecision {
    VersionWith(PlacesFor(CAUSAL_FIELDS, waived), waived, n)
  }

  // ----- Reading the evidence -----

  function BindingAt(place: Place, n: nat): Binding {
    Binding(place, Some([Bound(Located(RefAt(place, n)))]))
  }

  function BindingsFor(places: seq<Place>, n: nat): (bindings: seq<Binding>)
    ensures |bindings| == |places| && forall i :: 0 <= i < |places| ==> bindings[i] == BindingAt(places[i], n)
  {
    seq(|places|, i requires 0 <= i < |places| => BindingAt(places[i], n))
  }

  lemma OneBinding(path: string, ref: EvidenceRef<string>)
    ensures BindingOf(BindingTree(path, [ref])) == Binding(PlaceOf(path), Some([Bound(Located(ref))]))
  {
    BindingRoundTrip(path, [ref]);
    assert BoundEntries([ref]) == [Bound(Located(ref))];
  }

  lemma BindingReads(place: Place, n: nat)
    requires IsConcrete(place)
    ensures BindingOf(BindingFor(place, n)) == BindingAt(place, n)
  {
    PlacesRoundTrip(place, "");
    OneBinding(TextOf(place), RefAt(place, n));
  }

  lemma BindingsRead(places: seq<Place>, n: nat)
    requires forall place <- places :: IsConcrete(place)
    ensures BindingList(BindingTrees(places, n)) == BindingsFor(places, n)
  {
    forall i | 0 <= i < |places|
      ensures BindingOf(BindingTrees(places, n)[i]) == BindingAt(places[i], n)
    {
      BindingReads(places[i], n);
    }
  }

  lemma BindingFits(place: Place, d: NarrativeDecision)
    requires d.contractId == CONTRACT_NAME
    ensures var t := BindingFor(place, d.contractVersion);
            BindingValid(t, d) && BoundPath(t) == TextOf(place)
  {
    BindingHolds(TextOf(place), [RefAt(place, d.contractVersion)]);
    BindingRoundTrip(TextOf(place), [RefAt(place, d.contractVersion)]);
  }

  lemma AllBindingsFit(places: seq<Place>, waived: bool, d: NarrativeDecision)
    requires OnePlaceEach(places, waived) && d.contractId == CONTRACT_NAME
    requires ItemsAt(d.tree, BINDINGS) == Some(BindingTrees(places, d.contractVersion))
    ensures BindingsValid(d)
  {
    var items := BindingTrees(places, d.contractVersion);
    forall i | 0 <= i < |items|
      ensures BindingValid(items[i], d) && BoundPath(items[i]) == TextOf(places[i])
    {
      BindingFits(places[i], d);
    }
    forall i, j | 0 <= i < j < |items|
      ensures BoundPath(items[i]) != BoundPath(items[j])
    {
      assert places[i] in places && places[j] in places;
      if TextOf(places[i]) == TextOf(places[j]) {
        TextInjective(places[i], places[j]);
      }
    }
  }

  // ----- Reading the candidate -----

  function Affecting(input: Place): Resolution {
    Resolution("x", true, Some("said"), [input], Yes, "because", Rule, RULESET)
  }

  lemma CandidateNamesDistinct()
    ensures Distinct(CANDIDATE_NAMES)
  {
    var names := CANDIDATE_NAMES;
    forall i, j | 0 <= i < j < |names|
      ensures names[i] != names[j]
    {
      assert |names[i]| != |names[j]| || names[i][0] != names[j][0];
    }
  }

  lemma CandidateHolds(input: Place, k: nat)
    requires k < 9
    ensures Select(CandidateTree(input), [Attr(CANDIDATE_NAMES[k])]) == Some(CandidateTrees(input)[k])
  {
    CandidateNamesDistinct();
    ZippedAt(CANDIDATE_NAMES, CandidateTrees(input), k);
  }

  lemma InputReads(input: Place)
    requires IsConcrete(input)
    ensures Collect([TextTree(TextOf(input))], InputOf) == Some([input])
  {
    PlacesRoundTrip(input, "");
    var items := [TextTree(TextOf(input))];
    assert InputOf(items[0]) == Some(input);
    var inputs := Collect(items, InputOf);
    assert inputs.Some?;
    assert inputs.value == [input];
  }

  lemma ValueReads(input: Place)
    ensures var t := CandidateTree(input);
            && TextAt(t, "candidate_id") == Some("x") && MemberAt(t, "kind").Some? && KnownAt(t) == Some(true)
            && ProposedAt(t) == Some(Some("said"))
  {
    CandidateHolds(input, 0);
    CandidateHolds(input, 1);
    CandidateHolds(input, 2);
    CandidateHolds(input, 3);
  }

  lemma InputsRead(input: Place)
    requires IsConcrete(input)
    ensures InputsAt(CandidateTree(input)) == Some([input])
  {
    CandidateHolds(input, 4);
    InputReads(input);
  }

  lemma VerdictReads(input: Place)
    ensures var t := CandidateTree(input);
            && ImpactAt(t) == Some(Yes) && TextAt(t, "rationale") == Some("because") && DeciderAt(t) == Some(Rule)
            && TextAt(t, "decision_ref") == Some(RULESET)
  {
    CandidateHolds(input, 5);
    CandidateHolds(input, 6);
    CandidateHolds(input, 7);
    CandidateHolds(input, 8);
  }

  lemma CandidatesRead(input: Place)
    requires IsConcrete(input)
    ensures Collect([CandidateTree(input)], ResolutionOf) == Some([Affecting(input)])
  {
    ValueReads(input);
    InputsRead(input);
    VerdictReads(input);
    var items := [CandidateTree(input)];
    assert ResolutionOf(items[0]) == Some(Affecting(input));
    var resolutions := Collect(items, ResolutionOf);
    assert resolutions.Some?;
    assert resolutions.value == [Affecting(input)];
  }

  // ----- The subject -----

  /** What preflight reads of a version. */
  ghost predicate ReadsAs(s: Subject, d: NarrativeDecision, places: seq<Place>, waived: bool) {
    && s.candidate.decision == d && s.candidate.sound && s.candidate.resolutions == [Affecting(At(ArcGoal))]
    && Full(s.candidate.content, waived) && s.bindings == Some(BindingsFor(places, d.contractVersion))
    && ControlsValid(s.controls) && ObligationsPresent(s)
  }

  lemma ControlsAreValid(places: seq<Place>, waived: bool, n: nat)
    requires n > 0
    ensures var controls := ControlsOf(VersionWith(places, waived, n));
            ControlsValid(controls) && SchemaVersion in controls && controls[SchemaVersion] == Int(2)
  {
    var d := VersionWith(places, waived, n);
    ControlsHold(n, PartsWith(places, waived, n));
    TargetHolds(n, PartsWith(places, waived, n));
    NotBlank("said");
    forall control <- CONTROLS
      ensures ControlValid(ControlsOf(d), control)
    {
      assert ControlAt(d, control).Some?;
    }
  }

  lemma VersionReads(places: seq<Place>, waived: bool, n: nat)
    requires OnePlaceEach(places, waived) && n > 0
    ensures var d := VersionWith(places, waived, n); ReadsAs(SubjectOf(d, true), d, places, waived)
  {
    var d, parts := VersionWith(places, waived, n), PartsWith(places, waived, n);
    EvidenceHolds(n, parts);
    BindingsRead(places, n);
    AllBindingsFit(places, waived, d);
    CandidatesRead(At(ArcGoal));
    ContentIsFull(n, parts);
    ControlsAreValid(places, waived, n);
  }

  // ----- Its evidence -----

  lemma OneReference(e: Entry)
    requires !e.NotARef?
    ensures References([e]) == [e]
  {
    assert [e][..0] == [] && References([e]) == References([e][..0]) + [e];
  }

  /** Each binding holds the reference at its index, and no place has two bindings. */
  ghost predicate OneRefEach(bindings: seq<Binding>, refs: seq<EvidenceRef<Place>>) {
    && |bindings| == |refs| && (forall i :: 0 <= i < |refs| ==> bindings[i].entries == Some([Bound(refs[i])]))
    && forall i, j :: 0 <= i < j < |bindings| ==> bindings[i].place != bindings[j].place
  }

  lemma LastEntry(bindings: seq<Binding>, ref: EvidenceRef<Place>, place: Place)
    requires bindings != [] && bindings[|bindings| - 1].entries == Some([Bound(ref)])
    ensures var last := bindings[|bindings| - 1];
            EntriesAt(bindings, place) ==
            EntriesAt(bindings[..|bindings| - 1], place) + if last.place == place then [Bound(ref)] else []
  {
    OneReference(Bound(ref));
  }

  lemma {:induction false} OneEntryEach(bindings: seq<Binding>, refs: seq<EvidenceRef<Place>>, place: Place)
    requires OneRefEach(bindings, refs)
    ensures forall i :: 0 <= i < |refs| && bindings[i].place == place ==> EntriesAt(bindings, place) == [Bound(refs[i])]
    ensures (forall i :: 0 <= i < |refs| ==> bindings[i].place != place) ==> EntriesAt(bindings, place) == []
  {
    if bindings != [] {
      var last := |bindings| - 1;
      OneEntryEach(bindings[..last], refs[..last], place);
      LastEntry(bindings, refs[last], place);
    }
  }

  function LocatedRefs(places: seq<Place>, n: nat): (refs: seq<EvidenceRef<Place>>)
    ensures |refs| == |places| && forall i :: 0 <= i < |places| ==> refs[i] == Located(RefAt(places[i], n))
  {
    seq(|places|, i requires 0 <= i < |places| => Located(RefAt(places[i], n)))
  }

  lemma EntriesHere(places: seq<Place>, place: Place, n: nat)
    requires DistinctPlaces(places)
    ensures EntriesAt(BindingsFor(places, n), place) ==
            if place in places then [Bound(Located(RefAt(place, n)))] else []
  {
    var bindings, refs := BindingsFor(places, n), LocatedRefs(places, n);
    assert OneRefEach(bindings, refs);
    OneEntryEach(bindings, refs, place);
    if i :| 0 <= i < |places| && places[i] == place {
      assert bindings[i].place == place;
    }
  }

  function ClaimsAt(places: seq<Place>): (claims: seq<(Place, seq<string>)>)
    ensures |claims| == |places| && forall i :: 0 <= i < |places| ==> claims[i] == (places[i], ["claim"])
  {
    seq(|places|, i requires 0 <= i < |places| => (places[i], ["claim"]))
  }

  function ValuesAtPlaces(places: seq<Place>): (values: seq<(Place, Value)>)
    ensures |values| == |places| && forall i :: 0 <= i < |places| ==> values[i] == (places[i], Text(SaidAt(places[i])))
  {
    seq(|places|, i requires 0 <= i < |places| => (places[i], Text(SaidAt(places[i]))))
  }

  /** One source supports everything said about these places. */
  function SourceFor(places: seq<Place>): Source {
    Source("source", "1", Digest(), [(LOCATOR, "excerpt")], ClaimsAt(places), Some(Task), ValuesAtPlaces(places))
  }

  function Sources(waived: bool): Resolver {
    (id: string) => Found(SourceFor(PlacesFor(CAUSAL_FIELDS, waived)))
  }

  lemma {:induction false} ValueHere(places: seq<Place>, place: Place)
    requires place in places
    ensures AssertedAt(ValuesAtPlaces(places), place) == Some(Text(SaidAt(place)))
  {
    if places[0] != place {
      assert ValuesAtPlaces(places)[1..] == ValuesAtPlaces(places[1..]);
      ValueHere(places[1..], place);
    }
  }

  lemma RefResolves(places: seq<Place>, place: Place, n: nat, resolver: Resolver)
    requires place in places && IsConcrete(place) && resolver("source") == Found(SourceFor(places))
    ensures Resolves(Located(RefAt(place, n)), place, NeedOf(place).value, resolver)
  {
    PlacesRoundTrip(place, "");
    ValueHere(places, place);
    var i :| 0 <= i < |places| && places[i] == place;
    assert ClaimsAt(places)[i] in SourceFor(places).assertions;
  }

  lemma PlaceIsSupported(c: Content, places: seq<Place>, waived: bool, n: nat, place: Place, resolver: Resolver)
    requires Full(c, waived) && OnePlaceEach(places, waived) && resolver("source") == Found(SourceFor(places))
    requires NeedAt(c, place).Some?
    ensures SupportedAt(EntriesAt(BindingsFor(places, n), place), place, NeedAt(c, place).value, resolver)
  {
    NeedsHere(c, waived, place);
    EntriesHere(places, place, n);
    RefResolves(places, place, n, resolver);
  }

  lemma EvidenceSupports(s: Subject, d: NarrativeDecision, places: seq<Place>, waived: bool, resolver: Resolver)
    requires ReadsAs(s, d, places, waived) && OnePlaceEach(places, waived)
    requires resolver("source") == Found(SourceFor(places))
    ensures Supported(s, resolver)
  {
    var c, n := s.candidate.content, d.contractVersion;
    forall place | NeedAt(c, place).Some?
      ensures SupportedAt(EntriesAt(BindingsFor(places, n), place), place, NeedAt(c, place).value, resolver)
    {
      PlaceIsSupported(c, places, waived, n, place, resolver);
    }
    forall b <- BindingsFor(places, n)
      ensures NeedAt(c, b.place).Some? && b.entries.Some?
    {
      var i :| 0 <= i < |places| && BindingsFor(places, n)[i] == b;
      assert places[i] in places;
      NeedsHere(c, waived, b.place);
    }
  }

  // ----- The verdict -----

  lemma FieldIsComplete(c: Content, waived: bool, f: FieldName)
    requires Full(c, waived)
    ensures FieldComplete(c, f) && (IsPlan(f) ==> PlanComplete(c, f))
  {
    assert FullAt(c, f, waived);
    NotBlank("said");
    assert ValidIntent(f, ValueOf(f));
  }

  lemma ContentIsComplete(c: Content, waived: bool)
    requires Full(c, waived)
    ensures ContentComplete(c)
  {
    forall f <- CAUSAL_FIELDS
      ensures FieldComplete(c, f)
    {
      FieldIsComplete(c, waived, f);
    }
    forall f <- PLANS
      ensures PlanComplete(c, f)
    {
      EveryPlanListed(f);
      FieldIsComplete(c, waived, f);
    }
  }

  lemma AffectingIsValid(input: Place)
    ensures Affecting(input).Valid()
  {
    NotBlank("x");
    NotBlank("said");
    NotBlank("because");
    NotBlank(RULESET);
  }

  lemma AffectingIsSettled(c: Content, waived: bool)
    requires Full(c, waived)
    ensures Causality.Settled(c, Affecting(At(ArcGoal)))
  {
    var place := At(ArcGoal);
    assert FullAt(c, ArcGoal, waived);
    assert Resolvable(c, place) && ScalarAt(c, place) == Str("said");
    assert Affecting(place).inputs == [place] && place in Affecting(place).inputs;
  }

  lemma SubjectIsReady(s: Subject, d: NarrativeDecision, places: seq<Place>, waived: bool, resolver: Resolver)
    requires ReadsAs(s, d, places, waived) && OnePlaceEach(places, waived)
    requires resolver("source") == Found(SourceFor(places))
    ensures var analysis := Analyze(s.candidate, true); IsResolved(analysis) && Ready(s, Some(resolver), Some(analysis))
  {
    AffectingIsValid(At(ArcGoal));
    AffectingIsSettled(s.candidate.content, waived);
    InvalidIssuesEmpty(s.candidate.resolutions);
    UnsettledIssuesEmpty(s.candidate.content, s.candidate.resolutions);
    AcceptedIffAnalysis(s.candidate, Analyze(s.candidate, true));
    ContentIsComplete(s.candidate.content, waived);
    EvidenceSupports(s, d, places, waived, resolver);
  }

  /**
   Every version of the contract passes preflight as its own tree is read, with an optional candidate that affects
   it, whether or not its last plan is empty.
   */
  lemma VersionIsReady(waived: bool, n: nat)
    requires n > 0
    ensures PreflightVerdict.PassesPreflight(PreflightVerdict.Inputs(Sources(waived), true, _ => true),
                                             Version(waived, n))
    ensures var subject := SubjectOf(Version(waived, n), true);
            subject.candidate.resolutions == [Affecting(At(ArcGoal))] && Full(subject.candidate.content, waived)
  {
    var places, d := PlacesFor(CAUSAL_FIELDS, waived), Version(waived, n);
    AllPlaces(waived);
    VersionReads(places, waived, n);
    SubjectIsReady(SubjectOf(d, true), d, places, waived, Sources(waived));
  }
}
