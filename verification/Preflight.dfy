/** The preflight gate: complete fields, exactly the right evidence for each of them, and a settled causal analysis. */
module Preflight {
  import opened Wrappers
  import opened Text
  import opened Decisions
  import opened Evidence
  import opened ContractFields
  import opened EvidenceIntegrity
  import opened Causality

  datatype Control =
    | ContractId | ContractVersion | ChapterNumber | ProfileId | VolumeId | ArcId | SchemaVersion | Kind | ChapterId
    | TargetChars

  const CONTROLS: seq<Control> := [
    ContractId, ContractVersion, ChapterNumber, ProfileId, VolumeId, ArcId, SchemaVersion, Kind, ChapterId, TargetChars]

  /** `entries` is absent when the binding does not hold a tuple. */
  datatype Binding = Binding(place: Place, entries: Option<seq<Entry>>)

  datatype Subject = Subject(
    candidate: Candidate, controls: map<Control, Scalar>, bindings: Option<seq<Binding>>, obligations: nat)

  // ----- Control fields -----

  predicate Positive(s: Scalar) {
    s.Int? && IntOf(s) >= 1
  }

  function IntOf(s: Scalar): int {
    match s case Int(n) => n case _ => 0
  }

  predicate IsNumbered(value: Scalar, prefix: string, chapter: Option<Scalar>) {
    chapter.Some? && Positive(chapter.value) && value.SameAs(Str(prefix + Padded(IntOf(chapter.value), 3)))
  }

  predicate ControlValid(controls: map<Control, Scalar>, control: Control) {
    && control in controls
    && var value := controls[control];
       var chapter := if ChapterNumber in controls then Some(controls[ChapterNumber]) else None;
       match control
       case ContractId => IsNumbered(value, "narrative-chapter-", chapter)
       case ChapterId => IsNumbered(value, "chapter_", chapter)
       case ContractVersion | ChapterNumber | TargetChars => Positive(value)
       case SchemaVersion => value.Int? && IntOf(value) in {2, 3}
       case Kind => value.SameAs(Str("narrative_decision"))
       case _ => !(value.Null? || ((value.Str? || value.Enum?) && !IsText(value)))
  }

  predicate ControlsValid(controls: map<Control, Scalar>) {
    forall control <- CONTROLS :: ControlValid(controls, control)
  }

  // ----- Required evidence -----

  ghost predicate AllBlock(issues: seq<Issue>) {
    forall i <- issues :: i.blocking
  }

  function Incomplete(place: Place): Issue {
    Issue(IncompleteContract, place, true)
  }

  /** Checks the items of one array field and notes what evidence each of them needs. */
  method RequireItems(c: Content, f: FieldName, required: Needs, ghost among: iset<Place>)
    returns (needs: Needs, issues: seq<Issue>)
    requires NeedsExactly(c, required, among) && IsArray(f) && ReadArray(c, f).Some?
    ensures NeedsExactly(c, needs, among + ItemsOf(f, |ReadArray(c, f).value|))
    ensures AllBlock(issues) && (issues == [] <==> FieldComplete(c, f))
  {
    needs, issues := required, [];
    var values := ReadArray(c, f).value;
    if values == [] && MayNotBeEmpty(f) {
      issues := [Incomplete(At(f))];
    }
    for i := 0 to |values|
      invariant NeedsExactly(c, needs, among + ItemsOf(f, i))
      invariant AllBlock(issues)
      invariant issues == [] <==>
                (values == [] ==> !MayNotBeEmpty(f)) && forall k :: 0 <= k < i ==> ValidIntent(f, values[k])
    {
      needs := needs[Item(f, i) := Need(Intent, EvidenceValue(values[i]))];
      if !ValidIntent(f, values[i]) {
        issues := issues + [Incomplete(Item(f, i))];
      }
    }
  }

  lemma AllItems(c: Content, needs: Needs, fields: seq<FieldName>, f: FieldName)
    requires IsArray(f)
    requires NeedsExactly(c, needs,
                          PlacesOf(fields)
                          + if ReadArray(c, f).Some? then ItemsOf(f, |ReadArray(c, f).value|) else iset{})
    ensures NeedsExactly(c, needs, PlacesOf(fields + [f]))
  {
  }

  lemma ScalarAdded(c: Content, needs: Needs, fields: seq<FieldName>, f: FieldName)
    requires !IsArray(f) && NeedsExactly(c, needs, PlacesOf(fields))
    ensures ReadScalar(c, f).None? ==> NeedsExactly(c, needs, PlacesOf(fields + [f]))
    ensures ReadScalar(c, f).Some? ==>
              NeedsExactly(c, needs[At(f) := Need(Intent, EvidenceValue(ReadScalar(c, f).value))],
                           PlacesOf(fields + [f]))
  {
  }

  /** One causal field: its needs, and what is wrong with it. */
  method RequireField(c: Content, f: FieldName, required: Needs, ghost fields: seq<FieldName>)
    returns (needs: Needs, issues: seq<Issue>)
    requires NeedsExactly(c, required, PlacesOf(fields))
    ensures NeedsExactly(c, needs, PlacesOf(fields + [f]))
    ensures AllBlock(issues) && (issues == [] <==> FieldComplete(c, f))
  {
    needs, issues := required, [];
    if IsArray(f) {
      if ReadArray(c, f).None? {
        issues := [Incomplete(At(f))];
      } else {
        needs, issues := RequireItems(c, f, required, PlacesOf(fields));
      }
      AllItems(c, needs, fields, f);
    } else {
      ScalarAdded(c, required, fields, f);
      var value := ReadScalar(c, f);
      if value.None? {
        issues := [Incomplete(At(f))];
      } else {
        needs := needs[At(f) := Need(Intent, EvidenceValue(value.value))];
        if !ValidIntent(f, value.value) {
          issues := [Incomplete(At(f))];
        }
      }
    }
  }

  /** Goes through the causal fields in order. */
  method RequireFields(c: Content) returns (needs: Needs, issues: seq<Issue>)
    ensures NeedsExactly(c, needs, PlacesOf(CAUSAL_FIELDS))
    ensures AllBlock(issues) && (issues == [] <==> forall f <- CAUSAL_FIELDS :: FieldComplete(c, f))
  {
    needs, issues := map[], [];
    var fields := CAUSAL_FIELDS;
    for k := 0 to |fields|
      invariant NeedsExactly(c, needs, PlacesOf(fields[..k]))
      invariant AllBlock(issues)
      invariant issues == [] <==> forall i :: 0 <= i < k ==> FieldComplete(c, fields[i])
    {
      assert fields[..k + 1] == fields[..k] + [fields[k]];
      var problems;
      needs, problems := RequireField(c, fields[k], needs, fields[..k]);
      issues := issues + problems;
    }
    assert fields[..|fields|] == fields;
  }

  // ----- Choice and plans -----

  method RequireMissing(c: Content, required: Needs, ghost among: iset<Place>)
      returns (needs: Needs, issues: seq<Issue>)
    requires NeedsExactly(c, required, among)
    ensures NeedsExactly(c, needs, among + iset place: Place | place.MissingAt?)
    ensures AllBlock(issues) && (issues == [] <==> ChoiceComplete(c))
  {
    needs, issues := required, [];
    if !c.status.SameAs(Enum("complete")) {
      issues := [Incomplete(At(ChoiceStatus))];
    }
    if c.missing.None? {
      issues := issues + [Incomplete(MissingAt(0))];
      return;
    }
    var names := c.missing.value;
    for i := 0 to |names|
      invariant NeedsExactly(c, needs, among + MissingUpTo(i))
      invariant AllBlock(issues)
      invariant issues == [] <==> c.status.SameAs(Enum("complete")) && i == 0
    {
      needs := needs[MissingAt(i) := Need(Intent, EvidenceValue(names[i]))];
      issues := issues + [Incomplete(MissingAt(i))];
    }
  }

  function BadReason(f: FieldName): Issue {
    Issue(InvalidNotApplicableReason, ReasonOf(f), true)
  }

  lemma ReasonAdded(c: Content, needs: Needs, among: iset<Place>, plans: seq<FieldName>, f: FieldName)
    requires IsPlan(f) && NeedsExactly(c, needs, among + ReasonsOf(plans))
    ensures !(f in c.plans && HasReason(c.plans[f])) ==> NeedsExactly(c, needs, among + ReasonsOf(plans + [f]))
    ensures f in c.plans && HasReason(c.plans[f]) ==>
              NeedsExactly(c, needs[ReasonOf(f) := Need(NonApplicability, EvidenceValue(c.plans[f].reason))],
                           among + ReasonsOf(plans + [f]))
  {
  }

  method RequireReasons(c: Content, required: Needs, ghost among: iset<Place>)
      returns (needs: Needs, issues: seq<Issue>)
    requires NeedsExactly(c, required, among)
    ensures NeedsExactly(c, needs, among + ReasonsOf(PLANS))
    ensures AllBlock(issues) && (issues == [] <==> forall f <- PLANS :: PlanComplete(c, f))
  {
    needs, issues := required, [];
    var plans := PLANS;
    for k := 0 to |plans|
      invariant NeedsExactly(c, needs, among + ReasonsOf(plans[..k]))
      invariant AllBlock(issues)
      invariant issues == [] <==> forall i :: 0 <= i < k ==> PlanComplete(c, plans[i])
    {
      var f := plans[k];
      EveryPlanListed(f);
      ReasonAdded(c, needs, among, plans[..k], f);
      assert plans[..k + 1] == plans[..k] + [f];
      if f !in c.plans {
        issues := issues + [BadReason(f)];
      } else if c.plans[f].values != [] {
        if !c.plans[f].reason.Null? {
          issues := issues + [BadReason(f)];
        }
      } else if !IsText(c.plans[f].reason) {
        issues := issues + [BadReason(f)];
      } else {
        needs := needs[ReasonOf(f) := Need(NonApplicability, EvidenceValue(c.plans[f].reason))];
      }
    }
    assert plans[..|plans|] == plans;
  }

  /** Everything that needs evidence, and everything that is not complete. */
  method RequiredEvidenceRoles(s: Subject) returns (needs: Needs, issues: seq<Issue>)
    ensures forall place :: NeedAt(s.candidate.content, place) == if place in needs then Some(needs[place]) else None
    ensures AllBlock(issues) && (issues == [] <==> ControlsValid(s.controls) && ContentComplete(s.candidate.content))
  {
    var c := s.candidate.content;
    issues := [];
    var controls := CONTROLS;
    for k := 0 to |controls|
      invariant AllBlock(issues) && (issues == [] <==> forall i :: 0 <= i < k ==> ControlValid(s.controls, controls[i]))
    {
      if !ControlValid(s.controls, controls[k]) {
        issues := issues + [Incomplete(Elsewhere("control"))];
      }
    }
    var fieldIssues, choiceIssues, planIssues;
    needs, fieldIssues := RequireFields(c);
    needs, choiceIssues := RequireMissing(c, needs, PlacesOf(CAUSAL_FIELDS));
    ghost var among := PlacesOf(CAUSAL_FIELDS) + iset place: Place | place.MissingAt?;
    needs, planIssues := RequireReasons(c, needs, among);
    AllPlacesCovered(c, needs);
    issues := issues + fieldIssues + choiceIssues + planIssues;
  }

  lemma AllPlacesCovered(c: Content, needs: Needs)
    requires NeedsExactly(c, needs, PlacesOf(CAUSAL_FIELDS) + (iset place: Place | place.MissingAt?) + ReasonsOf(PLANS))
    ensures forall place :: NeedAt(c, place) == if place in needs then Some(needs[place]) else None
  {
    forall place | NeedAt(c, place).Some?
      ensures place in needs
    {
      if place.At? || place.Item? {
        EveryFieldListed(place.field);
        assert place in PlacesOf(CAUSAL_FIELDS);
      } else if place.ReasonOf? {
        EveryPlanListed(place.plan);
        assert place in ReasonsOf(PLANS);
      }
    }
  }
}
