/** Whether a contract that preflight lets through can ever be fulfilled. */
module Fulfillability {
  import opened Wrappers
  import opened Paths
  import opened Decisions
  import opened Evidence
  import opened ContractFields
  import opened EvidenceIntegrity
  import opened TreeReading
  import opened FieldPaths
  import opened DecisionReading
  import opened FulfillmentFields
  import opened FrozenContract
  import opened Fulfillment
  import opened FulfillmentRecords
  import Causality
  import Diffs
  import PreflightGate

  // ----- What a ready decision has frozen -----

  function RoleOf(field: Fulfillment.Field): Role {
    if field.nonApplicable then NonApplicability else Intent
  }

  /** Of a complete contract exactly these fields need evidence from preflight, with one role and this value. */
  lemma FieldNeeds(c: Content, place: Place)
    requires ContentComplete(c) && FieldAt(c, place).Some?
    ensures IsConcrete(place)
            && NeedAt(c, place) == Some(Need(RoleOf(FieldAt(c, place).value), FieldAt(c, place).value.value))
  {
    if place.ReasonOf? {
      EveryPlanListed(place.plan);
      assert PlanComplete(c, place.plan);
    }
  }

  /** All references frozen under a path, and there are some, have this role and this value. */
  ghost predicate AllFrozen(frozen: Frozen, path: string, role: Role, value: Option<Value>) {
    && path in frozen && frozen[path] != []
    && forall ref <- frozen[path] :: ref.role == role && ref.assertedValue == value
  }

  lemma SupportIsFrozen(frozen: seq<EvidenceRef<string>>, entries: seq<Entry>, place: Place, need: Need,
                        resolver: Resolver)
    requires PreflightGate.SupportedAt(entries, place, need, resolver) && entries == BoundEntries(frozen)
    ensures frozen != [] && forall ref <- frozen :: ref.role == need.role && ref.assertedValue == need.value
  {
    forall ref <- frozen
      ensures ref.role == need.role && ref.assertedValue == need.value
    {
      var i :| 0 <= i < |frozen| && frozen[i] == ref;
      assert entries[i] == Bound(Located(ref)) && entries[i] in entries;
    }
  }

  ghost predicate IsReady(d: NarrativeDecision, valid: bool, resolver: Resolver,
                          causal: Option<Causality.CausalResult>) {
    PreflightGate.Ready(SubjectOf(d, valid), Some(resolver), causal)
  }

  /** A ready decision has frozen evidence for every field, all of it with the one role that preflight admits. */
  lemma ReadyIsFrozen(d: NarrativeDecision, valid: bool, resolver: Resolver, causal: Option<Causality.CausalResult>,
                      place: Place)
    requires IsReady(d, valid, resolver, causal) && FieldAt(ContentOf(d.tree), place).Some?
    ensures var field := FieldAt(ContentOf(d.tree), place).value;
            AllFrozen(FrozenOf(d.tree), TextOf(place), RoleOf(field), field.value)
  {
    var c := ContentOf(d.tree);
    FieldNeeds(c, place);
    EvidenceIsFrozen(d, place);
    var bindings, frozen, path := BindingsOf(d.tree).value, FrozenOf(d.tree), TextOf(place);
    assert PreflightGate.SupportedAt(PreflightGate.EntriesAt(bindings, place), place, NeedAt(c, place).value, resolver);
    if path in frozen {
      SupportIsFrozen(frozen[path], BoundEntries(frozen[path]), place, NeedAt(c, place).value, resolver);
    }
  }

  lemma RolesFrozen(k: Contract, path: string)
    requires path in k.fields && AllFrozen(k.frozen, path, RoleOf(k.fields[path]), k.fields[path].value)
    ensures FrozenRoles(k, path) == if k.fields[path].member then {} else {RoleOf(k.fields[path])}
  {
    var refs := k.frozen[path];
    assert refs[0] in refs;
    forall ref <- refs
      ensures Matches(k, path, ref.assertedValue) <==> !k.fields[path].member
    {
    }
  }

  // ----- When it can be fulfilled -----

  predicate PlanFilled(c: Content, f: FieldName) {
    f in c.plans && c.plans[f].values != []
  }

  predicate HasMember(c: Content, f: FieldName) {
    IsArray(f) && ReadArray(c, f).Some? && exists v <- ReadArray(c, f).value :: v.Enum?
  }

  /** Every plan has values, and no item of an array is an enumeration member. */
  predicate NothingWaived(c: Content) {
    (forall f: FieldName | IsPlan(f) :: PlanFilled(c, f)) && forall f: FieldName :: !HasMember(c, f)
  }

  predicate Plain(field: Fulfillment.Field) {
    !field.nonApplicable && !field.member
  }

  lemma NothingWaivedIff(c: Content)
    requires ContentComplete(c)
    ensures NothingWaived(c) <==> forall place | FieldAt(c, place).Some? :: Plain(FieldAt(c, place).value)
  {
    if NothingWaived(c) {
      forall place | FieldAt(c, place).Some?
        ensures Plain(FieldAt(c, place).value)
      {
        if place.Item? {
          assert !HasMember(c, place.field);
        }
      }
    } else {
      var place := WaivedPlace(c);
    }
  }

  lemma EmptyPlan(c: Content, f: FieldName)
    requires ContentComplete(c) && IsPlan(f) && !PlanFilled(c, f)
    ensures FieldAt(c, ReasonOf(f)).Some? && FieldAt(c, ReasonOf(f)).value.nonApplicable
  {
    EveryPlanListed(f);
    assert PlanComplete(c, f);
  }

  lemma MemberPlace(c: Content, f: FieldName) returns (place: Place)
    requires HasMember(c, f)
    ensures FieldAt(c, place).Some? && FieldAt(c, place).value.member
  {
    var values := ReadArray(c, f).value;
    var i :| 0 <= i < |values| && values[i].Enum?;
    place := Item(f, i);
  }

  lemma ReasonPlace(c: Content) returns (place: Place)
    requires ContentComplete(c) && exists f: FieldName :: IsPlan(f) && !PlanFilled(c, f)
    ensures FieldAt(c, place).Some? && FieldAt(c, place).value.nonApplicable
  {
    var f: FieldName :| IsPlan(f) && !PlanFilled(c, f);
    EmptyPlan(c, f);
    place := ReasonOf(f);
  }

  lemma WaivedPlace(c: Content) returns (place: Place)
    requires ContentComplete(c) && !NothingWaived(c)
    ensures FieldAt(c, place).Some? && !Plain(FieldAt(c, place).value)
  {
    if f: FieldName :| HasMember(c, f) {
      place := MemberPlace(c, f);
    } else {
      place := ReasonPlace(c);
    }
  }

  /** Records have one of the two roles that a fulfillment record may have. */
  predicate RecordRoles(records: seq<Record>) {
    forall r <- records :: r.evidence.role.Verification? || r.evidence.role.Realization?
  }

  ghost predicate CanBeFulfilled(k: Contract) {
    exists validator, artifact, records ::
      RecordRoles(records) && Evaluate(k, validator, artifact, records).status.Fulfilled?
  }

  /** A field that is not plain lacks intent evidence for good: none is frozen, and no record can add it. */
  lemma WaivedIsNeverMet(k: Contract, path: string, validator: Validator, records: seq<Record>)
    requires path in k.fields && AllFrozen(k.frozen, path, RoleOf(k.fields[path]), k.fields[path].value)
    requires RecordRoles(records) && !Plain(k.fields[path])
    ensures !FieldMet(k, validator, records, path)
  {
    RolesFrozen(k, path);
    var required := RequiredRoles(k.fields[path].nonApplicable);
    assert required[0] == Intent && Intent in required;
  }

  lemma OnlyIfNothingWaived(d: NarrativeDecision, valid: bool, resolver: Resolver,
                            causal: Option<Causality.CausalResult>, k: Contract)
    requires IsReady(d, valid, resolver, causal) && DerivedFrom(k, d) && CanBeFulfilled(k)
    ensures NothingWaived(ContentOf(d.tree))
  {
    var c := ContentOf(d.tree);
    var validator, artifact, records :|
      RecordRoles(records) && Evaluate(k, validator, artifact, records).status.Fulfilled?;
    StatusMeans(k, validator, artifact, records);
    if !NothingWaived(c) {
      var place := WaivedPlace(c);
      ReadyIsFrozen(d, valid, resolver, causal, place);
      WaivedIsNeverMet(k, TextOf(place), validator, records);
    }
  }

  // ----- Records that fulfil it -----

  function Proof(k: Contract, a: Artifact, role: Role, path: string): Record
    requires path in k.fields || path in METADATA
  {
    FulfillmentRecords.Record(
      "r", k.binding, path,
      EvidenceRef("e", k.binding.contractId, k.binding.contractVersion, path, role, a.sourceId, a.sourceVersion,
                  a.sourceHash, Locator("record_id", "here"), "excerpt", "claim", ExpectedValue(k, path)),
      "2026-01-01T00:00:00+00:00", None)
  }

  function Proofs(k: Contract, a: Artifact, role: Role, paths: seq<string>): (records: seq<Record>)
    requires forall path <- paths :: path in k.fields || path in METADATA
    ensures |records| == |paths| && forall i :: 0 <= i < |paths| ==> records[i] == Proof(k, a, role, paths[i])
  {
    seq(|paths|, i requires 0 <= i < |paths| => Proof(k, a, role, paths[i]))
  }

  lemma ProofIsUsable(k: Contract, a: Artifact, role: Role, path: string)
    requires path in k.fields || path in METADATA
    requires path in k.fields ==> !k.fields[path].member
    ensures !IsStale(k, (_, _) => true, Proof(k, a, role, path))
  {
  }

  const ACCEPT: Validator := (_, _) => true

  function AllProofs(k: Contract, a: Artifact, paths: seq<string>): seq<Record>
    requires forall path <- paths :: path in k.fields
  {
    Proofs(k, a, Verification, paths + METADATA) + Proofs(k, a, Realization, paths)
  }

  lemma ProofsAreUsable(k: Contract, a: Artifact, paths: seq<string>)
    requires (forall path <- paths :: path in k.fields) && forall path <- k.fields :: !k.fields[path].member
    ensures var records := AllProofs(k, a, paths); RecordRoles(records) && forall r <- records :: !IsStale(k, ACCEPT, r)
  {
    forall r <- AllProofs(k, a, paths)
      ensures (r.evidence.role.Verification? || r.evidence.role.Realization?) && !IsStale(k, ACCEPT, r)
    {
      var role, path :| path in paths + METADATA && role in {Verification, Realization} && r == Proof(k, a, role, path);
      ProofIsUsable(k, a, role, path);
    }
  }

  lemma Proved(k: Contract, a: Artifact, paths: seq<string>, role: Role, path: string)
    requires (forall p <- paths :: p in k.fields)
    requires (role == Verification && path in paths + METADATA) || (role == Realization && path in paths)
    ensures Proof(k, a, role, path) in AllProofs(k, a, paths)
  {
    if role == Verification {
      var all := paths + METADATA;
      var i :| 0 <= i < |all| && all[i] == path;
      assert AllProofs(k, a, paths)[i] == Proof(k, a, role, path);
    } else {
      var i :| 0 <= i < |paths| && paths[i] == path;
      assert AllProofs(k, a, paths)[|paths + METADATA| + i] == Proof(k, a, role, path);
    }
  }

  lemma ProvedIsShown(k: Contract, a: Artifact, paths: seq<string>, role: Role, path: string)
    requires (forall p <- paths :: p in k.fields) && forall p <- k.fields :: !k.fields[p].member
    requires (role == Verification && path in paths + METADATA) || (role == Realization && path in paths)
    ensures Shown(k, ACCEPT, AllProofs(k, a, paths), path, role)
  {
    Proved(k, a, paths, role, path);
    ProofIsUsable(k, a, role, path);
  }

  lemma PlainIsMet(k: Contract, a: Artifact, paths: seq<string>, path: string)
    requires (forall p <- paths :: p in k.fields) && (forall p <- k.fields :: Plain(k.fields[p])) && path in paths
    requires AllFrozen(k.frozen, path, RoleOf(k.fields[path]), k.fields[path].value)
    ensures FieldMet(k, ACCEPT, AllProofs(k, a, paths), path)
  {
    RolesFrozen(k, path);
    ProvedIsShown(k, a, paths, Verification, path);
    ProvedIsShown(k, a, paths, Realization, path);
  }

  /** The artifact whose metadata are the contract's. */
  function MatchingArtifact(k: Contract): Artifact {
    Artifact(k.chapterId, k.targetChars, "artifact", "1", "hash")
  }

  lemma MetadataIsMet(k: Contract, paths: seq<string>, path: string)
    requires (forall p <- paths :: p in k.fields) && (forall p <- k.fields :: !k.fields[p].member)
    requires path in METADATA && path !in k.fields
    ensures MetadataMet(k, ACCEPT, MatchingArtifact(k), AllProofs(k, MatchingArtifact(k), paths), path)
  {
    var a := MatchingArtifact(k);
    assert path in paths + METADATA;
    ProvedIsShown(k, a, paths, Verification, path);
    Proved(k, a, paths, Verification, path);
    ProofIsUsable(k, a, Verification, path);
    assert |CHAPTER_ID| != |TARGET_CHARS|;
    assert VerifiesArtifact(a, path, Proof(k, a, Verification, path));
  }

  // ----- Metadata paths are no fields -----

  lemma TwoNames(place: Place, name: string)
    requires IsConcrete(place) && StepsOf(place) == [Attr(CHAPTER), Attr(name)]
    ensures |NamesOf(place)| == 2 && NamesOf(place)[1] == name
  {
    assert StepsOf(place)[1] == Attr(name);
  }

  lemma MetadataText(name: string, place: Place)
    requires IsIdentifier(name) && |name| in {10, 20} && IsConcrete(place)
    ensures TextOf(place) != CHAPTER + "." + name
  {
    var steps := [Attr(CHAPTER), Attr(name)];
    TextOfTwo(CHAPTER, name);
    StepsAreProper(place);
    PlaceHasShape(place);
    TopNames();
    if TextOf(place) == CHAPTER + "." + name {
      PathTextInjective("", StepsOf(place), steps);
      TwoNames(place, name);
      assert false;
    }
  }

  lemma MetadataTexts()
    ensures IsIdentifier("chapter_id") && IsIdentifier("target_chinese_chars")
    ensures CHAPTER_ID == CHAPTER + "." + "chapter_id" && TARGET_CHARS == CHAPTER + "." + "target_chinese_chars"
  {
  }

  lemma MetadataAreNoFields(k: Contract, c: Content)
    requires ListsByText(c, k.fields)
    ensures forall path <- METADATA :: path !in k.fields
  {
    MetadataTexts();
    forall path <- METADATA
      ensures path !in k.fields
    {
      if path in k.fields {
        var place :| FieldAt(c, place).Some? && TextOf(place) == path;
        FrozenContract.FieldsAreConcrete(c, place);
        MetadataText("chapter_id", place);
        MetadataText("target_chinese_chars", place);
      }
    }
  }

  lemma PathsListed(k: Contract)
    ensures forall path :: path in Diffs.SortedPaths(k.fields.Keys) <==> path in k.fields
  {
    Diffs.SortedPathsListsAll(k.fields.Keys);
  }

  lemma IfNothingWaived(d: NarrativeDecision, valid: bool, resolver: Resolver, causal: Option<Causality.CausalResult>,
                        k: Contract)
    requires IsReady(d, valid, resolver, causal) && DerivedFrom(k, d) && NothingWaived(ContentOf(d.tree))
    ensures CanBeFulfilled(k)
  {
    var c, paths, a := ContentOf(d.tree), Diffs.SortedPaths(k.fields.Keys), MatchingArtifact(k);
    NothingWaivedIff(c);
    PathsListed(k);
    forall path <- k.fields
      ensures Plain(k.fields[path]) && AllFrozen(k.frozen, path, RoleOf(k.fields[path]), k.fields[path].value)
    {
      var place :| FieldAt(c, place).Some? && TextOf(place) == path;
      ReadyIsFrozen(d, valid, resolver, causal, place);
    }
    ProofsAreUsable(k, a, paths);
    forall path <- k.fields
      ensures FieldMet(k, ACCEPT, AllProofs(k, a, paths), path)
    {
      PlainIsMet(k, a, paths, path);
    }
    MetadataAreNoFields(k, c);
    forall path <- METADATA
      ensures MetadataMet(k, ACCEPT, a, AllProofs(k, a, paths), path)
    {
      MetadataIsMet(k, paths, path);
    }
    StatusMeans(k, ACCEPT, a, AllProofs(k, a, paths));
  }

  /**
   A contract that passes preflight can be fulfilled by some records exactly if every plan has values and no item
   is an enumeration member. For an empty plan the evaluator wants intent evidence besides the reason's
   non-applicability, but preflight admits no other role there and records cannot have it.
   */
  lemma ReadyIsFulfillableIff(d: NarrativeDecision, valid: bool, resolver: Resolver,
                              causal: Option<Causality.CausalResult>, k: Contract)
    requires PreflightGate.Ready(SubjectOf(d, valid), Some(resolver), causal) && DerivedFrom(k, d)
    ensures CanBeFulfilled(k) <==> NothingWaived(ContentOf(d.tree))
  {
    if CanBeFulfilled(k) {
      OnlyIfNothingWaived(d, valid, resolver, causal, k);
    }
    if NothingWaived(ContentOf(d.tree)) {
      IfNothingWaived(d, valid, resolver, causal, k);
    }
  }
}
