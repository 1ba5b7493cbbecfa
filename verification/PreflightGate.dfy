/** The evidence part of preflight, and the whole gate against its declarative meaning. */
module PreflightGate {
  import opened Wrappers
  import opened Decisions
  import opened Evidence
  import opened ContractFields
  import opened EvidenceIntegrity
  import opened Causality
  import opened Preflight

  function EntriesOf(b: Binding): seq<Entry> {
    if b.entries.Some? then References(b.entries.value) else []
  }

  /** Things that are no references are passed over. */
  function References(entries: seq<Entry>): seq<Entry> {
    if entries == [] then []
    else References(entries[..|entries| - 1]) + if entries[|entries| - 1].NotARef? then [] else [entries[|entries| - 1]]
  }

  /** All references bound to `place`, in order. */
  function EntriesAt(bindings: seq<Binding>, place: Place): seq<Entry> {
    if bindings == [] then []
    else
      var last := bindings[|bindings| - 1];
      EntriesAt(bindings[..|bindings| - 1], place) + if last.place == place then EntriesOf(last) else []
  }

  predicate HasRole(e: Entry, role: Role) {
    e.Bound? && e.ref.role == role
  }

  /** The references at one place: at least one, all of the required role, and all agreeing with their sources. */
  predicate PlaceSound(entries: seq<Entry>, place: Place, need: Need, resolver: Option<Resolver>) {
    && entries != [] && (forall e <- entries :: HasRole(e, need.role))
    && (resolver.Some? ==>
          forall e <- entries :: EntryResolves(e, place, need, resolver.value))
  }

  predicate BindingKnown(b: Binding, needs: Needs) {
    b.place in needs && b.entries.Some?
  }

  predicate EvidenceSound(bindings: Option<seq<Binding>>, needs: Needs, resolver: Option<Resolver>) {
    && bindings.Some? && AllKnown(bindings.value, needs)
    && forall place <- needs :: PlaceSound(EntriesAt(bindings.value, place), place, needs[place], resolver)
  }

  function RoleIssue(place: Place, role: Role): Issue {
    Issue(if role.NonApplicability? then InvalidNotApplicableReason else IncompleteContract, place, true)
  }

  // ----- One place -----

  /** The values that sources of one kind assert about `place` through intent references. */
  function Asserted(entries: seq<Entry>, place: Place, need: Need, resolver: Resolver, kind: SourceKind): set<Value> {
    set e <- entries, v <- AssertedBy(e, place, need, resolver, kind) :: v
  }

  function AssertedBy(e: Entry, place: Place, need: Need, resolver: Resolver, kind: SourceKind): set<Value> {
    var source := Validate(e, place, Some(need.value), true, resolver).source;
    if HasRole(e, Intent) && source.Some? && source.value.kind == Some(kind)
      && AssertedAt(source.value.asserted, place).Some?
    then {AssertedAt(source.value.asserted, place).value} else {}
  }

  predicate Conflict(entries: seq<Entry>, place: Place, need: Need, resolver: Resolver) {
    && need.role.Intent?
    && Asserted(entries, place, need, resolver, Task) != {} && Asserted(entries, place, need, resolver, Director) != {}
    && |Asserted(entries, place, need, resolver, Task) + Asserted(entries, place, need, resolver, Director)| > 1
  }

  lemma AssertedAgrees(e: Entry, place: Place, need: Need, resolver: Resolver, kind: SourceKind)
    requires Validate(e, place, Some(need.value), true, resolver).problem.None?
    ensures forall v <- AssertedBy(e, place, need, resolver, kind) :: need.value == Some(v)
  {
  }

  /** Task and Director can only disagree about a field where some reference fails its own check as well. */
  lemma ConflictIsNeverAlone(entries: seq<Entry>, place: Place, need: Need, resolver: Resolver)
    requires Conflict(entries, place, need, resolver)
    ensures exists e <- entries :: Validate(e, place, Some(need.value), true, resolver).problem.Some?
  {
    if forall e <- entries :: Validate(e, place, Some(need.value), true, resolver).problem.None? {
      var both := Asserted(entries, place, need, resolver, Task) + Asserted(entries, place, need, resolver, Director);
      forall v <- both
        ensures need.value == Some(v)
      {
        var kind := if v in Asserted(entries, place, need, resolver, Task) then Task else Director;
        var e :| e in entries && v in AssertedBy(e, place, need, resolver, kind);
        AssertedAgrees(e, place, need, resolver, kind);
      }
      AtMostOne(both, need.value);
    }
  }

  lemma AtMostOne(s: set<Value>, value: Option<Value>)
    requires forall v <- s :: value == Some(v)
    ensures |s| <= 1
  {
    if s != {} {
      var v :| v in s;
      assert s == {v};
    }
  }

  lemma AssertedSnoc(entries: seq<Entry>, e: Entry, place: Place, need: Need, resolver: Resolver, kind: SourceKind)
    ensures Asserted(entries + [e], place, need, resolver, kind) ==
            Asserted(entries, place, need, resolver, kind) + AssertedBy(e, place, need, resolver, kind)
  {
    assert forall x :: x in entries + [e] <==> x in entries || x == e;
  }

  predicate EntryResolves(e: Entry, place: Place, need: Need, resolver: Resolver) {
    Validate(e, place, Some(need.value), true, resolver).problem.None?
  }

  /** Checks every reference against its source and notes what Task and Director sources assert. */
  method ResolveEntries(entries: seq<Entry>, place: Place, need: Need, resolver: Resolver)
    returns (issues: seq<Issue>, taskValues: set<Value>, directorValues: set<Value>)
    ensures AllBlock(issues) && (issues == [] <==> forall e <- entries :: EntryResolves(e, place, need, resolver))
    ensures taskValues == Asserted(entries, place, need, resolver, Task)
    ensures directorValues == Asserted(entries, place, need, resolver, Director)
  {
    issues, taskValues, directorValues := [], {}, {};
    for i := 0 to |entries|
      invariant AllBlock(issues)
      invariant issues == [] <==> forall k :: 0 <= k < i ==> EntryResolves(entries[k], place, need, resolver)
      invariant taskValues == Asserted(entries[..i], place, need, resolver, Task)
      invariant directorValues == Asserted(entries[..i], place, need, resolver, Director)
    {
      assert entries[..i + 1] == entries[..i] + [entries[i]];
      AssertedSnoc(entries[..i], entries[i], place, need, resolver, Task);
      AssertedSnoc(entries[..i], entries[i], place, need, resolver, Director);
      var validation := Validate(entries[i], place, Some(need.value), true, resolver);
      if validation.problem.Some? {
        issues := issues + [Issue(validation.problem.value, place, true)];
      }
      taskValues := taskValues + AssertedBy(entries[i], place, need, resolver, Task);
      directorValues := directorValues + AssertedBy(entries[i], place, need, resolver, Director);
    }
    assert entries[..|entries|] == entries;
  }

  /** Checks the references at one place; the disagreement check only ever adds to other problems. */
  method ValidatePlace(entries: seq<Entry>, place: Place, need: Need, resolver: Option<Resolver>)
      returns (issues: seq<Issue>)
    ensures AllBlock(issues) && (issues == [] <==> PlaceSound(entries, place, need, resolver))
  {
    issues := [];
    var taskValues, directorValues: set<Value> := {}, {};
    if resolver.Some? {
      issues, taskValues, directorValues := ResolveEntries(entries, place, need, resolver.value);
    }
    ghost var resolved := issues == [];
    if exists e <- entries :: !HasRole(e, need.role) {
      issues := issues + [RoleIssue(place, need.role)];
    }
    if forall e <- entries :: !HasRole(e, need.role) {
      issues := issues + [RoleIssue(place, need.role)];
      assert entries != [] ==> !HasRole(entries[0], need.role);
      return;
    }
    if need.role.Intent? && taskValues != {} && directorValues != {} && |taskValues + directorValues| > 1 {
      ConflictIsNeverAlone(entries, place, need, resolver.value);
      assert !resolved;
      issues := issues + [Issue(ConflictingIntent, place, true)];
    }
  }

  // ----- All bindings -----

  /** First the bindings themselves, then every required place. */
  method ValidateEvidence(bindings: Option<seq<Binding>>, needs: Needs, resolver: Option<Resolver>)
      returns (issues: seq<Issue>)
    ensures AllBlock(issues) && (issues == [] <==> EvidenceSound(bindings, needs, resolver))
  {
    if bindings.None? {
      return [Incomplete(Elsewhere("chapter_contract.intent_evidence_bindings"))];
    }
    var bound := bindings.value;
    var byPath: map<Place, seq<Entry>> := map[];
    issues, byPath := CollectBindings(bound, needs, resolver);
    var placeIssues := ValidatePlaces(byPath, needs, resolver, bound);
    issues := issues + placeIssues;
  }

  method ValidatePlaces(byPath: map<Place, seq<Entry>>, needs: Needs, resolver: Option<Resolver>,
                        ghost bindings: seq<Binding>)
    returns (issues: seq<Issue>)
    requires Groups(byPath, bindings)
    ensures AllBlock(issues)
    ensures issues == [] <==>
            forall place <- needs :: PlaceSound(EntriesAt(bindings, place), place, needs[place], resolver)
  {
    issues := [];
    var todo := needs.Keys;
    ghost var sound := set place <- needs | PlaceSound(EntriesAt(bindings, place), place, needs[place], resolver);
    while todo != {}
      invariant todo <= needs.Keys && AllBlock(issues)
      invariant issues == [] <==> needs.Keys - todo <= sound
      decreases |todo|
    {
      var place :| place in todo;
      var entries := if place in byPath then byPath[place] else [];
      var problems := ValidatePlace(entries, place, needs[place], resolver);
      assert problems == [] <==> place in sound;
      issues := issues + problems;
      assert needs.Keys - (todo - {place}) == (needs.Keys - todo) + {place};
      todo := todo - {place};
    }
    assert needs.Keys - todo == needs.Keys;
  }

  ghost predicate Groups(byPath: map<Place, seq<Entry>>, bindings: seq<Binding>) {
    forall place {:trigger EntriesAt(bindings, place)} ::
      (if place in byPath then byPath[place] else []) == EntriesAt(bindings, place)
  }

  lemma GroupsSnoc(byPath: map<Place, seq<Entry>>, bindings: seq<Binding>, b: Binding, refs: seq<Entry>)
    requires Groups(byPath, bindings) && refs == EntriesAt(bindings, b.place) + EntriesOf(b)
    ensures Groups(byPath[b.place := refs], bindings + [b])
    ensures EntriesOf(b) == [] ==> Groups(byPath, bindings + [b])
  {
    assert (bindings + [b])[..|bindings|] == bindings;
    forall place
      ensures EntriesAt(bindings + [b], place) ==
              EntriesAt(bindings, place) + if b.place == place then EntriesOf(b) else []
    {
    }
  }

  /** Groups the references by place and reports bindings to places that need no evidence. */
  method CollectBindings(bindings: seq<Binding>, needs: Needs, resolver: Option<Resolver>)
    returns (issues: seq<Issue>, byPath: map<Place, seq<Entry>>)
    ensures AllBlock(issues) && (issues == [] <==> AllKnown(bindings, needs))
    ensures Groups(byPath, bindings)
  {
    issues, byPath := [], map[];
    ghost var seen: seq<Binding> := [];
    for i := 0 to |bindings|
      invariant seen == bindings[..i] && Groups(byPath, seen)
      invariant AllBlock(issues) && (issues == [] <==> AllKnown(seen, needs))
    {
      var problems;
      problems, byPath := CollectBinding(bindings[i], byPath, needs, resolver, seen);
      issues := issues + problems;
      AllKnownSnoc(seen, bindings[i], needs);
      PrefixGrows(bindings, i);
      seen := seen + [bindings[i]];
    }
    assert seen == bindings;
  }

  predicate AllKnown(bindings: seq<Binding>, needs: Needs) {
    forall b <- bindings :: BindingKnown(b, needs)
  }

  lemma AllKnownSnoc(bindings: seq<Binding>, b: Binding, needs: Needs)
    ensures AllKnown(bindings + [b], needs) <==> AllKnown(bindings, needs) && BindingKnown(b, needs)
  {
    assert b in bindings + [b];
  }

  lemma PrefixGrows(bindings: seq<Binding>, i: nat)
    requires i < |bindings|
    ensures bindings[..i + 1] == bindings[..i] + [bindings[i]]
  {
  }

  method CollectBinding(b: Binding, byPath: map<Place, seq<Entry>>, needs: Needs, resolver: Option<Resolver>,
                        ghost earlier: seq<Binding>)
    returns (issues: seq<Issue>, grouped: map<Place, seq<Entry>>)
    requires Groups(byPath, earlier)
    ensures AllBlock(issues) && (issues == [] <==> BindingKnown(b, needs))
    ensures Groups(grouped, earlier + [b])
  {
    issues, grouped := [], byPath;
    GroupsSnoc(byPath, earlier, b, EntriesAt(earlier, b.place) + EntriesOf(b));
    if b.place !in needs {
      issues := [RoleIssue(b.place, if b.place.ReasonOf? then NonApplicability else Intent)];
    }
    if b.entries.None? {
      issues := issues + [Incomplete(b.place)];
    } else {
      var before := if b.place in byPath then byPath[b.place] else [];
      var refs, problems := CollectEntries(b, before, b.place !in needs, resolver);
      issues := issues + problems;
      grouped := byPath[b.place := refs];
    }
  }

  /** The references of one binding; where nothing needs evidence they are at least checked for integrity. */
  method CollectEntries(b: Binding, before: seq<Entry>, stray: bool, resolver: Option<Resolver>)
    returns (refs: seq<Entry>, issues: seq<Issue>)
    requires b.entries.Some?
    ensures refs == before + EntriesOf(b) && AllBlock(issues) && (!stray ==> issues == [])
  {
    refs, issues := before, [];
    var entries := b.entries.value;
    for i := 0 to |entries|
      invariant refs == before + References(entries[..i]) && AllBlock(issues) && (!stray ==> issues == [])
    {
      assert entries[..i + 1][..i] == entries[..i];
      if !entries[i].NotARef? {
        refs := refs + [entries[i]];
      }
      if stray && resolver.Some? {
        var problem := Validate(entries[i], b.place, None, false, resolver.value).problem;
        if problem.Some? {
          issues := issues + [Issue(problem.value, b.place, true)];
        }
      }
    }
    assert entries[..|entries|] == entries;
  }

  // ----- The gate -----

  /** Since schema version 3 a contract must carry engagement obligations. */
  predicate ObligationsPresent(s: Subject) {
    SchemaVersion in s.controls && s.controls[SchemaVersion] == Int(3) ==> s.obligations > 0
  }

  method ValidateContract(s: Subject, resolver: Option<Resolver>, causal: Option<CausalResult>)
      returns (issues: seq<Issue>)
    ensures NoneBlocks(issues) <==> Ready(s, resolver, causal)
  {
    issues := [];
    if !CandidateValid(s.candidate) {
      issues := [Incomplete(CONTRACT)];
    }
    var needs, fieldIssues := RequiredEvidenceRoles(s);
    NeedsAreUnique(s.candidate.content, needs);
    issues := issues + fieldIssues;
    if resolver.None? {
      issues := issues + [Issue(SourceUnavailable, Elsewhere("chapter_contract.intent_evidence_bindings"), true)];
    }
    var evidenceIssues := ValidateEvidence(s.bindings, needs, resolver);
    issues := issues + evidenceIssues;
    assert AllBlock(issues);
    assert issues == [] <==>
           && CandidateValid(s.candidate) && ControlsValid(s.controls) && ContentComplete(s.candidate.content)
           && resolver.Some? && EvidenceSound(s.bindings, needs, resolver);
    var causalIssues := ValidateResult(s.candidate, causal);
    var obligationIssues := [];
    if !ObligationsPresent(s) {
      obligationIssues := [Issue(EngagementMissing, Elsewhere("chapter_contract.engagement_obligations"), true)];
    }
    BlocksConcat(issues, causalIssues);
    BlocksConcat(issues + causalIssues, obligationIssues);
    BlocksIffEmpty(issues);
    BlocksIffEmpty(obligationIssues);
    EvidenceMeansSupported(s, needs, resolver);
    issues := issues + causalIssues + obligationIssues;
  }

  lemma BlocksConcat(a: seq<Issue>, b: seq<Issue>)
    ensures NoneBlocks(a + b) <==> NoneBlocks(a) && NoneBlocks(b)
  {
    assert forall i <- b :: i in a + b;
  }

  lemma BlocksIffEmpty(a: seq<Issue>)
    requires AllBlock(a)
    ensures NoneBlocks(a) <==> a == []
  {
    assert a != [] ==> a[0] in a;
  }

  lemma NeedsAreUnique(c: Content, needs: Needs)
    requires forall place :: NeedAt(c, place) == if place in needs then Some(needs[place]) else None
    ensures forall place :: place in needs <==> NeedAt(c, place).Some?
  {
  }

  /**
   Every place of the candidate that needs evidence has some, of
   exactly the required role, and all of it resolves.
   */
  ghost predicate Supported(s: Subject, resolver: Resolver) {
    && s.bindings.Some?
    && (forall b <- s.bindings.value :: NeedAt(s.candidate.content, b.place).Some? && b.entries.Some?)
    && forall place :: NeedAt(s.candidate.content, place).Some? ==>
         SupportedAt(EntriesAt(s.bindings.value, place), place, NeedAt(s.candidate.content, place).value, resolver)
  }

  ghost predicate SupportedAt(entries: seq<Entry>, place: Place, need: Need, resolver: Resolver) {
    entries != [] && forall e <- entries ::
      e.Bound? && e.ref.role == need.role && Resolves(e.ref, place, need.value, resolver)
  }

  lemma PlaceSoundMeans(entries: seq<Entry>, place: Place, need: Need, resolver: Resolver)
    ensures PlaceSound(entries, place, need, Some(resolver)) <==> SupportedAt(entries, place, need, resolver)
  {
    forall e <- entries | e.Bound?
      ensures Validate(e, place, Some(need.value), true, resolver).problem.None? <==>
              Resolves(e.ref, place, need.value, resolver)
    {
    }
  }

  lemma EvidenceMeansSupported(s: Subject, needs: Needs, resolver: Option<Resolver>)
    requires forall place :: NeedAt(s.candidate.content, place) == if place in needs then Some(needs[place]) else None
    ensures resolver.Some? ==> (EvidenceSound(s.bindings, needs, resolver) <==> Supported(s, resolver.value))
  {
    if resolver.Some? && s.bindings.Some? {
      forall place | place in needs
        ensures PlaceSound(EntriesAt(s.bindings.value, place), place, needs[place], resolver) <==>
                SupportedAt(EntriesAt(s.bindings.value, place), place, needs[place], resolver.value)
      {
        PlaceSoundMeans(EntriesAt(s.bindings.value, place), place, needs[place], resolver.value);
      }
    }
  }

  /** What a ready preflight means, without its issues, loops and early exits. */
  ghost predicate Ready(s: Subject, resolver: Option<Resolver>, causal: Option<CausalResult>) {
    && CandidateValid(s.candidate) && ControlsValid(s.controls) && ContentComplete(s.candidate.content)
    && resolver.Some? && Supported(s, resolver.value)
    && Accepted(s.candidate, causal) && ObligationsPresent(s)
  }

  ghost predicate ScalarSupported(s: Subject, f: FieldName, resolver: Resolver)
    requires s.bindings.Some?
  {
    var value := ReadScalar(s.candidate.content, f);
    value.Some? && SupportedAt(EntriesAt(s.bindings.value, At(f)), At(f), Need(Intent, EvidenceValue(value.value)),
                               resolver)
  }

  ghost predicate ItemSupported(s: Subject, f: FieldName, i: nat, resolver: Resolver)
    requires s.bindings.Some?
  {
    var values := ReadArray(s.candidate.content, f);
    && values.Some?
    && (i < |values.value| ==>
          SupportedAt(EntriesAt(s.bindings.value, Item(f, i)), Item(f, i),
                      Need(Intent, EvidenceValue(values.value[i])), resolver))
  }

  ghost predicate ReasonSupported(s: Subject, f: FieldName, resolver: Resolver)
    requires s.bindings.Some?
  {
    var plans := s.candidate.content.plans;
    && f in plans
    && (plans[f].values == [] ==>
          SupportedAt(EntriesAt(s.bindings.value, ReasonOf(f)), ReasonOf(f),
                      Need(NonApplicability, EvidenceValue(plans[f].reason)), resolver))
  }

  /**
   A ready candidate has resolving evidence for every item of every
   causal array and for every empty plan's reason.
   */
  lemma ReadyCoversEverything(s: Subject, resolver: Option<Resolver>, causal: Option<CausalResult>)
    requires Ready(s, resolver, causal)
    ensures forall f: FieldName :: !IsArray(f) ==> ScalarSupported(s, f, resolver.value)
    ensures forall f: FieldName, i: nat :: IsArray(f) ==> ItemSupported(s, f, i, resolver.value)
    ensures forall f: FieldName :: IsPlan(f) ==> ReasonSupported(s, f, resolver.value)
    ensures causal.Some? && causal.value.hash == Some(ContentHash(s.candidate.decision))
  {
    forall f: FieldName
      ensures FieldComplete(s.candidate.content, f) && (IsPlan(f) ==> PlanComplete(s.candidate.content, f))
    {
      EveryFieldListed(f);
      EveryPlanListed(f);
    }
    forall f: FieldName | !IsArray(f)
      ensures ScalarSupported(s, f, resolver.value)
    {
      assert FieldComplete(s.candidate.content, f) && NeedAt(s.candidate.content, At(f)).Some?;
    }
    forall f: FieldName, i: nat | IsArray(f)
      ensures ItemSupported(s, f, i, resolver.value)
    {
      assert FieldComplete(s.candidate.content, f);
      if i < |ReadArray(s.candidate.content, f).value| {
        assert NeedAt(s.candidate.content, Item(f, i)).Some?;
      }
    }
    forall f: FieldName | IsPlan(f)
      ensures ReasonSupported(s, f, resolver.value)
    {
      assert PlanComplete(s.candidate.content, f);
      if s.candidate.content.plans[f].values == [] {
        assert NeedAt(s.candidate.content, ReasonOf(f)).Some?;
      }
    }
  }

  /**
   In a ready contract every candidate that affects the chapter stands in a field it depends on, and all
   evidence of that field, at least one reference, asserts the candidate's very text.
   */
  lemma AffectingCandidatesAreEvidenced(s: Subject, resolver: Option<Resolver>, causal: Option<CausalResult>,
                                        r: Resolution)
    requires Ready(s, resolver, causal) && r in s.candidate.resolutions
    ensures !r.impact.Undetermined? && DecisionValid(s.candidate.content, r)
    ensures r.impact.Yes? ==>
              r.proposed.Some?
              && exists place <- r.inputs ::
                   SupportedAt(EntriesAt(s.bindings.value, place), place, Need(Intent, Some(Text(r.proposed.value))),
                               resolver.value)
  {
    var c := s.candidate.content;
    SettledIsIncluded(c, r);
    if r.impact.Yes? {
      var place :| place in r.inputs && Resolvable(c, place) && ScalarAt(c, place).SameAs(Str(r.proposed.value));
      assert NeedAt(c, place) == Some(Need(Intent, Some(Text(r.proposed.value))));
    }
  }
}
