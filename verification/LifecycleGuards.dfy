/** What each coordinator call demands before it writes anything, said about the files and arguments themselves. */
module LifecycleGuards {
  import opened Wrappers
  import opened Text
  import opened Decisions
  import opened Lifecycle
  import opened LifecycleRuns
  import Approval

  /** "narrative-chapter-" and a chapter number of at most three digits. */
  ghost predicate IsContractName(contractId: string) {
    exists n: nat :: 1 <= n <= 999 && contractId == "narrative-chapter-" + Padded(n, 3)
  }

  ghost predicate IsVersionKey(k: Lifecycle.Key) {
    IsContractName(k.contractId) && 1 <= k.version <= 9999
  }

  lemma VersionKeyIff(k: Lifecycle.Key)
    ensures IsContractName(k.contractId) <==> ContractIdIsValid(k.contractId)
    ensures IsVersionKey(k) <==> KeyIsValid(k)
  {
    if n: nat :| 1 <= n <= 999 && k.contractId == "narrative-chapter-" + Padded(n, 3) {
      assert ContractIdIsValid(k.contractId);
    }
  }

  // ----- The stored pointer -----

  /** The target is stored under the pointer's key, active, and has the contract, version and content it names. */
  predicate TargetFits(p: Project, contractId: string, pointer: Pointer) {
    && pointer.key in p.items && p.items[pointer.key].status == Active
    && pointer.key.contractId == contractId == p.items[pointer.key].decision.contractId
    && pointer.key.version == p.items[pointer.key].decision.contractVersion
    && pointer.contentHash.decision == p.items[pointer.key].decision
  }

  lemma TargetFitsIff(p: Project, contractId: string, pointer: Pointer)
    ensures TargetFits(p, contractId, pointer) <==> TargetError(p, contractId, pointer).None?
  {
  }

  /** Reading a pointer gives it back exactly if its target fits. */
  lemma ReadIffFits(p: Project, c: string)
    ensures c !in p.pointers ==> ReadPointer(p, c) == Success(None)
    ensures c in p.pointers ==> (ReadPointer(p, c) == Success(Some(p.pointers[c])) <==> TargetFits(p, c, p.pointers[c]))
    ensures c in p.pointers && !TargetFits(p, c, p.pointers[c]) ==> ReadPointer(p, c).Failure?
  {
    if c in p.pointers {
      TargetFitsIff(p, c, p.pointers[c]);
    }
  }

  /** Whatever was called and wherever it crashed: each pointer's target fits. */
  lemma CurrentTargetFits(calls: seq<Call>, c: string)
    requires c in Run(EMPTY, calls).pointers
    ensures TargetFits(Run(EMPTY, calls), c, Run(EMPTY, calls).pointers[c])
  {
    EmptyKeepsInv();
    RunsKeepInv(EMPTY, calls);
    assert PointerOk(Run(EMPTY, calls), c);
    TargetFitsIff(Run(EMPTY, calls), c, Run(EMPTY, calls).pointers[c]);
  }

  // ----- The gates -----

  /** The stored version may be activated: it is what the call names, not archived, and ready. */
  predicate VersionFits(p: Project, a: Activation) {
    && a.key in p.items && p.items[a.key].status != Archived
    && p.items[a.key].decision.contractId == a.key.contractId
    && p.items[a.key].decision.contractVersion == a.key.version
    && p.items[a.key].decision == a.contentHash.decision && a.sources.ready(p.items[a.key].decision)
  }

  lemma PreparedFits(p: Project, a: Activation, required: seq<Approval.Item>)
    requires PreparePointer(p, a, required).Success?
    ensures VersionFits(p, a) && a.sources.resolve
    ensures ExactRecords(a).Success? && ExactRecords(a).value.Some?
    ensures a.actor == ExactRecords(a).value.value.approval.full.approvedBy
  {
  }

  /** A first activation that is answered with a pointer, or writes anything, is for a fitting version 1. */
  lemma FirstActivationFits(p: Project, a: Activation)
    requires ActivateInitial(p, a).answer.Success? || ActivateInitial(p, a).steps != []
    ensures a.key.version == 1 && VersionFits(p, a) && a.sources.resolve
    ensures ExactRecords(a).Success? && ExactRecords(a).value.Some?
    ensures a.actor == ExactRecords(a).value.value.approval.full.approvedBy
    ensures a.key.contractId in p.pointers ==> TargetFits(p, a.key.contractId, p.pointers[a.key.contractId])
  {
    PreparedFits(p, a, []);
    ReadIffFits(p, a.key.contractId);
  }

  // ----- The first candidate -----

  /** Creating version 1 answers the decision as a candidate; what was stored before is not overwritten. */
  lemma InitialAnswers(p: Project, decision: NarrativeDecision, evidence: seq<string>)
    ensures var op, k := CreateInitial(p, decision, evidence), Lifecycle.Key(decision.contractId, 1);
            && (op.answer.Success? ==>
                  && IsVersionKey(k) && decision.contractVersion == 1 && decision.chapter > 0
                  && decision.contractId == "narrative-chapter-" + Padded(decision.chapter, 3)
                  && decision.chapterId == "chapter_" + Padded(decision.chapter, 3)
                  && op.answer.value.decision == decision && op.answer.value.status == Candidate)
            && (op.answer.Failure? || k in p.items ==> op.steps == [])
            && (op.answer.Success? && k !in p.items ==>
                  && op.answer.value == Item(decision, evidence, Candidate, None)
                  && op.steps == [p.(items := p.items[k := op.answer.value])])
  {
    VersionKeyIff(Lifecycle.Key(decision.contractId, decision.contractVersion));
  }

  // ----- The switch -----

  /** The authority of the version lists the standing approvals, in the fixed order. */
  predicate ListsStandingItems(authority: RevisionAuthority) {
    && Approval.FullContract in authority.required && Approval.PostFreezeRevision in authority.required
    && Approval.InFixedOrder(authority.required)
  }

  lemma ValidListsItems(authority: RevisionAuthority, k: Lifecycle.Key, hash: ContentHash)
    requires AuthorityIsValid(authority, k, hash)
    ensures ListsStandingItems(authority)
  {
    Approval.OrderedIsInOrder(set item <- authority.required);
  }

  /** Compare and swap: the first call finds the expected pointer, a repeated one the journal that began with it. */
  predicate Compares(p: Project, s: Switch) {
    var k := s.activation.key;
    if k in p.switches then
      && p.switches[k].oldPointer == s.expected && p.switches[k].newPointer.key.version == k.version
      && p.switches[k].newPointer.contentHash == s.activation.contentHash
    else
      && k.contractId in p.pointers && p.pointers[k.contractId] == s.expected
      && TargetFits(p, k.contractId, s.expected) && k.version == s.expected.key.version + 1
  }

  /** A switch that succeeds or writes anything has compared the pointer and passed every gate. */
  lemma SwitchDemands(p: Project, s: Switch)
    requires SwitchReplacement(p, s).answer.Success? || SwitchReplacement(p, s).steps != []
    ensures var k := s.activation.key;
            && IsVersionKey(k) && k.version >= 2 && k in p.authorities && p.authorities[k].key == k
            && p.authorities[k].contentHash == s.activation.contentHash && ListsStandingItems(p.authorities[k])
            && Compares(p, s) && VersionFits(p, s.activation) && s.activation.sources.resolve
            && PreparePointer(p, s.activation, p.authorities[k].required).Success?
            && (k in p.switches ==>
                  PreparePointer(p, s.activation, p.authorities[k].required).value == p.switches[k].newPointer)
  {
    var k := s.activation.key;
    VersionKeyIff(k);
    ReadIffFits(p, k.contractId);
    ValidListsItems(p.authorities[k], k, s.activation.contentHash);
    PreparedFits(p, s.activation, p.authorities[k].required);
  }

  // ----- The replacement candidate -----

  lemma NotRefused(p: Project, r: Replacement, pointer: Pointer)
    requires pointer.key in p.items && RevisionRefusal(p, r, pointer).None?
    ensures KeyIsValid(KeyOf(r)) && KeyOf(r).version == pointer.key.version + 1
    ensures r.request.contractId == KeyOf(r).contractId && r.request.replacementVersion == KeyOf(r).version
    ensures r.request.replacementHash == ContentHash(r.decision)
    ensures r.request.baseHash == ContentHash(p.items[pointer.key].decision)
  {
  }

  lemma ReplacementGates(p: Project, r: Replacement)
    requires CreateReplacement(p, r).answer.Success? || CreateReplacement(p, r).steps != []
    ensures var current := ReadPointer(p, KeyOf(r).contractId);
            current.Success? && current.value.Some? && RevisionRefusal(p, r, current.value.value).None?
  {
  }

  /** A replacement that succeeds or writes anything goes one version on from a current pointer whose target fits. */
  lemma ReplacementDemands(p: Project, r: Replacement)
    requires CreateReplacement(p, r).answer.Success? || CreateReplacement(p, r).steps != []
    ensures var c := r.decision.contractId;
            && IsVersionKey(Lifecycle.Key(c, r.decision.contractVersion)) && c in p.pointers
            && TargetFits(p, c, p.pointers[c]) && r.decision.contractVersion == p.pointers[c].key.version + 1
            && r.request.contractId == c && r.request.replacementVersion == r.decision.contractVersion
            && r.request.replacementHash.decision == r.decision
            && r.request.baseHash.decision == p.items[p.pointers[c].key].decision
  {
    VersionKeyIff(KeyOf(r));
    ReadIffFits(p, KeyOf(r).contractId);
    ReplacementGates(p, r);
    NotRefused(p, r, p.pointers[KeyOf(r).contractId]);
  }
}
