/** What the digests in a pointer and in a revision authority lead back to. */
module PointerRecords {
  import opened Wrappers
  import opened Durability
  import opened Lifecycle
  import opened LifecycleRuns
  import ActivationHistory
  import Approval
  import CandidateRecovery
  import Diffs
  import RecordRecovery
  import RecordStore
  import Review

  /** The store as recovery leaves it, with a listing of all of its files. */
  ghost predicate Recovered(s: Sources) {
    RecordRecovery.Kept(s.records) && RecordRecovery.NonePending(s.records)
    && RecordRecovery.Lists(s.names, s.records)
  }

  /** The two record ids lead to the approval and to the reviewer result whose digests the pointer binds. */
  predicate RecordsAt(pointer: Pointer, d: RecordStore.Disk) {
    && pointer.approvalId in d.records
    && d.records[pointer.approvalId] == RecordStore.ApprovalOf(pointer.approval.approval)
    && pointer.reviewId in d.records
    && d.records[pointer.reviewId] == RecordStore.ReviewOf(Review.ReviewerResult(pointer.review.body, pointer.review))
    && pointer.assets == pointer.review.body.assets
  }

  /** The bound dispositions are exactly the stored ones that name this reviewer result. */
  ghost predicate DispositionsAt(pointer: Pointer, d: RecordStore.Disk) {
    forall id, x :: (id, RecordStore.PayloadHash(x)) in pointer.dispositions.entries <==>
      id in d.records && d.records[id] == RecordStore.DispositionOf(x)
      && x.resultId == pointer.review.body.resultId && x.resultHash == pointer.review
  }

  /** The approval and the review that the pointer binds are about the pointer's version, content and baseline. */
  predicate RecordsAgree(pointer: Pointer) {
    var approval, body := pointer.approval.approval, pointer.review.body;
    && approval.contractId == body.contractId == pointer.key.contractId
    && approval.contractVersion == body.contractVersion == pointer.key.version
    && approval.contractHash == body.contractHash == pointer.contentHash
    && approval.baseline.fingerprint == body.baseline == pointer.baseline
    && body.ruleset == pointer.ruleset
  }

  lemma EntriesOf(a: Activation, e: RecordStore.Exact, id: RecordStore.RecordId, x: Review.Disposition)
    ensures (id, RecordStore.PayloadHash(x)) in PointerFor(a, e).dispositions.entries <==> (id, x) in e.dispositions
  {
    if (id, x) in e.dispositions {
      assert ((id, x).0, RecordStore.PayloadHash((id, x).1)) in PointerFor(a, e).dispositions.entries;
    }
  }

  lemma ExactLeadsBack(a: Activation, e: RecordStore.Exact)
    requires ExactRecords(a) == Success(Some(e)) && Recovered(a.sources)
    requires e.review.hash == Review.ResultHash(e.review.body)
    ensures RecordsAt(PointerFor(a, e), a.sources.records) && DispositionsAt(PointerFor(a, e), a.sources.records)
    ensures RecordsAgree(PointerFor(a, e))
  {
    var q := RecordStore.Query(a.key.contractId, a.key.version, a.contentHash, a.baseline, a.ruleset);
    RecordRecovery.FoundIsExact(a.sources.records, a.sources.names, q);
    forall id, x
      ensures (id, RecordStore.PayloadHash(x)) in PointerFor(a, e).dispositions.entries <==> (id, x) in e.dispositions
    {
      EntriesOf(a, e, id, x);
    }
  }

  /** A pointer that some call vetted leads to the records that the call read. */
  lemma VettedLeadsBack(pointer: Pointer, a: Activation, e: RecordStore.Exact)
    requires ActivationHistory.Vetted(pointer, a, e) && Recovered(a.sources)
    ensures RecordsAt(pointer, a.sources.records) && DispositionsAt(pointer, a.sources.records) && RecordsAgree(pointer)
    ensures pointer.key == a.key && pointer.contentHash == a.contentHash && pointer.baseline == a.baseline
    ensures pointer.ruleset == a.ruleset && a.actor == pointer.approval.approval.full.approvedBy
  {
    ExactLeadsBack(a, e);
  }

  /**
   Whatever was called and wherever it crashed: one of the calls activated exactly what the current pointer
   names, and if it read a recovered record store, the pointer's ids lead to the approval, the reviewer result
   and all of its dispositions there.
   */
  lemma CurrentLeadsToRecords(calls: seq<Call>, c: string)
    requires c in Run(EMPTY, calls).pointers
    ensures var pointer := Run(EMPTY, calls).pointers[c];
            exists call, a | call in calls && a in ActivationHistory.ActivationsOf(call) ::
              && a.key == pointer.key && a.contentHash == pointer.contentHash && a.baseline == pointer.baseline
              && (Recovered(a.sources) ==>
                    && RecordsAt(pointer, a.sources.records) && DispositionsAt(pointer, a.sources.records)
                    && RecordsAgree(pointer))
  {
    var pointer := Run(EMPTY, calls).pointers[c];
    ActivationHistory.CurrentWasVetted(calls, c);
    var call, a, e :| call in calls && a in ActivationHistory.ActivationsOf(call)
                      && ActivationHistory.Vetted(pointer, a, e);
    if Recovered(a.sources) {
      VettedLeadsBack(pointer, a, e);
    }
  }

  // ----- What a revision authority binds -----

  /** The authority carries the request's versions, contents and baselines, its causal paths and change requests. */
  predicate Binds(authority: RevisionAuthority, r: Replacement) {
    && authority.key == Key(r.decision.contractId, r.decision.contractVersion)
    && authority.contentHash.decision == r.decision
    && authority.baseVersion == r.request.baseVersion && authority.baseHash == r.request.baseHash
    && authority.baseBaseline == r.request.baseBaseline
    && authority.replacementBaseline == r.request.replacementBaseline
    && authority.binding.causal == r.causal && authority.binding.requests == r.requests
    && |authority.binding.changes| == |r.request.changes|
    && forall i :: 0 <= i < |r.request.changes| ==> Writes(authority.binding.changes[i], r.request.changes[i])
  }

  /** Path, presence and Python text of both sides. */
  predicate Writes(text: ChangeText, c: Diffs.Change) {
    && text.path == c.path && text.oldPresent == c.oldPresent && text.newPresent == c.newPresent
    && text.oldText == c.oldValue.AsText() && text.newText == c.newValue.AsText()
  }

  lemma AuthorityBinds(r: Replacement)
    ensures Binds(AuthorityFor(r), r)
  {
  }

  /** A successful first call stores the candidate and the authority that binds it to its request. */
  lemma CandidateIsBound(p: Project, r: Replacement)
    requires CandidateRecovery.Untouched(p, KeyOf(r)) && CreateReplacement(p, r).answer.Success?
    ensures var q, k := End(p, CreateReplacement(p, r).steps), Key(r.decision.contractId, r.decision.contractVersion);
            && k in q.authorities && Binds(q.authorities[k], r) && q.pointers == p.pointers
            && k in q.items && q.items[k] == Item(r.decision, r.evidence, ItemStatus.Candidate, None)
  {
    CandidateRecovery.FirstFinishes(p, r);
    AuthorityBinds(r);
  }

  /**
   A switch succeeds only with the authority of its version: the expected pointer is the base that the revision
   started from, with its baseline, and the activation is for the revision's content and its new baseline.
   */
  lemma SwitchNeedsAuthority(p: Project, s: Switch, r: Replacement)
    requires SwitchReplacement(p, s).answer.Success?
    ensures var a, k := s.activation, s.activation.key;
            && k in p.authorities
            && (Binds(p.authorities[k], r) ==>
                  && k == Key(r.decision.contractId, r.decision.contractVersion) && a.contentHash.decision == r.decision
                  && a.baseline == r.request.replacementBaseline && s.expected.baseline == r.request.baseBaseline
                  && s.expected.key.version == r.request.baseVersion && s.expected.contentHash == r.request.baseHash
                  && k.version == s.expected.key.version + 1)
  {
  }
}
