/** The gate that only a fully approved contract passes, read off the seven decisions of the approval record. */
module ApprovalGate {
  import opened Wrappers
  import opened Lifecycle
  import opened LifecycleRuns
  import ActivationHistory
  import Approval
  import RecordStore

  /** The full contract is approved and each other decision is either approved or declared not applicable. */
  predicate FullyApproved(a: Approval.ApprovalRecord) {
    && a.full.status == Approval.Approved
    && a.major.status in {Approval.Approved, Approval.NotApplicable}
    && a.information.status in {Approval.Approved, Approval.NotApplicable}
    && a.foreshadow.status in {Approval.Approved, Approval.NotApplicable}
    && a.facts.status in {Approval.Approved, Approval.NotApplicable}
    && a.outline.status in {Approval.Approved, Approval.NotApplicable}
    && a.revision.status in {Approval.Approved, Approval.NotApplicable}
  }

  lemma EachItem(a: Approval.ApprovalRecord)
    ensures (forall item <- Approval.ITEMS :: !a.Of(item).status.Rejected?) <==>
            forall item: Approval.Item :: !a.Of(item).status.Rejected?
  {
    forall item: Approval.Item
      ensures item in Approval.ITEMS
    {
      Approval.EveryItemListed(item);
    }
  }

  lemma NoneRejected(a: Approval.ApprovalRecord)
    ensures (forall item: Approval.Item :: !a.Of(item).status.Rejected?) <==>
            && !a.full.status.Rejected? && !a.major.status.Rejected? && !a.information.status.Rejected?
            && !a.foreshadow.status.Rejected? && !a.facts.status.Rejected? && !a.outline.status.Rejected?
            && !a.revision.status.Rejected?
  {
    assert a.Of(Approval.FullContract) == a.full && a.Of(Approval.MajorChoice) == a.major;
    assert a.Of(Approval.InformationReveal) == a.information && a.Of(Approval.ForeshadowPayoff) == a.foreshadow;
    assert a.Of(Approval.NewFacts) == a.facts && a.Of(Approval.OutlineChange) == a.outline;
    assert a.Of(Approval.PostFreezeRevision) == a.revision;
  }

  lemma GateIff(a: Approval.ApprovalRecord)
    ensures NothingRejected(a) <==> FullyApproved(a)
  {
    EachItem(a);
    NoneRejected(a);
  }

  /** Whatever was called and wherever it crashed: only a fully approved contract is current, at any version. */
  lemma OnlyApprovedBecomesCurrent(calls: seq<Call>, c: string)
    requires c in Run(EMPTY, calls).pointers
    ensures FullyApproved(Run(EMPTY, calls).pointers[c].approval.approval)
  {
    var pointer := Run(EMPTY, calls).pointers[c];
    ActivationHistory.CurrentWasVetted(calls, c);
    var call, a, e :| call in calls && a in ActivationHistory.ActivationsOf(call)
                      && ActivationHistory.Vetted(pointer, a, e);
    GateIff(e.approval);
  }

  lemma UnapprovedIsNotPrepared(p: Project, a: Activation, e: RecordStore.Exact, required: seq<Approval.Item>)
    requires ExactRecords(a) == Success(Some(e)) && !FullyApproved(e.approval)
    ensures PreparePointer(p, a, required) == Failure(NotApproved)
  {
    GateIff(e.approval);
  }

  /**
   A contract whose approval record rejects it, or rejects one of its items, is neither activated first nor
   switched to, and the attempt writes nothing. First activation names the reason.
   */
  lemma UnapprovedIsRefused(p: Project, s: Switch, e: RecordStore.Exact)
    requires ExactRecords(s.activation) == Success(Some(e)) && !FullyApproved(e.approval)
    ensures ActivateInitial(p, s.activation) ==
            Operation([], Failure(if s.activation.key.version == 1 then NotApproved else InitialVersionMustBeOne))
    ensures SwitchReplacement(p, s).steps == [] && SwitchReplacement(p, s).answer.Failure?
  {
    UnapprovedIsNotPrepared(p, s.activation, e, []);
    if AuthorityError(p, s).None? {
      UnapprovedIsNotPrepared(p, s.activation, e, p.authorities[s.activation.key].required);
    }
  }
}
