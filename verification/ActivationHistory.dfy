/** Every current pointer was put there by gates that all passed, and what each of them therefore binds. */
module ActivationHistory {
  import opened Wrappers
  import opened Durability
  import opened Decisions
  import opened Lifecycle
  import opened LifecycleRuns
  import opened LifecycleFrames
  import opened PreflightVerdict
  import Approval
  import DecisionEvidence
  import Leaves
  import RecordStore
  import Review
  import ReviewGate
  import Text

  /** The gates all passed for this pointer, with the records `e` and the sources of `a`. */
  ghost predicate Vetted(pointer: Pointer, a: Activation, e: RecordStore.Exact) {
    && ExactRecords(a) == Success(Some(e)) && pointer == PointerFor(a, e)
    && NothingRejected(e.approval) && a.actor == e.approval.full.approvedBy
    && GateReady(a, e) && a.sources.resolve && a.sources.ready(pointer.contentHash.decision)
  }

  function ActivationsOf(call: Call): seq<Activation> {
    match call
    case Activate(a, _) => [a]
    case SwitchTo(s, _) => [s.activation]
    case _ => []
  }

  /** One of these calls activated or switched with these records and sources. */
  ghost predicate WasVetted(pointer: Pointer, calls: seq<Call>) {
    exists call, a, e :: call in calls && a in ActivationsOf(call) && Vetted(pointer, a, e)
  }

  lemma PreparedIsVetted(p: Project, a: Activation, required: seq<Approval.Item>, call: Call, calls: seq<Call>)
    requires PreparePointer(p, a, required).Success? && call in calls && a in ActivationsOf(call)
    ensures WasVetted(PreparePointer(p, a, required).value, calls)
  {
    assert Vetted(PreparePointer(p, a, required).value, a, ExactRecords(a).value.value);
  }

  ghost predicate AllVetted(p: Project, calls: seq<Call>) {
    forall c :: c in p.pointers ==> WasVetted(p.pointers[c], calls)
  }

  lemma OnlyPreparedStaysVetted(p: Project, q: Project, a: Activation, required: seq<Approval.Item>,
                                call: Call, calls: seq<Call>)
    requires AllVetted(p, calls) && (q == p || OnlyPrepared(p, q, a, required))
    requires call in calls && a in ActivationsOf(call)
    ensures AllVetted(q, calls)
  {
    forall c | c in q.pointers
      ensures WasVetted(q.pointers[c], calls)
    {
      if c in p.pointers && q.pointers[c] == p.pointers[c] {
        assert WasVetted(p.pointers[c], calls);
      } else {
        PreparedIsVetted(p, a, required, call, calls);
      }
    }
  }

  lemma SamePointersStayVetted(p: Project, q: Project, calls: seq<Call>)
    requires AllVetted(p, calls) && q.pointers == p.pointers
    ensures AllVetted(q, calls)
  {
  }

  lemma ActivationStaysVetted(p: Project, a: Activation, n: nat, calls: seq<Call>)
    requires AllVetted(p, calls) && Call.Activate(a, n) in calls
    ensures AllVetted(After(p, ActivateInitial(p, a).steps, n), calls)
  {
    ActivationWritesPrepared(p, a, n);
    OnlyPreparedStaysVetted(p, After(p, ActivateInitial(p, a).steps, n), a, [], Call.Activate(a, n), calls);
  }

  function RequiredFor(p: Project, k: Key): seq<Approval.Item> {
    if k in p.authorities then p.authorities[k].required else []
  }

  lemma SwitchStaysVetted(p: Project, s: Switch, n: nat, calls: seq<Call>)
    requires AllVetted(p, calls) && Call.SwitchTo(s, n) in calls
    ensures AllVetted(After(p, SwitchReplacement(p, s).steps, n), calls)
  {
    var q, required := After(p, SwitchReplacement(p, s).steps, n), RequiredFor(p, s.activation.key);
    SwitchWritesPrepared(p, s, n);
    OnlyPreparedStaysVetted(p, q, s.activation, required, Call.SwitchTo(s, n), calls);
  }

  lemma InitialStaysVetted(p: Project, decision: NarrativeDecision, evidence: seq<string>, n: nat, calls: seq<Call>)
    requires AllVetted(p, calls)
    ensures AllVetted(After(p, CreateInitial(p, decision, evidence).steps, n), calls)
  {
    var q := After(p, CreateInitial(p, decision, evidence).steps, n);
    InitialWritesNoPointer(p, decision, evidence, n);
    SamePointersStayVetted(p, q, calls);
  }

  lemma ReplacementStaysVetted(p: Project, r: Replacement, n: nat, calls: seq<Call>)
    requires Inv(p) && AllVetted(p, calls)
    ensures AllVetted(After(p, CreateReplacement(p, r).steps, n), calls)
  {
    CreateReplacementKeeps(p, r, n);
    SamePointersStayVetted(p, After(p, CreateReplacement(p, r).steps, n), calls);
  }

  lemma CallStaysVetted(p: Project, call: Call, calls: seq<Call>)
    requires Inv(p) && AllVetted(p, calls) && call in calls
    ensures AllVetted(Perform(p, call), calls)
  {
    match call
    case Initial(decision, evidence, n) => InitialStaysVetted(p, decision, evidence, n, calls);
    case Activate(a, n) => ActivationStaysVetted(p, a, n, calls);
    case Replace(r, n) => ReplacementStaysVetted(p, r, n, calls);
    case SwitchTo(s, n) => SwitchStaysVetted(p, s, n, calls);
  }

  lemma {:induction false} RunStaysVetted(p: Project, calls: seq<Call>, all: seq<Call>)
    requires Inv(p) && AllVetted(p, all) && forall call <- calls :: call in all
    ensures Inv(Run(p, calls)) && AllVetted(Run(p, calls), all)
    decreases |calls|
  {
    if calls != [] {
      CallKeeps(p, calls[0]);
      CallStaysVetted(p, calls[0], all);
      RunStaysVetted(Perform(p, calls[0]), calls[1..], all);
    }
  }

  /** In every reachable project all gates had passed for each current pointer, in one of the calls made. */
  lemma CurrentWasVetted(calls: seq<Call>, c: string)
    requires c in Run(EMPTY, calls).pointers
    ensures WasVetted(Run(EMPTY, calls).pointers[c], calls)
  {
    EmptyKeepsInv();
    RunStaysVetted(EMPTY, calls, calls);
  }

  // ----- The review bound by a current pointer -----

  /**
   One of the bound dispositions is a human decision on the issue: it names the bound result by id and hash and
   the issue by id, hash, code, field path and evidence hash, and no system actor made it.
   */
  ghost predicate Settled(pointer: Pointer, issue: Review.Issue) {
    exists id, d :: (id, RecordStore.PayloadHash(d)) in pointer.dispositions.entries
      && d.resultId == pointer.review.body.resultId && d.resultHash == pointer.review
      && d.issueId == issue.id && d.issueHash == issue.hash && d.issueCode == issue.code
      && d.fieldPath == issue.fieldPath && d.evidenceHash == issue.evidenceHash
      && (d.status == "accepted" || d.status == "resolved")
      && !Text.Blank(d.actor) && Text.Fold(Text.Strip(d.actor)) !in ReviewGate.SYSTEM_ACTORS
  }

  /** The reviewer result that the pointer binds is about its content, and nothing in it is open. */
  ghost predicate ReviewSettled(pointer: Pointer) {
    && AboutVersion(pointer)
    && (forall issue <- pointer.review.body.issues :: issue.severity != Review.High)
    && (forall issue <- pointer.review.body.issues | issue.blocking || issue.requiresHuman :: Settled(pointer, issue))
  }

  /** The part of the gates that looks at the review. */
  ghost predicate ReviewVetted(pointer: Pointer, review: Review.ReviewerResult, ds: seq<Review.Disposition>) {
    && review == Review.ReviewerResult(pointer.review.body, pointer.review) && ReviewGate.Passes(review, ds)
    && (forall d <- ds :: exists id :: (id, RecordStore.PayloadHash(d)) in pointer.dispositions.entries)
    && AboutVersion(pointer)
  }

  predicate AboutVersion(pointer: Pointer) {
    var body := pointer.review.body;
    && body.contractId == pointer.key.contractId && body.contractVersion == pointer.key.version
    && body.contractHash == pointer.contentHash && body.baseline == pointer.baseline && body.ruleset == pointer.ruleset
  }

  lemma VettedReview(pointer: Pointer, a: Activation, e: RecordStore.Exact)
    requires Vetted(pointer, a, e)
    ensures ReviewVetted(pointer, e.review, DispositionsOf(e))
  {
    var ds := DispositionsOf(e);
    forall d <- ds
      ensures exists id :: (id, RecordStore.PayloadHash(d)) in pointer.dispositions.entries
    {
      var i :| 0 <= i < |ds| && ds[i] == d;
      assert e.dispositions[i] in e.dispositions;
      assert (e.dispositions[i].0, RecordStore.PayloadHash(d)) in pointer.dispositions.entries;
    }
  }

  lemma IssueIsSettled(pointer: Pointer, review: Review.ReviewerResult, ds: seq<Review.Disposition>,
                       issue: Review.Issue)
    requires ReviewVetted(pointer, review, ds) && issue in pointer.review.body.issues
    ensures issue.severity != Review.High
    ensures issue.blocking || issue.requiresHuman ==> Settled(pointer, issue)
  {
    ReviewGate.PassesMeans(review, ds, issue);
    if issue.blocking || issue.requiresHuman {
      ReviewGate.OpenIssueBlocks(review, ds, issue);
      var d :| d in ds && ReviewGate.SpeaksAbout(d, review, issue) && (d.status == "accepted" || d.status == "resolved")
               && !Text.Blank(d.actor) && Text.Fold(Text.Strip(d.actor)) !in ReviewGate.SYSTEM_ACTORS;
      var id :| (id, RecordStore.PayloadHash(d)) in pointer.dispositions.entries;
    }
  }

  lemma VettedIsSettled(pointer: Pointer, a: Activation, e: RecordStore.Exact)
    requires Vetted(pointer, a, e)
    ensures ReviewSettled(pointer)
  {
    VettedReview(pointer, a, e);
    forall issue <- pointer.review.body.issues
      ensures issue.severity != Review.High
      ensures issue.blocking || issue.requiresHuman ==> Settled(pointer, issue)
    {
      IssueIsSettled(pointer, e.review, DispositionsOf(e), issue);
    }
  }

  // ----- What the gates knew about the current version -----

  ghost predicate JudgedCall(call: Call) {
    forall a <- ActivationsOf(call) :: exists i :: Judges(i, a.sources.ready)
  }

  /** The verdicts that the calls were made with are those of causal analysis and preflight. */
  ghost predicate Judged(calls: seq<Call>) {
    forall call <- calls :: JudgedCall(call)
  }

  /** Every leaf of the decision that is a causal field or an item of one had evidence that resolved. */
  ghost predicate Evidenced(i: Inputs, d: NarrativeDecision) {
    PassesPreflight(i, d) && (Leaves.WellNamed(d.tree) ==> DecisionEvidence.LeavesEvidenced(d, i.evidence))
  }

  lemma PassingIsEvidenced(i: Inputs, d: NarrativeDecision)
    requires PassesPreflight(i, d)
    ensures Evidenced(i, d)
  {
    if Leaves.WellNamed(d.tree) {
      DecisionEvidence.ReadyLeavesAreEvidenced(d, i.valid(d), i.evidence, Some(AnalysisOf(i, d)));
    }
  }

  /** In this call the decision passed preflight, with evidence for every causal leaf. */
  ghost predicate PassedIn(call: Call, d: NarrativeDecision) {
    exists a, i :: a in ActivationsOf(call) && ContentHash(d) == a.contentHash && Judges(i, a.sources.ready)
      && Evidenced(i, d)
  }

  lemma VettedPassed(pointer: Pointer, call: Call, a: Activation, e: RecordStore.Exact, i: Inputs)
    requires a in ActivationsOf(call) && Vetted(pointer, a, e) && Judges(i, a.sources.ready)
    ensures PassedIn(call, pointer.contentHash.decision)
  {
    PassingIsEvidenced(i, pointer.contentHash.decision);
  }

  /** A vetted pointer has a settled review, and its content passed preflight if the verdicts were really those. */
  lemma VettedIsSound(pointer: Pointer, calls: seq<Call>)
    requires WasVetted(pointer, calls)
    ensures ReviewSettled(pointer)
    ensures Judged(calls) ==> exists call <- calls :: PassedIn(call, pointer.contentHash.decision)
  {
    var call, a, e :| call in calls && a in ActivationsOf(call) && Vetted(pointer, a, e);
    VettedIsSettled(pointer, a, e);
    if Judged(calls) {
      assert JudgedCall(call);
      var i :| Judges(i, a.sources.ready);
      VettedPassed(pointer, call, a, e, i);
    }
  }

  /** The current pointer targets a stored active version with the content it names. */
  lemma CurrentIsStored(p: Project, c: string)
    requires Inv(p) && c in p.pointers
    ensures var pointer := p.pointers[c];
            && pointer.key in p.items && p.items[pointer.key].status.Active?
            && p.items[pointer.key].decision == pointer.contentHash.decision
  {
    assert PointerOk(p, c);
  }

  /**
   Whatever was called and wherever it crashed: the reviewer result bound by a current pointer is about the
   stored current version and leaves nothing open, and its human decisions are the bound ones. If the calls
   were made with the verdicts of causal analysis and preflight, that version passed both in one of them, with
   evidence for every one of its causal leaves.
   */
  lemma CurrentVersionPassedTheGates(calls: seq<Call>, c: string)
    requires c in Run(EMPTY, calls).pointers
    ensures var p := Run(EMPTY, calls);
            var pointer := p.pointers[c];
            && pointer.key in p.items && p.items[pointer.key].status.Active? && ReviewSettled(pointer)
            && (Judged(calls) ==> exists call <- calls :: PassedIn(call, p.items[pointer.key].decision))
  {
    var p := Run(EMPTY, calls);
    EmptyKeepsInv();
    RunsKeepInv(EMPTY, calls);
    CurrentIsStored(p, c);
    CurrentWasVetted(calls, c);
    VettedIsSound(p.pointers[c], calls);
  }
}
