/** What one temporary authority file that a crash left behind does to its contract. */
module StagedAuthority {
  import opened Wrappers
  import opened Durability
  import opened Lifecycle
  import opened LifecycleRuns
  import opened LifecycleFrames
  import CandidateRecovery

  /** The authority file of this version exists only under its temporary name. */
  predicate Stuck(p: Project, k: Key) {
    k in p.staged && k !in p.authorities
  }

  ghost predicate AllStuck(steps: seq<Project>, k: Key) {
    forall i :: 0 <= i < |steps| ==> Stuck(steps[i], k)
  }

  lemma StuckAfter(p: Project, steps: seq<Project>, k: Key, n: nat)
    requires Stuck(p, k) && AllStuck(steps, k)
    ensures Stuck(After(p, steps, n), k)
  {
  }

  lemma StuckThen(first: seq<Project>, rest: seq<Project>, k: Key)
    requires AllStuck(first, k) && AllStuck(rest, k)
    ensures AllStuck(first + rest, k)
  {
  }

  // ----- Creating candidates -----

  lemma StoreCandidateStuck(p: Project, r: Replacement, k: Key)
    requires Stuck(p, k)
    ensures AllStuck(StoreCandidate(p, r).steps, k)
  {
  }

  lemma RecordAuthorityStuck(p: Project, r: Replacement, k: Key)
    requires Stuck(p, k)
    ensures AllStuck(RecordAuthority(p, r).steps, k)
  {
    var recorded := WritePrepare(p, KeyOf(r), PrepareAt(r, AuthorityWritten));
    if recorded.answer.Success? {
      var mid := End(p, recorded.steps);
      StoreCandidateStuck(mid, r, k);
      StuckThen(recorded.steps, StoreCandidate(mid, r).steps, k);
    }
  }

  lemma StoreAuthorityStuck(p: Project, r: Replacement, k: Key)
    requires Stuck(p, k)
    ensures AllStuck(StoreAuthority(p, r).steps, k)
    ensures KeyOf(r) == k ==> StoreAuthority(p, r).answer == Failure(StagedFileExists)
  {
    var written := WriteAuthority(p, AuthorityFor(r));
    if written.answer.Success? {
      var mid := End(p, written.steps);
      assert AllStuck(written.steps, k);
      RecordAuthorityStuck(mid, r, k);
      StuckThen(written.steps, RecordAuthority(mid, r).steps, k);
    }
  }

  lemma PrepareCandidateStuck(p: Project, r: Replacement, k: Key)
    requires Stuck(p, k)
    ensures AllStuck(PrepareCandidate(p, r).steps, k)
    ensures KeyOf(r) == k ==> PrepareCandidate(p, r).answer.Failure?
  {
    var prepared := WritePrepare(p, KeyOf(r), PrepareAt(r, PreparePrepared));
    if prepared.answer.Success? {
      var mid := End(p, prepared.steps);
      assert AllStuck(prepared.steps, k);
      StoreAuthorityStuck(mid, r, k);
      StuckThen(prepared.steps, StoreAuthority(mid, r).steps, k);
    }
  }

  lemma CreateReplacementStuck(p: Project, r: Replacement, k: Key)
    requires Stuck(p, k)
    ensures AllStuck(CreateReplacement(p, r).steps, k)
    ensures KeyOf(r) == k ==> CreateReplacement(p, r).answer.Failure?
  {
    PrepareCandidateStuck(p, r, k);
  }

  // ----- Every call -----

  lemma CallStaysStuck(p: Project, call: Call, k: Key)
    requires Stuck(p, k)
    ensures Stuck(Perform(p, call), k)
  {
    match call
    case Initial(decision, evidence, n) =>
    case Activate(a, n) =>
      ActivationWritesPrepared(p, a, n);
    case Replace(r, n) =>
      CreateReplacementStuck(p, r, k);
      StuckAfter(p, CreateReplacement(p, r).steps, k, n);
    case SwitchTo(s, n) =>
      SwitchWritesPrepared(p, s, n);
  }

  lemma NeverCurrent(p: Project, k: Key, c: string)
    requires Inv(p) && Stuck(p, k) && k.version >= 2 && c in p.pointers
    ensures p.pointers[c].key != k
  {
    assert RevisedOk(p, c);
  }

  /** The contract's pointer stands one version below the stuck one. */
  predicate StandsBelow(p: Project, k: Key) {
    k.contractId in p.pointers && p.pointers[k.contractId].key.version + 1 == k.version
  }

  /** No call moves the pointer of a contract whose next version is stuck. */
  lemma {:induction false} RunStaysStuck(p: Project, calls: seq<Call>, k: Key)
    requires Inv(p) && Stuck(p, k) && k.version >= 2 && StandsBelow(p, k)
    ensures var q := Run(p, calls);
            Inv(q) && Stuck(q, k) && k.contractId in q.pointers && q.pointers[k.contractId] == p.pointers[k.contractId]
    decreases |calls|
  {
    if calls != [] {
      var next := Perform(p, calls[0]);
      CallKeeps(p, calls[0]);
      CallStaysStuck(p, calls[0], k);
      assert PointerMove(p, next, k.contractId);
      if next.pointers[k.contractId] != p.pointers[k.contractId] {
        NeverCurrent(next, k, k.contractId);
        assert false;
      }
      RunStaysStuck(next, calls[1..], k);
    }
  }

  lemma RefusedWhileStuck(p: Project, s: Switch)
    requires Stuck(p, s.activation.key)
    ensures SwitchReplacement(p, s).answer.Failure? && SwitchReplacement(p, s).steps == []
  {
  }

  lemma CrashBehindStaging(p: Project, r: Replacement)
    requires CandidateRecovery.Untouched(p, KeyOf(r)) && CreateReplacement(p, r).answer.Success?
    ensures var q := After(p, CreateReplacement(p, r).steps, 2);
            Stuck(q, KeyOf(r)) && q.pointers == p.pointers && StandsBelow(p, KeyOf(r))
  {
    CandidateRecovery.FirstCall(p, r);
    CandidateRecovery.GatesPassed(p, r);
    var t := CandidateRecovery.STARTED.(staged := true);
    assert CandidateRecovery.AuthorityPath(CandidateRecovery.STARTED)[0] == t;
  }

  /**
   A crash right after the exclusive creation of the temporary authority file freezes the contract: whatever
   is called afterwards, fresh or repeated, and wherever it crashes, the pointer stays where it is, no candidate
   for the next version is created, and no switch to it succeeds.
   */
  lemma StagedFileFreezesContract(p: Project, r: Replacement, calls: seq<Call>)
    requires Inv(p) && CandidateRecovery.Untouched(p, KeyOf(r)) && CreateReplacement(p, r).answer.Success?
    ensures var q, k := Run(After(p, CreateReplacement(p, r).steps, 2), calls), KeyOf(r);
            && k.contractId in p.pointers && k.contractId in q.pointers
            && q.pointers[k.contractId] == p.pointers[k.contractId]
            && (forall again: Replacement :: KeyOf(again) == k ==> CreateReplacement(q, again).answer.Failure?)
            && (forall s: Switch :: s.activation.key == k ==> SwitchReplacement(q, s).answer.Failure?)
  {
    var crashed, k := After(p, CreateReplacement(p, r).steps, 2), KeyOf(r);
    CrashBehindStaging(p, r);
    CreateReplacementKeeps(p, r, 2);
    assert PointerOk(p, k.contractId);
    RunStaysStuck(crashed, calls, k);
    var q := Run(crashed, calls);
    forall again: Replacement | KeyOf(again) == k
      ensures CreateReplacement(q, again).answer.Failure?
    {
      CreateReplacementStuck(q, again, k);
    }
    forall s: Switch | s.activation.key == k
      ensures SwitchReplacement(q, s).answer.Failure?
    {
      RefusedWhileStuck(q, s);
    }
  }
}
