/** Creating the candidate of the next version again after crashes, and the one crash it does not survive. */
module CandidateRecovery {
  import opened Wrappers
  import opened Durability
  import opened Lifecycle

  /** Which files of one replacement are written, and what its prepare journal says. */
  datatype Progress = Progress(staged: bool, authority: bool, item: bool, stage: PrepareStage)

  predicate InOrder(t: Progress) {
    && (t.staged ==> !t.authority) && (t.item ==> t.authority)
    && (t.stage.AuthorityWritten? ==> t.authority) && (t.stage.PrepareCommitted? ==> t.item)
  }

  function RecordPath(t: Progress, stage: PrepareStage): seq<Progress> {
    if t.stage.PrepareCommitted? then [] else [t.(stage := stage)]
  }

  function ItemPath(t: Progress): seq<Progress> {
    var stored := t.(item := true);
    (if t.item then [] else [stored]) + RecordPath(stored, PrepareCommitted)
  }

  function RecordedPath(t: Progress): seq<Progress> {
    RecordPath(t, AuthorityWritten) + ItemPath(End(t, RecordPath(t, AuthorityWritten)))
  }

  /** A temporary authority file that is still there stops the call. */
  function AuthorityPath(t: Progress): seq<Progress> {
    if t.authority then RecordedPath(t)
    else if t.staged then []
    else [t.(staged := true), t.(authority := true)] + RecordedPath(t.(authority := true))
  }

  function Path(t: Progress): seq<Progress> {
    RecordPath(t, PreparePrepared) + AuthorityPath(End(t, RecordPath(t, PreparePrepared)))
  }

  const FINISHED := Progress(false, true, true, PrepareCommitted)

  lemma ItemProgress(t: Progress, k: nat)
    requires InOrder(t) && t.authority
    ensures var next := After(t, ItemPath(t), k);
            InOrder(next) && next.authority && (k >= |ItemPath(t)| ==> next == FINISHED)
  {
  }

  lemma RecordedProgress(t: Progress, k: nat)
    requires InOrder(t) && t.authority
    ensures var next := After(t, RecordedPath(t), k);
            InOrder(next) && next.authority && (k >= |RecordedPath(t)| ==> next == FINISHED)
  {
    var first := RecordPath(t, AuthorityWritten);
    AfterConcat(t, first, ItemPath(End(t, first)), k);
    ItemProgress(End(t, first), if k <= |first| then 0 else k - |first|);
    ItemProgress(End(t, first), 0);
  }

  lemma AuthorityProgress(t: Progress, k: nat)
    requires InOrder(t)
    ensures var next := After(t, AuthorityPath(t), k);
            && InOrder(next) && (t.staged ==> next == t)
            && (!t.staged && k >= |AuthorityPath(t)| ==> next == FINISHED)
  {
    if t.authority {
      RecordedProgress(t, k);
    } else if !t.staged {
      var written := t.(authority := true);
      AfterConcat(t, [t.(staged := true), written], RecordedPath(written), k);
      RecordedProgress(written, if k <= 2 then 0 else k - 2);
    }
  }

  /** Every state on the way is in order; a temporary file that was left behind is never removed. */
  lemma PathProgress(t: Progress, k: nat)
    requires InOrder(t)
    ensures var next := After(t, Path(t), k);
            && InOrder(next) && (t.staged ==> next.staged)
            && (!t.staged && k >= |Path(t)| ==> next == FINISHED)
  {
    var first := RecordPath(t, PreparePrepared);
    AfterConcat(t, first, AuthorityPath(End(t, first)), k);
    AuthorityProgress(End(t, first), if k <= |first| then 0 else k - |first|);
  }

  // ----- The states of one replacement -----

  function StateAt(p: Project, r: Replacement, t: Progress): Project {
    var k := KeyOf(r);
    p.(prepares := p.prepares[k := PrepareAt(r, t.stage)],
       staged := if t.staged then p.staged + {k} else p.staged,
       authorities := if t.authority then p.authorities[k := AuthorityFor(r)] else p.authorities,
       items := if t.item then p.items[k := CandidateFor(r)] else p.items)
  }

  function StatesAt(p: Project, r: Replacement, path: seq<Progress>): (states: seq<Project>)
    ensures |states| == |path| && forall i :: 0 <= i < |states| ==> states[i] == StateAt(p, r, path[i])
  {
    seq(|path|, i requires 0 <= i < |path| => StateAt(p, r, path[i]))
  }

  lemma StatesConcat(p: Project, r: Replacement, a: seq<Progress>, b: seq<Progress>)
    ensures StatesAt(p, r, a + b) == StatesAt(p, r, a) + StatesAt(p, r, b)
  {
  }

  lemma StatesAfter(p: Project, r: Replacement, t: Progress, path: seq<Progress>, k: nat)
    ensures After(StateAt(p, r, t), StatesAt(p, r, path), k) == StateAt(p, r, After(t, path, k))
  {
  }

  /** Nothing of this version is on disk yet. */
  predicate Untouched(p: Project, k: Key) {
    k !in p.items && k !in p.authorities && k !in p.staged && k !in p.prepares
  }

  lemma RecordAt(p: Project, r: Replacement, t: Progress, stage: PrepareStage)
    ensures WritePrepare(StateAt(p, r, t), KeyOf(r), PrepareAt(r, stage)) ==
            Operation(StatesAt(p, r, RecordPath(t, stage)), Success(()))
    ensures End(StateAt(p, r, t), StatesAt(p, r, RecordPath(t, stage))) == StateAt(p, r, End(t, RecordPath(t, stage)))
  {
    assert WithPrepare(StateAt(p, r, t), KeyOf(r), PrepareAt(r, stage)) == StateAt(p, r, t.(stage := stage));
  }

  lemma CandidateAt(p: Project, r: Replacement, t: Progress)
    requires Untouched(p, KeyOf(r)) && InOrder(t) && t.authority
    ensures StoreCandidate(StateAt(p, r, t), r) == Operation(StatesAt(p, r, ItemPath(t)), Success(CandidateFor(r)))
  {
    var stored := t.(item := true);
    RecordAt(p, r, stored, PrepareCommitted);
    if !t.item {
      assert WithStatus(StateAt(p, r, t), KeyOf(r), CandidateFor(r)) == StateAt(p, r, stored);
      StatesConcat(p, r, [stored], RecordPath(stored, PrepareCommitted));
      assert StatesAt(p, r, [stored]) == [StateAt(p, r, stored)];
    } else {
      assert [] + RecordPath(stored, PrepareCommitted) == RecordPath(stored, PrepareCommitted);
    }
  }

  lemma RecordedAt(p: Project, r: Replacement, t: Progress)
    requires Untouched(p, KeyOf(r)) && InOrder(t) && t.authority
    ensures RecordAuthority(StateAt(p, r, t), r) == Operation(StatesAt(p, r, RecordedPath(t)), Success(CandidateFor(r)))
  {
    var path := RecordPath(t, AuthorityWritten);
    RecordAt(p, r, t, AuthorityWritten);
    CandidateAt(p, r, End(t, path));
    StatesConcat(p, r, path, ItemPath(End(t, path)));
  }

  lemma AuthorityAt(p: Project, r: Replacement, t: Progress)
    requires Untouched(p, KeyOf(r)) && InOrder(t)
    ensures StoreAuthority(StateAt(p, r, t), r) ==
            Operation(StatesAt(p, r, AuthorityPath(t)),
                      if t.staged then Failure(StagedFileExists) else Success(CandidateFor(r)))
  {
    if t.authority {
      RecordedAt(p, r, t);
      assert [] + StatesAt(p, r, RecordedPath(t)) == StatesAt(p, r, RecordedPath(t));
    } else if !t.staged {
      var q, k, staged, written := StateAt(p, r, t), KeyOf(r), t.(staged := true), t.(authority := true);
      assert q.(staged := q.staged + {k}) == StateAt(p, r, staged);
      assert q.(authorities := q.authorities[k := AuthorityFor(r)]) == StateAt(p, r, written);
      RecordedAt(p, r, written);
      StatesConcat(p, r, [staged, written], RecordedPath(written));
      assert StatesAt(p, r, [staged, written]) == [StateAt(p, r, staged), StateAt(p, r, written)];
    }
  }

  lemma PrepareAtStage(p: Project, r: Replacement, t: Progress)
    requires Untouched(p, KeyOf(r)) && InOrder(t)
    ensures PrepareCandidate(StateAt(p, r, t), r) ==
            Operation(StatesAt(p, r, Path(t)), if t.staged then Failure(StagedFileExists) else Success(CandidateFor(r)))
  {
    var path := RecordPath(t, PreparePrepared);
    RecordAt(p, r, t, PreparePrepared);
    AuthorityAt(p, r, End(t, path));
    StatesConcat(p, r, path, AuthorityPath(End(t, path)));
  }

  // ----- Calling it again -----

  const STARTED := Progress(false, false, false, PreparePrepared)

  /** A call that succeeds has passed every gate in front of its first write. */
  lemma GatesPassed(p: Project, r: Replacement)
    requires CreateReplacement(p, r).answer.Success?
    ensures CreateReplacement(p, r) == PrepareCandidate(p, r) && ContractIdIsValid(KeyOf(r).contractId)
    ensures var current := ReadPointer(p, KeyOf(r).contractId);
            && current.Success? && current.value.Some? && RevisionRefusal(p, r, current.value.value).None?
            && KeyOf(r).version == current.value.value.key.version + 1
  {
  }

  /** The gates read the pointer and the version it targets. */
  lemma SameGates(p: Project, q: Project, r: Replacement, pointer: Pointer)
    requires ContractIdIsValid(KeyOf(r).contractId)
    requires ReadPointer(p, KeyOf(r).contractId) == ReadPointer(q, KeyOf(r).contractId) == Success(Some(pointer))
    requires p.items[pointer.key].decision == q.items[pointer.key].decision && RevisionRefusal(p, r, pointer).None?
    ensures CreateReplacement(q, r) == PrepareCandidate(q, r)
  {
  }

  lemma PointerStays(p: Project, r: Replacement, t: Progress)
    requires KeyOf(r) !in p.items && ReadPointer(p, KeyOf(r).contractId).Success?
    ensures ReadPointer(StateAt(p, r, t), KeyOf(r).contractId) == ReadPointer(p, KeyOf(r).contractId)
    ensures forall k <- p.items :: k in StateAt(p, r, t).items && StateAt(p, r, t).items[k] == p.items[k]
  {
  }

  /** The gates in front of the first write answer the same at every stage. */
  lemma GatesStay(p: Project, r: Replacement, t: Progress)
    requires Untouched(p, KeyOf(r)) && CreateReplacement(p, r).answer.Success?
    ensures CreateReplacement(p, r) == PrepareCandidate(p, r)
    ensures CreateReplacement(StateAt(p, r, t), r) == PrepareCandidate(StateAt(p, r, t), r)
  {
    GatesPassed(p, r);
    PointerStays(p, r, t);
    SameGates(p, StateAt(p, r, t), r, ReadPointer(p, KeyOf(r).contractId).value.value);
  }

  lemma FirstPrepare(p: Project, r: Replacement)
    requires Untouched(p, KeyOf(r))
    ensures WritePrepare(p, KeyOf(r), PrepareAt(r, PreparePrepared)) == Operation([StateAt(p, r, STARTED)], Success(()))
  {
    assert WithPrepare(p, KeyOf(r), PrepareAt(r, PreparePrepared)) == StateAt(p, r, STARTED);
  }

  lemma FirstWrites(p: Project, r: Replacement)
    requires Untouched(p, KeyOf(r))
    ensures PrepareCandidate(p, r) ==
            Operation([StateAt(p, r, STARTED)] + StatesAt(p, r, AuthorityPath(STARTED)), Success(CandidateFor(r)))
  {
    AuthorityAt(p, r, STARTED);
    FirstPrepare(p, r);
  }

  lemma FirstCall(p: Project, r: Replacement)
    requires Untouched(p, KeyOf(r)) && CreateReplacement(p, r).answer.Success?
    ensures CreateReplacement(p, r) ==
            Operation([StateAt(p, r, STARTED)] + StatesAt(p, r, AuthorityPath(STARTED)), Success(CandidateFor(r)))
  {
    GatesStay(p, r, STARTED);
    FirstWrites(p, r);
  }

  /** The states of the first call, write by write. */
  lemma FirstStates(p: Project, r: Replacement, k: nat)
    requires 0 < k
    ensures After(p, [StateAt(p, r, STARTED)] + StatesAt(p, r, AuthorityPath(STARTED)), k) ==
            StateAt(p, r, After(STARTED, AuthorityPath(STARTED), k - 1))
  {
    AfterConcat(p, [StateAt(p, r, STARTED)], StatesAt(p, r, AuthorityPath(STARTED)), k);
    StatesAfter(p, r, STARTED, AuthorityPath(STARTED), k - 1);
  }

  lemma FirstAfter(p: Project, r: Replacement, k: nat)
    requires Untouched(p, KeyOf(r)) && CreateReplacement(p, r).answer.Success? && 0 < k
    ensures After(p, CreateReplacement(p, r).steps, k) == StateAt(p, r, After(STARTED, AuthorityPath(STARTED), k - 1))
  {
    FirstCall(p, r);
    FirstStates(p, r, k);
  }

  lemma FirstProgress(k: nat) returns (t: Progress)
    requires 0 < k
    ensures InOrder(t) && t == After(STARTED, AuthorityPath(STARTED), k - 1)
  {
    t := After(STARTED, AuthorityPath(STARTED), k - 1);
    AuthorityProgress(STARTED, k - 1);
  }

  lemma FirstFinishes(p: Project, r: Replacement)
    requires Untouched(p, KeyOf(r)) && CreateReplacement(p, r).answer.Success?
    ensures End(p, CreateReplacement(p, r).steps) == StateAt(p, r, FINISHED)
  {
    var rest := AuthorityPath(STARTED);
    FirstCall(p, r);
    FirstStates(p, r, 1 + |rest|);
    AuthorityProgress(STARTED, |rest|);
  }

  /** The project after one call for every entry of `crashes`, each dying after that many writes. */
  function Retried(p: Project, r: Replacement, crashes: seq<nat>): Project
    decreases |crashes|
  {
    if crashes == [] then p
    else Retried(After(p, CreateReplacement(p, r).steps, crashes[0]), r, crashes[1..])
  }

  lemma {:induction false} RetriesStayOnTheWay(p: Project, r: Replacement, t: Progress, crashes: seq<nat>)
      returns (u: Progress)
    requires Untouched(p, KeyOf(r)) && CreateReplacement(p, r).answer.Success? && InOrder(t)
    ensures InOrder(u) && (t.staged ==> u.staged)
    ensures Retried(StateAt(p, r, t), r, crashes) == StateAt(p, r, u)
    decreases |crashes|
  {
    u := t;
    if crashes != [] {
      GatesStay(p, r, t);
      PrepareAtStage(p, r, t);
      StatesAfter(p, r, t, Path(t), crashes[0]);
      PathProgress(t, crashes[0]);
      u := RetriesStayOnTheWay(p, r, After(t, Path(t), crashes[0]), crashes[1..]);
    }
  }

  lemma FinishedFrom(p: Project, r: Replacement, t: Progress)
    requires Untouched(p, KeyOf(r)) && CreateReplacement(p, r).answer.Success? && InOrder(t)
    ensures var op := CreateReplacement(StateAt(p, r, t), r);
            && (t.staged ==> op.answer == Failure(StagedFileExists))
            && (!t.staged ==> op.answer == Success(CandidateFor(r))
                              && End(StateAt(p, r, t), op.steps) == StateAt(p, r, FINISHED))
    ensures End(p, CreateReplacement(p, r).steps) == StateAt(p, r, FINISHED)
  {
    GatesStay(p, r, t);
    PrepareAtStage(p, r, t);
    PathProgress(t, |Path(t)|);
    StatesAfter(p, r, t, Path(t), |Path(t)|);
    FirstFinishes(p, r);
  }

  lemma FirstCrash(p: Project, r: Replacement, k: nat) returns (t: Progress)
    requires Untouched(p, KeyOf(r)) && CreateReplacement(p, r).answer.Success? && 0 < k
    ensures InOrder(t) && After(p, CreateReplacement(p, r).steps, k) == StateAt(p, r, t)
  {
    t := FirstProgress(k);
    FirstAfter(p, r, k);
  }

  /** From `q` one more call does what an uninterrupted call does from `p`, unless a temporary file stops it. */
  predicate FinishesUnlessStaged(p: Project, r: Replacement, q: Project) {
    var op, again := CreateReplacement(p, r), CreateReplacement(q, r);
    if KeyOf(r) in q.staged then again.answer == Failure(StagedFileExists)
    else again.answer == op.answer && End(q, again.steps) == End(p, op.steps)
  }

  /**
   After any number of crashed attempts one more call finishes the job, with the result of an
   uninterrupted call, if and only if no temporary authority file was left behind.
   */
  lemma {:induction false} RetriesFinishUnlessStaged(p: Project, r: Replacement, crashes: seq<nat>)
    requires Untouched(p, KeyOf(r)) && CreateReplacement(p, r).answer.Success?
    ensures FinishesUnlessStaged(p, r, Retried(p, r, crashes))
    decreases |crashes|
  {
    if crashes == [] {
    } else if crashes[0] == 0 {
      RetriesFinishUnlessStaged(p, r, crashes[1..]);
    } else {
      var t := FirstCrash(p, r, crashes[0]);
      var u := RetriesStayOnTheWay(p, r, t, crashes[1..]);
      FinishedFrom(p, r, u);
      FirstCall(p, r);
    }
  }

  /** The bad crash exists: right after the temporary file is created. No retry of the same call gets past it. */
  lemma StagedFileStopsRetries(p: Project, r: Replacement, crashes: seq<nat>)
    requires Untouched(p, KeyOf(r)) && CreateReplacement(p, r).answer.Success?
    ensures var q := After(p, CreateReplacement(p, r).steps, 2);
            CreateReplacement(Retried(q, r, crashes), r).answer == Failure(StagedFileExists)
  {
    FirstCall(p, r);
    var t := STARTED.(staged := true);
    assert AuthorityPath(STARTED)[0] == t;
    var u := RetriesStayOnTheWay(p, r, t, crashes);
    FinishedFrom(p, r, u);
  }
}
