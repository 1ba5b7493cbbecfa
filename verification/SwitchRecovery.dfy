/** A switch that crashes anywhere, any number of times, is finished by calling it again. */
module SwitchRecovery {
  import opened Wrappers
  import opened Durability
  import opened Decisions
  import opened Lifecycle
  import Approval
  import RecordStore

  /** How far a switch has come: what is done, and what its journal says is done. */
  datatype Progress = Progress(activated: bool, moved: bool, archived: bool, stage: Stage)

  /** The steps happen in order, and the journal is never ahead of them. */
  predicate InOrder(t: Progress) {
    && (t.archived ==> t.moved) && (t.moved ==> t.activated)
    && match t.stage
       case Prepared => true
       case NewActive => t.activated
       case PointerSwitched => t.moved
       case OldArchived => t.archived
       case Committed => t.archived
  }

  const FINISHED := Progress(true, true, true, Committed)

  // ----- The writes that remain -----

  function CommitPath(t: Progress): seq<Progress> {
    if t.stage.Committed? then [] else [t.(stage := Committed)]
  }

  function ArchivePath(t: Progress): seq<Progress> {
    if t.archived then CommitPath(t)
    else
      var done := t.(archived := true);
      [done, done.(stage := OldArchived)] + CommitPath(done.(stage := OldArchived))
  }

  function MovePath(t: Progress): seq<Progress> {
    if t.moved then ArchivePath(t)
    else
      var done := t.(moved := true);
      [done, done.(stage := PointerSwitched)] + ArchivePath(done.(stage := PointerSwitched))
  }

  function Path(t: Progress): seq<Progress> {
    if t.activated then MovePath(t)
    else
      var done := t.(activated := true);
      [done, done.(stage := NewActive)] + MovePath(done.(stage := NewActive))
  }

  function Rank(stage: Stage): nat {
    match stage
    case Prepared => 0
    case NewActive => 1
    case PointerSwitched => 2
    case OldArchived => 3
    case Committed => 4
  }

  /**
   Every state on the way is in order, the journal never goes back, each write that lands shortens what
   is left, and the way ends with everything done.
   */
  lemma PathMakesProgress(t: Progress, k: nat)
    requires InOrder(t)
    ensures var next := After(t, Path(t), k);
            && InOrder(next) && Rank(t.stage) <= Rank(next.stage) && (t.activated ==> next.activated)
            && (k <= |Path(t)| ==> |Path(next)| + k <= |Path(t)|)
            && (k >= |Path(t)| ==> next == FINISHED)
  {
    if t.activated {
      AlongMove(t, k);
    } else if k >= 2 {
      var n := t.(activated := true, stage := NewActive);
      AlongMove(n, k - 2);
      AfterConcat(t, [t.(activated := true), n], MovePath(n), k);
    }
  }

  lemma AlongCommit(t: Progress, k: nat)
    requires InOrder(t) && t.archived
    ensures var next := After(t, CommitPath(t), k);
            && InOrder(next) && Rank(t.stage) <= Rank(next.stage) && (t.activated ==> next.activated)
               && Path(t) == CommitPath(t)
            && (k <= |CommitPath(t)| ==> |Path(next)| + k <= |CommitPath(t)|)
            && (k >= |CommitPath(t)| ==> next == FINISHED)
  {
  }

  lemma AlongArchive(t: Progress, k: nat)
    requires InOrder(t) && t.moved
    ensures var next := After(t, ArchivePath(t), k);
            && InOrder(next) && Rank(t.stage) <= Rank(next.stage) && (t.activated ==> next.activated)
               && Path(t) == ArchivePath(t)
            && (k <= |ArchivePath(t)| ==> |Path(next)| + k <= |ArchivePath(t)|)
            && (k >= |ArchivePath(t)| ==> next == FINISHED)
  {
    if t.archived {
      AlongCommit(t, k);
    } else if k >= 2 {
      var n := t.(archived := true, stage := OldArchived);
      AlongCommit(n, k - 2);
      AfterConcat(t, [t.(archived := true), n], CommitPath(n), k);
    }
  }

  lemma AlongMove(t: Progress, k: nat)
    requires InOrder(t) && t.activated
    ensures var next := After(t, MovePath(t), k);
            && InOrder(next) && Rank(t.stage) <= Rank(next.stage) && (t.activated ==> next.activated)
               && Path(t) == MovePath(t)
            && (k <= |MovePath(t)| ==> |Path(next)| + k <= |MovePath(t)|)
            && (k >= |MovePath(t)| ==> next == FINISHED)
  {
    if t.moved {
      AlongArchive(t, k);
    } else if k >= 2 {
      var n := t.(moved := true, stage := PointerSwitched);
      AlongArchive(n, k - 2);
      AfterConcat(t, [t.(moved := true), n], ArchivePath(n), k);
    }
  }

  // ----- The states of one switch -----

  /** The project `p` after the steps `t` of the switch `s` to the pointer `next`. */
  function StateAt(p: Project, s: Switch, next: Pointer, t: Progress): Project
    requires s.activation.key in p.items && s.expected.key in p.items
  {
    var k, base := s.activation.key, s.expected.key;
    var items := if t.activated && p.items[k].status.Candidate?
                 then p.items[k := Activated(p.items[k], s.activation.actor)] else p.items;
    p.(items := if t.archived then items[base := items[base].(status := Archived)] else items,
       pointers := if t.moved then p.pointers[k.contractId := next] else p.pointers,
       switches := p.switches[k := JournalAt(s, next, t)])
  }

  function JournalAt(s: Switch, next: Pointer, t: Progress): SwitchJournal {
    SwitchJournal(t.stage, s.activation.actor, s.expected, next)
  }

  /** `s` switches the current pointer of `p` to `next`: both versions are stored, and `next` is sound once active. */
  predicate Switches(p: Project, s: Switch, next: Pointer) {
    var k, base := s.activation.key, s.expected.key;
    && k in p.items && base in p.items && k != base && !p.items[k].status.Archived?
    && next.key == k && ItemBelongs(p.items[k], k) && ContentHash(p.items[k].decision) == next.contentHash
    && k.contractId in p.pointers && p.pointers[k.contractId] == s.expected
    && TargetError(p, k.contractId, s.expected).None?
  }

  function StatesAt(p: Project, s: Switch, next: Pointer, path: seq<Progress>): (r: seq<Project>)
    requires s.activation.key in p.items && s.expected.key in p.items
    ensures |r| == |path| && forall i :: 0 <= i < |r| ==> r[i] == StateAt(p, s, next, path[i])
  {
    seq(|path|, i requires 0 <= i < |path| => StateAt(p, s, next, path[i]))
  }

  lemma StatesConcat(p: Project, s: Switch, next: Pointer, a: seq<Progress>, b: seq<Progress>)
    requires s.activation.key in p.items && s.expected.key in p.items
    ensures StatesAt(p, s, next, a + b) == StatesAt(p, s, next, a) + StatesAt(p, s, next, b)
  {
  }

  /** What the pointer file answers at each stage. */
  lemma PointerAt(p: Project, s: Switch, next: Pointer, t: Progress)
    requires Switches(p, s, next) && InOrder(t)
    ensures var q := StateAt(p, s, next, t);
            && ReadPointer(q, s.activation.key.contractId) == Success(Some(if t.moved then next else s.expected))
            && (t.activated ==> TargetError(q, s.activation.key.contractId, next).None?)
            && s.activation.key in q.items && s.expected.key in q.items
            && (q.items[s.activation.key].status.Candidate? ==> !t.activated)
            && !q.items[s.activation.key].status.Archived?
            && (t.activated ==> q.items[s.activation.key].status.Active?)
            && q.items[s.expected.key].status == if t.archived then Archived else Active
  {
  }

  /** The writes lead from one stage to the next. */
  lemma NextStates(p: Project, s: Switch, next: Pointer, t: Progress)
    requires Switches(p, s, next)
    ensures var q, k, base := StateAt(p, s, next, t), s.activation.key, s.expected.key;
            && (!t.activated && p.items[k].status.Candidate? ==>
                  WithStatus(q, k, Activated(q.items[k], s.activation.actor)) ==
                    StateAt(p, s, next, t.(activated := true)))
            && (!t.moved ==> WithPointer(q, k.contractId, next) == StateAt(p, s, next, t.(moved := true)))
            && (!t.archived ==>
                  WithStatus(q, base, q.items[base].(status := Archived)) == StateAt(p, s, next, t.(archived := true)))
  {
  }

  lemma NextStage(p: Project, s: Switch, next: Pointer, t: Progress, stage: Stage)
    requires s.activation.key in p.items && s.expected.key in p.items
    ensures Journaled(StateAt(p, s, next, t), s.activation.key, JournalAt(s, next, t).(stage := stage)) ==
            StateAt(p, s, next, t.(stage := stage))
  {
  }

  lemma CommitAt(p: Project, s: Switch, next: Pointer, t: Progress)
    requires Switches(p, s, next) && InOrder(t) && t.archived
    ensures Commit(StateAt(p, s, next, t), s, JournalAt(s, next, t)) ==
            Operation(StatesAt(p, s, next, CommitPath(t)), Success(next))
  {
    PointerAt(p, s, next, t);
    PointerAt(p, s, next, t.(stage := Committed));
    NextStage(p, s, next, t, Committed);
    if !t.stage.Committed? {
      assert StatesAt(p, s, next, CommitPath(t)) == [StateAt(p, s, next, t.(stage := Committed))];
    }
  }

  lemma TwoStates(p: Project, s: Switch, next: Pointer, a: Progress, b: Progress, rest: seq<Progress>)
    requires s.activation.key in p.items && s.expected.key in p.items
    ensures StatesAt(p, s, next, [a, b] + rest) ==
            [StateAt(p, s, next, a), StateAt(p, s, next, b)] + StatesAt(p, s, next, rest)
  {
  }

  lemma ArchiveAt(p: Project, s: Switch, next: Pointer, t: Progress)
    requires Switches(p, s, next) && InOrder(t) && t.moved
    ensures ArchiveOld(StateAt(p, s, next, t), s, JournalAt(s, next, t)) ==
            Operation(StatesAt(p, s, next, ArchivePath(t)), Success(next))
  {
    PointerAt(p, s, next, t);
    if t.archived {
      CommitAt(p, s, next, t);
    } else {
      var done := t.(archived := true);
      var recorded := done.(stage := OldArchived);
      NextStates(p, s, next, t);
      NextStage(p, s, next, done, OldArchived);
      CommitAt(p, s, next, recorded);
      TwoStates(p, s, next, done, recorded, CommitPath(recorded));
    }
  }

  lemma MoveAt(p: Project, s: Switch, next: Pointer, t: Progress)
    requires Switches(p, s, next) && InOrder(t) && t.activated
    ensures MovePointer(StateAt(p, s, next, t), s, JournalAt(s, next, t)) ==
            Operation(StatesAt(p, s, next, MovePath(t)), Success(next))
  {
    PointerAt(p, s, next, t);
    if t.moved {
      ArchiveAt(p, s, next, t);
    } else {
      var done := t.(moved := true);
      var recorded := done.(stage := PointerSwitched);
      NextStates(p, s, next, t);
      NextStage(p, s, next, done, PointerSwitched);
      ArchiveAt(p, s, next, recorded);
      TwoStates(p, s, next, done, recorded, ArchivePath(recorded));
    }
  }

  /** Without activation the new version is a candidate; a version that is active already counts as activated. */
  predicate Matches(p: Project, s: Switch, t: Progress) {
    s.activation.key in p.items && (!t.activated ==> p.items[s.activation.key].status.Candidate?)
  }

  lemma AdvanceAt(p: Project, s: Switch, next: Pointer, t: Progress)
    requires Switches(p, s, next) && InOrder(t) && Matches(p, s, t)
    ensures Advance(StateAt(p, s, next, t), s, JournalAt(s, next, t)) ==
            Operation(StatesAt(p, s, next, Path(t)), Success(next))
  {
    PointerAt(p, s, next, t);
    if t.activated {
      MoveAt(p, s, next, t);
    } else {
      var done := t.(activated := true);
      var recorded := done.(stage := NewActive);
      NextStates(p, s, next, t);
      NextStage(p, s, next, done, NewActive);
      MoveAt(p, s, next, recorded);
      TwoStates(p, s, next, done, recorded, MovePath(recorded));
    }
  }

  // ----- Calling the switch again -----

  function FirstProgress(p: Project, s: Switch): Progress
    requires s.activation.key in p.items
  {
    Progress(!p.items[s.activation.key].status.Candidate?, false, false, Prepared)
  }

  /** What a first call has checked by the time it writes its journal. */
  lemma FirstCallChecks(p: Project, s: Switch)
    requires s.activation.key !in p.switches && SwitchReplacement(p, s).answer.Success?
    ensures AuthorityError(p, s).None?
    ensures var prepared := PreparePointer(p, s.activation, p.authorities[s.activation.key].required);
            && prepared.Success?
            && ReadPointer(p, s.activation.key.contractId) == Success(Some(s.expected))
            && s.activation.key.version == s.expected.key.version + 1
            && var journal := SwitchJournal(Prepared, s.activation.actor, s.expected, prepared.value);
               var announced := Journaled(p, s.activation.key, journal);
               SwitchReplacement(p, s) == Following([announced], Advance(announced, s, journal))
  {
  }

  lemma PreparedPointerFits(p: Project, a: Activation, required: seq<Approval.Item>)
    requires PreparePointer(p, a, required).Success?
    ensures var next := PreparePointer(p, a, required).value;
            && StoredDecisionError(p, a).None? && next.key == a.key && next.contentHash == a.contentHash
  {
  }

  lemma FirstCallSwitches(p: Project, s: Switch, next: Pointer)
    requires ReadPointer(p, s.activation.key.contractId) == Success(Some(s.expected))
    requires s.activation.key.version == s.expected.key.version + 1
    requires StoredDecisionError(p, s.activation).None?
    requires next.key == s.activation.key && next.contentHash == s.activation.contentHash
    ensures Switches(p, s, next)
  {
  }

  /** Every gate that lets the call through, and the pointer they let through. */
  lemma GatesLetThrough(p: Project, a: Activation, required: seq<Approval.Item>, e: RecordStore.Exact)
    requires ExactRecords(a) == Success(Some(e)) && NothingRejected(e.approval)
    requires forall item <- required :: e.approval.Approves(item)
    requires a.actor == e.approval.full.approvedBy && GateReady(a, e) && a.sources.resolve
    requires a.key in p.items && !p.items[a.key].status.Archived? && ItemBelongs(p.items[a.key], a.key)
    requires ContentHash(p.items[a.key].decision) == a.contentHash && a.sources.ready(p.items[a.key].decision)
    ensures PreparePointer(p, a, required) == Success(PointerFor(a, e))
  {
  }

  /** A first call whose checks pass succeeds. */
  lemma FirstCallSucceeds(p: Project, s: Switch, next: Pointer)
    requires s.activation.key !in p.switches && AuthorityError(p, s).None?
    requires ReadPointer(p, s.activation.key.contractId) == Success(Some(s.expected))
    requires s.activation.key.version == s.expected.key.version + 1
    requires PreparePointer(p, s.activation, p.authorities[s.activation.key].required) == Success(next)
    ensures SwitchReplacement(p, s).answer == Success(next)
  {
    PreparedPointerFits(p, s.activation, p.authorities[s.activation.key].required);
    FirstCallSwitches(p, s, next);
    var t := FirstProgress(p, s);
    AdvanceAt(p, s, next, t);
    assert Journaled(p, s.activation.key, JournalAt(s, next, t)) == StateAt(p, s, next, t);
  }

  /** A first call that succeeds writes its journal and then goes the whole way. */
  lemma FirstCall(p: Project, s: Switch)
    requires s.activation.key !in p.switches && SwitchReplacement(p, s).answer.Success?
    ensures var next := SwitchReplacement(p, s).answer.value;
            && AuthorityError(p, s).None? && Switches(p, s, next) && Matches(p, s, FirstProgress(p, s))
            && PreparePointer(p, s.activation, p.authorities[s.activation.key].required) == Success(next)
            && var t := FirstProgress(p, s);
               SwitchReplacement(p, s).steps == [StateAt(p, s, next, t)] + StatesAt(p, s, next, Path(t))
  {
    FirstCallChecks(p, s);
    var required := p.authorities[s.activation.key].required;
    PreparedPointerFits(p, s.activation, required);
    var next := PreparePointer(p, s.activation, required).value;
    FirstCallSwitches(p, s, next);
    var t := FirstProgress(p, s);
    var journal := JournalAt(s, next, t);
    assert Journaled(p, s.activation.key, journal) == StateAt(p, s, next, t);
    AdvanceAt(p, s, next, t);
  }

  lemma SameAuthority(p: Project, q: Project, s: Switch)
    requires q.authorities == p.authorities
    ensures AuthorityError(q, s) == AuthorityError(p, s)
  {
  }

  /** The gates read nothing of the project but the stored version, whose content and candidacy stay. */
  lemma SamePreparation(p: Project, q: Project, a: Activation, required: seq<Approval.Item>)
    requires StoredDecisionError(p, a).None? && StoredDecisionError(q, a).None?
    ensures PreparePointer(q, a, required) == PreparePointer(p, a, required)
  {
  }

  lemma StoredDecisionStays(p: Project, s: Switch, next: Pointer, t: Progress)
    requires s.activation.key in p.items && s.expected.key in p.items && s.activation.key != s.expected.key
    requires StoredDecisionError(p, s.activation).None?
    ensures StoredDecisionError(StateAt(p, s, next, t), s.activation).None?
  {
  }

  /** Every gate answers the same at every stage, so a repeated call goes the rest of the way. */
  lemma RepeatedCall(p: Project, s: Switch, next: Pointer, t: Progress)
    requires s.activation.key !in p.switches && AuthorityError(p, s).None?
    requires Switches(p, s, next) && InOrder(t) && Matches(p, s, t)
    requires PreparePointer(p, s.activation, p.authorities[s.activation.key].required) == Success(next)
    ensures SwitchReplacement(StateAt(p, s, next, t), s) == Operation(StatesAt(p, s, next, Path(t)), Success(next))
  {
    var q, required := StateAt(p, s, next, t), p.authorities[s.activation.key].required;
    PointerAt(p, s, next, t);
    AdvanceAt(p, s, next, t);
    SameAuthority(p, q, s);
    PreparedPointerFits(p, s.activation, required);
    StoredDecisionStays(p, s, next, t);
    SamePreparation(p, q, s.activation, required);
    assert q.switches[s.activation.key] == JournalAt(s, next, t);
  }

  /** The project after calling the switch once for every entry of `crashes`, each call dying after that many writes. */
  ghost function Retried(p: Project, s: Switch, crashes: seq<nat>): Project
    decreases |crashes|
  {
    if crashes == [] then p
    else Retried(After(p, SwitchReplacement(p, s).steps, crashes[0]), s, crashes[1..])
  }

  lemma StatesAfter(p: Project, s: Switch, next: Pointer, t: Progress, k: nat)
    requires s.activation.key in p.items && s.expected.key in p.items
    ensures After(StateAt(p, s, next, t), StatesAt(p, s, next, Path(t)), k) == StateAt(p, s, next, After(t, Path(t), k))
  {
  }

  lemma {:induction false} RetriesStayOnTheWay(p: Project, s: Switch, next: Pointer, t: Progress, crashes: seq<nat>)
      returns (u: Progress)
    requires s.activation.key !in p.switches && AuthorityError(p, s).None?
    requires Switches(p, s, next) && InOrder(t) && Matches(p, s, t)
    requires PreparePointer(p, s.activation, p.authorities[s.activation.key].required) == Success(next)
    ensures InOrder(u) && Matches(p, s, u) && Rank(t.stage) <= Rank(u.stage)
    ensures Retried(StateAt(p, s, next, t), s, crashes) == StateAt(p, s, next, u)
    decreases |crashes|
  {
    u := t;
    if crashes != [] {
      var v := After(t, Path(t), crashes[0]);
      RepeatedCall(p, s, next, t);
      PathMakesProgress(t, crashes[0]);
      StatesAfter(p, s, next, t, crashes[0]);
      u := RetriesStayOnTheWay(p, s, next, v, crashes[1..]);
    }
  }

  /** Where the writes of a first call lead. */
  lemma CrashOnTheWay(p: Project, s: Switch, next: Pointer, t: Progress, steps: seq<Project>, k: nat)
      returns (u: Progress)
    requires Switches(p, s, next) && InOrder(t) && Matches(p, s, t) && k > 0
    requires steps == [StateAt(p, s, next, t)] + StatesAt(p, s, next, Path(t))
    ensures InOrder(u) && Matches(p, s, u) && After(p, steps, k) == StateAt(p, s, next, u)
    ensures k >= |steps| ==> u == FINISHED
  {
    AfterConcat(p, [StateAt(p, s, next, t)], StatesAt(p, s, next, Path(t)), k);
    StatesAfter(p, s, next, t, k - 1);
    PathMakesProgress(t, k - 1);
    u := After(t, Path(t), k - 1);
  }

  lemma FirstCallCrash(p: Project, s: Switch, next: Pointer, k: nat) returns (u: Progress)
    requires s.activation.key !in p.switches && SwitchReplacement(p, s).answer == Success(next) && k > 0
    ensures Switches(p, s, next) && InOrder(u) && Matches(p, s, u)
    ensures After(p, SwitchReplacement(p, s).steps, k) == StateAt(p, s, next, u)
    ensures k >= |SwitchReplacement(p, s).steps| ==> u == FINISHED
  {
    FirstCall(p, s);
    u := CrashOnTheWay(p, s, next, FirstProgress(p, s), SwitchReplacement(p, s).steps, k);
  }

  /**
   Whatever happened to earlier attempts, calling the switch once more gives the pointer that an
   uninterrupted call gives, and leaves the very same project.
   */
  lemma {:induction false} RetriesFinishTheSwitch(p: Project, s: Switch, crashes: seq<nat>)
    requires s.activation.key !in p.switches && SwitchReplacement(p, s).answer.Success?
    ensures var q := Retried(p, s, crashes);
            && SwitchReplacement(q, s).answer == SwitchReplacement(p, s).answer
            && End(q, SwitchReplacement(q, s).steps) == End(p, SwitchReplacement(p, s).steps)
    decreases |crashes|
  {
    var next := SwitchReplacement(p, s).answer.value;
    if crashes != [] {
      var q := After(p, SwitchReplacement(p, s).steps, crashes[0]);
      if crashes[0] == 0 {
        RetriesFinishTheSwitch(p, s, crashes[1..]);
      } else {
        FirstCall(p, s);
        var t := FirstCallCrash(p, s, next, crashes[0]);
        var u := RetriesStayOnTheWay(p, s, next, t, crashes[1..]);
        FinishedFrom(p, s, next, u);
      }
    }
  }

  lemma FinishedFrom(p: Project, s: Switch, next: Pointer, t: Progress)
    requires s.activation.key !in p.switches && AuthorityError(p, s).None?
             && SwitchReplacement(p, s).answer == Success(next)
    requires Switches(p, s, next) && InOrder(t) && Matches(p, s, t)
    requires PreparePointer(p, s.activation, p.authorities[s.activation.key].required) == Success(next)
    ensures var op := SwitchReplacement(StateAt(p, s, next, t), s);
            && op.answer == Success(next)
            && End(StateAt(p, s, next, t), op.steps) == StateAt(p, s, next, FINISHED)
    ensures End(p, SwitchReplacement(p, s).steps) == StateAt(p, s, next, FINISHED)
  {
    RepeatedCall(p, s, next, t);
    PathMakesProgress(t, |Path(t)|);
    StatesAfter(p, s, next, t, |Path(t)|);
    var first := FirstCallCrash(p, s, next, |SwitchReplacement(p, s).steps|);
  }

  /** The project when everything is done. */
  ghost predicate SwitchDone(p: Project, s: Switch, next: Pointer, q: Project) {
    var k, base := s.activation.key, s.expected.key;
    && k in p.items && base in p.items && k != base
    && q.pointers == p.pointers[k.contractId := next]
    && k in q.items && q.items[k].status.Active? && q.items[k].decision == p.items[k].decision
    && base in q.items && q.items[base] == p.items[base].(status := Archived)
    && (forall other :: other != k && other != base ==>
          (other in q.items <==> other in p.items) && (other in p.items ==> q.items[other] == p.items[other]))
    && q.switches == p.switches[k := SwitchJournal(Committed, s.activation.actor, s.expected, next)]
    && q.authorities == p.authorities && q.staged == p.staged && q.prepares == p.prepares
  }

  lemma FinishedIsDone(p: Project, s: Switch, next: Pointer)
    requires Switches(p, s, next)
    ensures SwitchDone(p, s, next, StateAt(p, s, next, FINISHED))
  {
  }

  /**
   A finished switch: the new pointer, the new version active, the old one archived, the journal committed,
   nothing else changed.
   */
  lemma FinishedSwitch(p: Project, s: Switch)
    requires s.activation.key !in p.switches && SwitchReplacement(p, s).answer.Success?
    ensures SwitchDone(p, s, SwitchReplacement(p, s).answer.value, End(p, SwitchReplacement(p, s).steps))
  {
    var next := SwitchReplacement(p, s).answer.value;
    FirstCall(p, s);
    var u := FirstCallCrash(p, s, next, |SwitchReplacement(p, s).steps|);
    FinishedIsDone(p, s, next);
  }

  /** The journal names no step that the project has not taken. */
  predicate JournalBacked(q: Project, s: Switch, next: Pointer) {
    var key, base := s.activation.key, s.expected.key;
    && key in q.switches && key in q.items && base in q.items
    && var stage := q.switches[key].stage;
    && (Rank(stage) >= 1 ==> q.items[key].status.Active?)
    && (Rank(stage) >= 2 ==> key.contractId in q.pointers && q.pointers[key.contractId] == next)
    && (Rank(stage) >= 3 ==> q.items[base].status.Archived?)
  }

  lemma BackedAt(p: Project, s: Switch, next: Pointer, u: Progress)
    requires Switches(p, s, next) && InOrder(u)
    ensures var q := StateAt(p, s, next, u);
            JournalBacked(q, s, next) && q.switches[s.activation.key].stage == u.stage
  {
    PointerAt(p, s, next, u);
  }

  /** A crash inside the first call leaves a backed journal and fewer writes by at least those that landed. */
  lemma FirstCallBacked(p: Project, s: Switch, k: nat)
    requires s.activation.key !in p.switches && SwitchReplacement(p, s).answer.Success?
    requires 0 < k <= |SwitchReplacement(p, s).steps|
    ensures var q := After(p, SwitchReplacement(p, s).steps, k);
            && JournalBacked(q, s, SwitchReplacement(p, s).answer.value)
            && |SwitchReplacement(q, s).steps| + k <= |SwitchReplacement(p, s).steps|
  {
    var next := SwitchReplacement(p, s).answer.value;
    FirstCall(p, s);
    var t := FirstProgress(p, s);
    AfterConcat(p, [StateAt(p, s, next, t)], StatesAt(p, s, next, Path(t)), k);
    StatesAfter(p, s, next, t, k - 1);
    PathMakesProgress(t, k - 1);
    var u := After(t, Path(t), k - 1);
    RepeatedCall(p, s, next, u);
    BackedAt(p, s, next, u);
  }

  /** A crash inside a repeated call does so too, and the journal does not go back. */
  lemma RepeatedCallBacked(p: Project, s: Switch, next: Pointer, t: Progress, k: nat)
    requires s.activation.key !in p.switches && AuthorityError(p, s).None?
    requires Switches(p, s, next) && InOrder(t) && Matches(p, s, t)
    requires PreparePointer(p, s.activation, p.authorities[s.activation.key].required) == Success(next)
    requires k <= |SwitchReplacement(StateAt(p, s, next, t), s).steps|
    ensures var q, key := StateAt(p, s, next, t), s.activation.key;
            var r := After(q, SwitchReplacement(q, s).steps, k);
            && JournalBacked(q, s, next) && JournalBacked(r, s, next)
            && Rank(q.switches[key].stage) <= Rank(r.switches[key].stage)
            && |SwitchReplacement(r, s).steps| + k <= |SwitchReplacement(q, s).steps|
  {
    var u := After(t, Path(t), k);
    RepeatedCall(p, s, next, t);
    StatesAfter(p, s, next, t, k);
    PathMakesProgress(t, k);
    RepeatedCall(p, s, next, u);
    BackedAt(p, s, next, t);
    BackedAt(p, s, next, u);
  }

  /** Crashed attempts leave the project untouched or somewhere on the way. */
  lemma {:induction false} RetriedIsOnTheWay(p: Project, s: Switch, crashes: seq<nat>) returns (u: Progress)
    requires s.activation.key !in p.switches && SwitchReplacement(p, s).answer.Success?
    ensures var next := SwitchReplacement(p, s).answer.value;
            && AuthorityError(p, s).None? && Switches(p, s, next)
            && PreparePointer(p, s.activation, p.authorities[s.activation.key].required) == Success(next)
            && InOrder(u) && Matches(p, s, u)
            && (Retried(p, s, crashes) == p || Retried(p, s, crashes) == StateAt(p, s, next, u))
    decreases |crashes|
  {
    var next := SwitchReplacement(p, s).answer.value;
    FirstCall(p, s);
    u := FirstProgress(p, s);
    if crashes != [] {
      if crashes[0] == 0 {
        u := RetriedIsOnTheWay(p, s, crashes[1..]);
      } else {
        var t := FirstCallCrash(p, s, next, crashes[0]);
        u := RetriesStayOnTheWay(p, s, next, t, crashes[1..]);
      }
    }
  }

  /**
   After any number of crashed attempts, and one more that dies after `k` writes, the journal names no step
   that has not been taken, does not go back, and the writes still to come are fewer by at least those that
   landed.
   */
  lemma JournalNeverAhead(p: Project, s: Switch, crashes: seq<nat>, k: nat)
    requires s.activation.key !in p.switches && SwitchReplacement(p, s).answer.Success?
    requires k <= |SwitchReplacement(Retried(p, s, crashes), s).steps|
    ensures var q, key, next := Retried(p, s, crashes), s.activation.key, SwitchReplacement(p, s).answer.value;
            var r := After(q, SwitchReplacement(q, s).steps, k);
            && (q == p || JournalBacked(q, s, next)) && (r == p || JournalBacked(r, s, next))
            && (q != p ==> r != p && Rank(q.switches[key].stage) <= Rank(r.switches[key].stage))
            && |SwitchReplacement(r, s).steps| + k <= |SwitchReplacement(q, s).steps|
  {
    var next := SwitchReplacement(p, s).answer.value;
    var u := RetriedIsOnTheWay(p, s, crashes);
    if Retried(p, s, crashes) == p {
      if k > 0 {
        FirstCallBacked(p, s, k);
      }
    } else {
      RepeatedCallBacked(p, s, next, u, k);
    }
  }

  // ----- How many versions are active -----

  function ActiveVersions(p: Project, contractId: string): set<nat> {
    set k | k in p.items && k.contractId == contractId && p.items[k].status.Active? :: k.version
  }

  lemma ActiveAt(p: Project, s: Switch, next: Pointer, u: Progress)
    requires Switches(p, s, next) && s.expected.key.contractId == s.activation.key.contractId
    requires ActiveVersions(p, s.activation.key.contractId) == {s.expected.key.version}
    ensures var active := ActiveVersions(StateAt(p, s, next, u), s.activation.key.contractId);
            && active <= {s.expected.key.version, s.activation.key.version}
            && (u == FINISHED ==> active == {s.activation.key.version})
  {
    var key, q := s.activation.key, StateAt(p, s, next, u);
    forall j | j in q.items && j.contractId == key.contractId && q.items[j].status.Active?
      ensures j.version in {s.expected.key.version, key.version}
      ensures u == FINISHED ==> j == key
    {
      assert j == key || j == s.expected.key || j.version in ActiveVersions(p, key.contractId);
    }
    if u == FINISHED {
      assert key in q.items && q.items[key].status.Active?;
    }
  }

  /** With one active version before the switch there are at most two during it and again one after it. */
  lemma OneActiveVersion(p: Project, s: Switch, k: nat)
    requires s.activation.key !in p.switches && SwitchReplacement(p, s).answer.Success?
    requires ActiveVersions(p, s.activation.key.contractId) == {s.expected.key.version}
    ensures var c, q := s.activation.key.contractId, After(p, SwitchReplacement(p, s).steps, k);
            && ActiveVersions(q, c) <= {s.expected.key.version, s.activation.key.version}
            && (k >= |SwitchReplacement(p, s).steps| ==> ActiveVersions(q, c) == {s.activation.key.version})
  {
    FirstCall(p, s);
    if k > 0 {
      var next := SwitchReplacement(p, s).answer.value;
      var u := FirstCallCrash(p, s, next, k);
      ActiveAt(p, s, next, u);
    }
  }
}
