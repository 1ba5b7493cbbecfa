/** What each operation of the coordinator leaves alone at every one of its writes. */
module LifecycleFrames {
  import opened Wrappers
  import opened Durability
  import opened Decisions
  import opened Lifecycle
  import opened LifecycleRuns
  import Approval

  /** Nothing of a revision differs, and the pointers differ at most by `next` for contract `c`. */
  predicate Framed(p: Project, q: Project, c: string, next: Pointer) {
    && q.authorities == p.authorities && q.staged == p.staged && q.prepares == p.prepares
    && (q.pointers == p.pointers || q.pointers == p.pointers[c := next])
  }

  ghost predicate AllFramed(p: Project, steps: seq<Project>, c: string, next: Pointer) {
    forall i :: 0 <= i < |steps| ==> Framed(p, steps[i], c, next)
  }

  lemma FramedThen(p: Project, a: Project, b: Project, rest: seq<Project>, c: string, next: Pointer)
    requires Framed(p, a, c, next) && Framed(p, b, c, next) && AllFramed(b, rest, c, next)
    ensures AllFramed(p, [a, b] + rest, c, next)
  {
    forall i | 0 <= i < |[a, b] + rest|
      ensures Framed(p, ([a, b] + rest)[i], c, next)
    {
      if i >= 2 {
        assert Framed(b, rest[i - 2], c, next);
      }
    }
  }

  lemma FramedAfter(p: Project, steps: seq<Project>, c: string, next: Pointer, n: nat)
    requires AllFramed(p, steps, c, next)
    ensures Framed(p, After(p, steps, n), c, next)
  {
  }

  lemma CommitFramed(p: Project, s: Switch, journal: SwitchJournal)
    ensures AllFramed(p, Commit(p, s, journal).steps, s.activation.key.contractId, journal.newPointer)
  {
  }

  lemma ArchiveFramed(p: Project, s: Switch, journal: SwitchJournal)
    ensures AllFramed(p, ArchiveOld(p, s, journal).steps, s.activation.key.contractId, journal.newPointer)
  {
    var k, base := s.activation.key, s.expected.key;
    CommitFramed(p, s, journal);
    if base in p.items {
      var archived := WithStatus(p, base, p.items[base].(status := Archived));
      var next := journal.(stage := OldArchived);
      var recorded := Journaled(archived, k, next);
      CommitFramed(recorded, s, next);
      FramedThen(p, archived, recorded, Commit(recorded, s, next).steps, k.contractId, journal.newPointer);
    }
  }

  lemma MoveFramed(p: Project, s: Switch, journal: SwitchJournal)
    ensures AllFramed(p, MovePointer(p, s, journal).steps, s.activation.key.contractId, journal.newPointer)
  {
    var k := s.activation.key;
    var moved := WithPointer(p, k.contractId, journal.newPointer);
    var next := journal.(stage := PointerSwitched);
    var recorded := Journaled(moved, k, next);
    ArchiveFramed(p, s, journal);
    ArchiveFramed(recorded, s, next);
    FramedThen(p, moved, recorded, ArchiveOld(recorded, s, next).steps, k.contractId, journal.newPointer);
  }

  lemma AdvanceFramed(p: Project, s: Switch, journal: SwitchJournal)
    ensures AllFramed(p, Advance(p, s, journal).steps, s.activation.key.contractId, journal.newPointer)
  {
    var k, newKey := s.activation.key, journal.newPointer.key;
    MoveFramed(p, s, journal);
    if newKey in p.items {
      var active := WithStatus(p, newKey, Activated(p.items[newKey], s.activation.actor));
      var next := journal.(stage := NewActive);
      var recorded := Journaled(active, k, next);
      MoveFramed(recorded, s, next);
      FramedThen(p, active, recorded, MovePointer(recorded, s, next).steps, k.contractId, journal.newPointer);
    }
  }

  // ----- Whole calls -----

  /** Creating the first candidate writes no pointer. */
  lemma InitialWritesNoPointer(p: Project, decision: NarrativeDecision, evidence: seq<string>, n: nat)
    ensures After(p, CreateInitial(p, decision, evidence).steps, n).pointers == p.pointers
  {
  }

  ghost predicate OnlyPrepared(p: Project, q: Project, a: Activation, required: seq<Approval.Item>) {
    && q.authorities == p.authorities && q.staged == p.staged && q.prepares == p.prepares
    && forall c :: c in q.pointers ==>
         || (c in p.pointers && q.pointers[c] == p.pointers[c])
         || PreparePointer(p, a, required) == Success(q.pointers[c])
  }

  lemma FramedIsPrepared(p: Project, q: Project, a: Activation, required: seq<Approval.Item>, c: string, next: Pointer)
    requires Framed(p, q, c, next) && PreparePointer(p, a, required) == Success(next)
    ensures OnlyPrepared(p, q, a, required)
  {
  }

  lemma AnnouncedFramed(p: Project, s: Switch, journal: SwitchJournal, n: nat)
    ensures var announced := Journaled(p, s.activation.key, journal);
            Framed(p, After(p, [announced] + Advance(announced, s, journal).steps, n),
                   s.activation.key.contractId, journal.newPointer)
  {
    var announced := Journaled(p, s.activation.key, journal);
    var rest := Advance(announced, s, journal).steps;
    OneThen(p, announced, rest, n);
    if n > 0 {
      AdvanceFramed(announced, s, journal);
      FramedAfter(announced, rest, s.activation.key.contractId, journal.newPointer, n - 1);
    }
  }

  /** A switch leaves revisions alone, and the only pointer it writes is the one all gates prepared. */
  lemma SwitchWritesPrepared(p: Project, s: Switch, n: nat)
    ensures var q, k := After(p, SwitchReplacement(p, s).steps, n), s.activation.key;
            q == p || (k in p.authorities && OnlyPrepared(p, q, s.activation, p.authorities[k].required))
  {
    var a, k := s.activation, s.activation.key;
    if AuthorityError(p, s).None? {
      var required := p.authorities[k].required;
      var prepared := PreparePointer(p, a, required);
      if prepared.Success? {
        if k in p.switches {
          var journal := p.switches[k];
          AdvanceFramed(p, s, journal);
          FramedAfter(p, Advance(p, s, journal).steps, k.contractId, journal.newPointer, n);
          if prepared.value == journal.newPointer {
            FramedIsPrepared(p, After(p, Advance(p, s, journal).steps, n), a, required, k.contractId, prepared.value);
          }
        } else {
          var journal := SwitchJournal(Prepared, a.actor, s.expected, prepared.value);
          AnnouncedFramed(p, s, journal, n);
          var announced := Journaled(p, k, journal);
          var q := After(p, [announced] + Advance(announced, s, journal).steps, n);
          FramedIsPrepared(p, q, a, required, k.contractId, prepared.value);
        }
      }
    }
  }

  /** The first activation leaves revisions alone, and the only pointer it writes is the one all gates prepared. */
  lemma ActivationWritesPrepared(p: Project, a: Activation, n: nat)
    ensures var q := After(p, ActivateInitial(p, a).steps, n); q == p || OnlyPrepared(p, q, a, [])
  {
    var prepared := PreparePointer(p, a, []);
    if prepared.Success? {
      PlacedFramed(p, a, prepared.value, n);
      FramedIsPrepared(p, After(p, PlaceInitial(p, a, prepared.value).steps, n), a, [], a.key.contractId,
                       prepared.value);
    }
  }

  lemma PlacedFramed(p: Project, a: Activation, pointer: Pointer, n: nat)
    requires a.key in p.items
    ensures Framed(p, After(p, PlaceInitial(p, a, pointer).steps, n), a.key.contractId, pointer)
  {
  }
}
