/** The coordinator as a process runs it, one atomic file replacement at a time. */
module ContractLifecycle {
  import opened Wrappers
  import opened Durability
  import opened Decisions
  import opened Lifecycle
  import Approval
  import PreflightVerdict
  import ReviewGate

  datatype Outcome<+T> = Crashed | Returned(answer: Result<T, Error>)

  /** How a call that dies after `crashAfter` writes ends, if `op` is what it would do. */
  ghost predicate Performs<T>(before: Project, op: Operation<T>, crashAfter: nat, after: Project, outcome: Outcome<T>) {
    && after == After(before, op.steps, crashAfter)
    && outcome == if crashAfter < |op.steps| then Crashed else Returned(op.answer)
  }

  /** After two more writes the rest of an operation runs with two writes less. */
  lemma PerformsTwoThen<T>(before: Project, a: Project, b: Project, rest: Operation<T>, crashAfter: nat)
    ensures var op := Following([a, b], rest);
            && (crashAfter == 0 ==> Performs(before, op, 0, before, Crashed))
            && (crashAfter == 1 ==> Performs(before, op, 1, a, Crashed))
            && forall after, outcome: Outcome<T> ::
               crashAfter >= 2 && Performs(b, rest, crashAfter - 2, after, outcome) ==>
                 Performs(before, op, crashAfter, after, outcome)
  {
    AfterConcat(before, [a, b], rest.steps, crashAfter);
  }

  lemma PerformsOneThen<T>(before: Project, a: Project, rest: Operation<T>, crashAfter: nat)
    ensures var op := Following([a], rest);
            && (crashAfter == 0 ==> Performs(before, op, 0, before, Crashed))
            && forall after, outcome: Outcome<T> ::
               crashAfter >= 1 && Performs(a, rest, crashAfter - 1, after, outcome) ==>
                 Performs(before, op, crashAfter, after, outcome)
  {
    AfterConcat(before, [a], rest.steps, crashAfter);
  }

  /** A crash inside the first writes of an operation. */
  lemma PerformsFirst<T>(before: Project, first: seq<Project>, rest: Operation<T>, crashAfter: nat)
    requires crashAfter < |first|
    ensures Performs(before, Following(first, rest), crashAfter, After(before, first, crashAfter), Crashed)
  {
    AfterConcat(before, first, rest.steps, crashAfter);
  }

  /** Once the first writes have landed the rest of the operation runs from where they end. */
  lemma PerformsRest<T>(before: Project, first: seq<Project>, rest: Operation<T>, crashAfter: nat,
                        after: Project, outcome: Outcome<T>)
    requires crashAfter >= |first| && Performs(End(before, first), rest, crashAfter - |first|, after, outcome)
    ensures Performs(before, Following(first, rest), crashAfter, after, outcome)
  {
    AfterConcat(before, first, rest.steps, crashAfter);
  }

  lemma BeginAnnounces(p: Project, s: Switch, current: Option<Pointer>, pointer: Pointer)
    requires s.activation.key in p.authorities && current == Some(s.expected)
    requires s.activation.key.version == s.expected.key.version + 1
    requires PreparePointer(p, s.activation, p.authorities[s.activation.key].required) == Success(pointer)
    ensures var journal := SwitchJournal(Prepared, s.activation.actor, s.expected, pointer);
            var announced := Journaled(p, s.activation.key, journal);
            BeginSwitch(p, s, current) == Following([announced], Advance(announced, s, journal))
  {
  }

  class ContractLifecycleCoordinator {
    var items: map<Key, Item>
    var pointers: map<string, Pointer>
    var switches: map<Key, SwitchJournal>
    var authorities: map<Key, RevisionAuthority>
    var staged: set<Key>
    var prepares: map<Key, PrepareJournal>

    constructor ()
      ensures View() == EMPTY
    {
      items, pointers, switches, authorities, staged, prepares := map[], map[], map[], map[], {}, map[];
    }

    function View(): Project
      reads this
    {
      Project(items, pointers, switches, authorities, staged, prepares)
    }

    // ----- The first version -----

    method CreateInitialCandidate(decision: NarrativeDecision, evidence: seq<string>, crashAfter: nat)
      returns (outcome: Outcome<Item>)
      modifies this
      ensures Performs(old(View()), CreateInitial(old(View()), decision, evidence), crashAfter, View(), outcome)
    {
      var k := Key(decision.contractId, decision.contractVersion);
      if !decision.Valid() {
        return Returned(Failure(InvalidDecision));
      }
      if decision.contractVersion != 1 {
        return Returned(Failure(InitialVersionMustBeOne));
      }
      if !KeyIsValid(k) {
        return Returned(Failure(InvalidKey));
      }
      if k in items {
        if !items[k].status.Candidate? {
          return Returned(Failure(InvalidStatus));
        }
        if !ItemBelongs(items[k], k) {
          return Returned(Failure(ItemMismatch));
        }
        return Returned(if items[k].decision != decision then Failure(ImmutableConflict) else Success(items[k]));
      }
      if crashAfter == 0 { return Crashed; }
      items := items[k := Item(decision, evidence, Candidate, None)];
      return Returned(Success(items[k]));
    }

    /** Every gate in front of a pointer, read without writing anything. */
    method PrepareActivation(a: Activation, i: PreflightVerdict.Inputs, required: seq<Approval.Item>)
      returns (r: Result<Pointer, Error>)
      requires PreflightVerdict.Judges(i, a.sources.ready)
      ensures r == PreparePointer(View(), a, required)
    {
      var found := ExactRecords(a);
      if found.Failure? {
        return Failure(RecordsFailed(found.error));
      }
      if found.value.None? {
        return Failure(MissingRecords);
      }
      var exact := found.value.value;
      if !NothingRejected(exact.approval) {
        return Failure(NotApproved);
      }
      if exists item <- required :: !exact.approval.Approves(item) {
        return Failure(MissingRequiredApproval);
      }
      if a.actor != exact.approval.full.approvedBy {
        return Failure(ActorMismatch);
      }
      var verdict := ReviewGate.ValidateReviewerGate(
        Some(exact.review), DispositionsOf(exact), Expected(a, exact), a.sources.hex);
      if !verdict.Ready? {
        return Failure(GateBlocked);
      }
      if !a.sources.resolve {
        return Failure(SourcesUnresolved);
      }
      if a.key !in items {
        return Failure(MissingItem);
      }
      var item := items[a.key];
      if item.status.Archived? {
        return Failure(InvalidStatus);
      }
      if !ItemBelongs(item, a.key) {
        return Failure(ItemMismatch);
      }
      if ContentHash(item.decision) != a.contentHash {
        return Failure(HashMismatch);
      }
      var ready := PreflightVerdict.CheckPreflight(i, item.decision);
      if !ready {
        return Failure(PreflightBlocked);
      }
      return Success(PointerFor(a, exact));
    }

    method ActivateFirst(a: Activation, i: PreflightVerdict.Inputs, crashAfter: nat) returns (outcome: Outcome<Pointer>)
      requires PreflightVerdict.Judges(i, a.sources.ready)
      modifies this
      ensures Performs(old(View()), ActivateInitial(old(View()), a), crashAfter, View(), outcome)
    {
      var c := a.key.contractId;
      if a.key.version != 1 {
        return Returned(Failure(InitialVersionMustBeOne));
      }
      var prepared := PrepareActivation(a, i, []);
      if prepared.Failure? {
        return Returned(Failure(prepared.error));
      }
      var existing := ReadPointer(View(), c);
      if existing.Failure? {
        return Returned(Failure(existing.error));
      }
      if existing.value.Some? && existing.value.value != prepared.value {
        return Returned(Failure(InitialPointerConflict));
      }
      outcome := PlaceFirst(a, prepared.value, crashAfter);
    }

    method PlaceFirst(a: Activation, pointer: Pointer, crashAfter: nat) returns (outcome: Outcome<Pointer>)
      requires a.key in items
      modifies this
      ensures Performs(old(View()), PlaceInitial(old(View()), a, pointer), crashAfter, View(), outcome)
    {
      var c := a.key.contractId;
      if items[a.key].status.Candidate? {
        ghost var active := WithStatus(View(), a.key, Activated(items[a.key], a.actor));
        PerformsOneThen(View(), active, PlacePointer(active, c, pointer), crashAfter);
        if crashAfter == 0 { return Crashed; }
        items := items[a.key := Activated(items[a.key], a.actor)];
        assert View() == active;
        outcome := WritePointer(c, pointer, crashAfter - 1);
      } else {
        outcome := WritePointer(c, pointer, crashAfter);
      }
    }

    method WritePointer(c: string, pointer: Pointer, crashAfter: nat) returns (outcome: Outcome<Pointer>)
      modifies this
      ensures Performs(old(View()), PlacePointer(old(View()), c, pointer), crashAfter, View(), outcome)
    {
      var error := TargetError(View(), c, pointer);
      if error.Some? {
        return Returned(Failure(error.value));
      }
      if crashAfter == 0 { return Crashed; }
      pointers := pointers[c := pointer];
      return Returned(Success(pointer));
    }

    // ----- Switching -----

    method Switch(s: Switch, i: PreflightVerdict.Inputs, crashAfter: nat) returns (outcome: Outcome<Pointer>)
      requires PreflightVerdict.Judges(i, s.activation.sources.ready)
      modifies this
      ensures Performs(old(View()), SwitchReplacement(old(View()), s), crashAfter, View(), outcome)
    {
      var k := s.activation.key;
      var error := AuthorityError(View(), s);
      if error.Some? {
        return Returned(Failure(error.value));
      }
      var current := ReadPointer(View(), k.contractId);
      if current.Failure? {
        return Returned(Failure(current.error));
      }
      if k in switches {
        outcome := ResumeSwitch(s, i, switches[k], crashAfter);
      } else {
        outcome := StartSwitch(s, i, current.value, crashAfter);
      }
    }

    method StartSwitch(s: Switch, i: PreflightVerdict.Inputs, current: Option<Pointer>, crashAfter: nat)
      returns (outcome: Outcome<Pointer>)
      requires s.activation.key in authorities && PreflightVerdict.Judges(i, s.activation.sources.ready)
      modifies this
      ensures Performs(old(View()), BeginSwitch(old(View()), s, current), crashAfter, View(), outcome)
    {
      var a, k := s.activation, s.activation.key;
      if current != Some(s.expected) {
        return Returned(Failure(SwitchConflict));
      }
      if k.version != s.expected.key.version + 1 {
        return Returned(Failure(NotContiguous));
      }
      var prepared := PrepareActivation(a, i, authorities[k].required);
      if prepared.Failure? {
        return Returned(Failure(prepared.error));
      }
      var journal := SwitchJournal(Prepared, a.actor, s.expected, prepared.value);
      BeginAnnounces(View(), s, current, prepared.value);
      outcome := AnnounceSwitch(s, journal, crashAfter);
    }

    /** Writes the journal and goes on. */
    method AnnounceSwitch(s: Switch, journal: SwitchJournal, crashAfter: nat) returns (outcome: Outcome<Pointer>)
      modifies this
      ensures var announced := Journaled(old(View()), s.activation.key, journal);
              Performs(old(View()), Following([announced], Advance(announced, s, journal)), crashAfter, View(), outcome)
    {
      ghost var announced := Journaled(View(), s.activation.key, journal);
      PerformsOneThen(View(), announced, Advance(announced, s, journal), crashAfter);
      if crashAfter == 0 { return Crashed; }
      switches := switches[s.activation.key := journal];
      assert View() == announced;
      outcome := AdvanceSwitch(s, journal, crashAfter - 1);
    }

    method ResumeSwitch(s: Switch, i: PreflightVerdict.Inputs, journal: SwitchJournal, crashAfter: nat)
      returns (outcome: Outcome<Pointer>)
      requires s.activation.key in authorities && PreflightVerdict.Judges(i, s.activation.sources.ready)
      modifies this
      ensures Performs(old(View()), ContinueSwitch(old(View()), s, journal), crashAfter, View(), outcome)
    {
      var a, k := s.activation, s.activation.key;
      if journal.oldPointer != s.expected || journal.newPointer.key.version != k.version
         || journal.newPointer.contentHash != a.contentHash {
        return Returned(Failure(SwitchConflict));
      }
      var prepared := PrepareActivation(a, i, authorities[k].required);
      if prepared.Failure? {
        return Returned(Failure(prepared.error));
      }
      if prepared.value != journal.newPointer {
        return Returned(Failure(AuthorityDrift));
      }
      outcome := AdvanceSwitch(s, journal, crashAfter);
    }

    /** Activates the new version, then goes on. */
    method AdvanceSwitch(s: Switch, journal: SwitchJournal, crashAfter: nat) returns (outcome: Outcome<Pointer>)
      modifies this
      ensures Performs(old(View()), Advance(old(View()), s, journal), crashAfter, View(), outcome)
    {
      var k, newKey := s.activation.key, journal.newPointer.key;
      if newKey !in items || s.expected.key !in items {
        return Returned(Failure(MissingItem));
      }
      if items[newKey].status.Candidate? {
        var next := journal.(stage := NewActive);
        ghost var active := WithStatus(View(), newKey, Activated(items[newKey], s.activation.actor));
        ghost var recorded := Journaled(active, k, next);
        PerformsTwoThen(View(), active, recorded, MovePointer(recorded, s, next), crashAfter);
        if crashAfter == 0 { return Crashed; }
        items := items[newKey := Activated(items[newKey], s.activation.actor)];
        if crashAfter == 1 { return Crashed; }
        switches := switches[k := next];
        assert View() == recorded;
        outcome := AdvancePointer(s, next, crashAfter - 2);
      } else if items[newKey].status.Active? {
        outcome := AdvancePointer(s, journal, crashAfter);
      } else {
        return Returned(Failure(InvalidStatus));
      }
    }

    /** Moves the pointer, then goes on. */
    method AdvancePointer(s: Switch, journal: SwitchJournal, crashAfter: nat) returns (outcome: Outcome<Pointer>)
      modifies this
      ensures Performs(old(View()), MovePointer(old(View()), s, journal), crashAfter, View(), outcome)
    {
      var k := s.activation.key;
      var c := k.contractId;
      var current := ReadPointer(View(), c);
      if current.Failure? {
        return Returned(Failure(current.error));
      }
      if current.value == Some(s.expected) {
        var error := TargetError(View(), c, journal.newPointer);
        if error.Some? {
          return Returned(Failure(error.value));
        }
        var next := journal.(stage := PointerSwitched);
        ghost var moved := WithPointer(View(), c, journal.newPointer);
        ghost var recorded := Journaled(moved, k, next);
        PerformsTwoThen(View(), moved, recorded, ArchiveOld(recorded, s, next), crashAfter);
        if crashAfter == 0 { return Crashed; }
        pointers := pointers[c := journal.newPointer];
        if crashAfter == 1 { return Crashed; }
        switches := switches[k := next];
        assert View() == recorded;
        outcome := AdvanceArchive(s, next, crashAfter - 2);
      } else if current.value != Some(journal.newPointer) {
        return Returned(Failure(SwitchConflict));
      } else {
        outcome := AdvanceArchive(s, journal, crashAfter);
      }
    }

    /** Archives the old version, then goes on. */
    method AdvanceArchive(s: Switch, journal: SwitchJournal, crashAfter: nat) returns (outcome: Outcome<Pointer>)
      modifies this
      ensures Performs(old(View()), ArchiveOld(old(View()), s, journal), crashAfter, View(), outcome)
    {
      var k, newKey, oldKey := s.activation.key, journal.newPointer.key, s.expected.key;
      if newKey !in items || oldKey !in items {
        return Returned(Failure(MissingItem));
      }
      if !items[newKey].status.Active? || ReadPointer(View(), k.contractId) != Success(Some(journal.newPointer)) {
        return Returned(Failure(NotSafelyCurrent));
      }
      if items[oldKey].status.Active? {
        var next := journal.(stage := OldArchived);
        ghost var archived := WithStatus(View(), oldKey, items[oldKey].(status := Archived));
        ghost var recorded := Journaled(archived, k, next);
        PerformsTwoThen(View(), archived, recorded, Commit(recorded, s, next), crashAfter);
        if crashAfter == 0 { return Crashed; }
        items := items[oldKey := items[oldKey].(status := Archived)];
        if crashAfter == 1 { return Crashed; }
        switches := switches[k := next];
        assert View() == recorded;
        outcome := CommitSwitch(s, next, crashAfter - 2);
      } else if items[oldKey].status.Archived? {
        outcome := CommitSwitch(s, journal, crashAfter);
      } else {
        return Returned(Failure(InvalidOldStatus));
      }
    }

    method CommitSwitch(s: Switch, journal: SwitchJournal, crashAfter: nat) returns (outcome: Outcome<Pointer>)
      modifies this
      ensures Performs(old(View()), Commit(old(View()), s, journal), crashAfter, View(), outcome)
    {
      if !journal.stage.Committed? {
        if crashAfter == 0 { return Crashed; }
        switches := switches[s.activation.key := journal.(stage := Committed)];
      }
      if ReadPointer(View(), s.activation.key.contractId) != Success(Some(journal.newPointer)) {
        return Returned(Failure(SwitchConflict));
      }
      return Returned(Success(journal.newPointer));
    }

    // ----- A candidate for the next version -----

    method CreateReplacementCandidate(r: Replacement, crashAfter: nat) returns (outcome: Outcome<Item>)
      modifies this
      ensures Performs(old(View()), CreateReplacement(old(View()), r), crashAfter, View(), outcome)
    {
      var k := KeyOf(r);
      if !ContractIdIsValid(k.contractId) {
        return Returned(Failure(InvalidKey));
      }
      var current := ReadPointer(View(), k.contractId);
      if current.Failure? {
        return Returned(Failure(current.error));
      }
      if current.value.None? {
        return Returned(Failure(MissingCurrent));
      }
      var pointer := current.value.value;
      var refusal := RevisionRefusal(View(), r, pointer);
      if refusal.Some? {
        return Returned(Failure(refusal.value));
      }
      outcome := StorePrepared(r, crashAfter);
    }

    method StorePrepared(r: Replacement, crashAfter: nat) returns (outcome: Outcome<Item>)
      modifies this
      ensures Performs(old(View()), PrepareCandidate(old(View()), r), crashAfter, View(), outcome)
    {
      ghost var before, op := View(), WritePrepare(View(), KeyOf(r), PrepareAt(r, PreparePrepared));
      ghost var rest := StoreAuthority(End(before, op.steps), r);
      var prepared, left := WritePrepareJournal(KeyOf(r), PrepareAt(r, PreparePrepared), crashAfter);
      if prepared.Crashed? {
        PerformsFirst(before, op.steps, rest, crashAfter);
        return Crashed;
      }
      if prepared.answer.Failure? {
        return Returned(Failure(prepared.answer.error));
      }
      outcome := StoreAuthorityFile(r, left);
      PerformsRest(before, op.steps, rest, crashAfter, View(), outcome);
    }

    /** Writes the prepare journal unless a committed one is there; `left` writes remain. */
    method WritePrepareJournal(k: Key, journal: PrepareJournal, crashAfter: nat)
      returns (outcome: Outcome<()>, left: nat)
      modifies this
      ensures var op := WritePrepare(old(View()), k, journal);
              && Performs(old(View()), op, crashAfter, View(), outcome)
              && (outcome.Returned? ==> left == crashAfter - |op.steps|)
    {
      left := crashAfter;
      if k in prepares {
        if prepares[k].(stage := journal.stage) != journal {
          return Returned(Failure(PrepareConflict)), left;
        }
        if prepares[k].stage.PrepareCommitted? {
          return Returned(Success(())), left;
        }
      }
      if left == 0 { return Crashed, left; }
      prepares := prepares[k := journal];
      return Returned(Success(())), left - 1;
    }

    method StoreAuthorityFile(r: Replacement, crashAfter: nat) returns (outcome: Outcome<Item>)
      modifies this
      ensures Performs(old(View()), StoreAuthority(old(View()), r), crashAfter, View(), outcome)
    {
      ghost var before, op := View(), WriteAuthority(View(), AuthorityFor(r));
      ghost var rest := RecordAuthority(End(before, op.steps), r);
      var written, left := WriteAuthorityFile(AuthorityFor(r), crashAfter);
      if written.Crashed? {
        PerformsFirst(before, op.steps, rest, crashAfter);
        return Crashed;
      }
      if written.answer.Failure? {
        return Returned(Failure(written.answer.error));
      }
      outcome := RecordAuthorityWritten(r, left);
      PerformsRest(before, op.steps, rest, crashAfter, View(), outcome);
    }

    /** Creates the temporary file exclusively and renames it over the authority file. */
    method WriteAuthorityFile(authority: RevisionAuthority, crashAfter: nat) returns (outcome: Outcome<()>, left: nat)
      modifies this
      ensures var op := WriteAuthority(old(View()), authority);
              && Performs(old(View()), op, crashAfter, View(), outcome)
              && (outcome.Returned? ==> left == crashAfter - |op.steps|)
    {
      var k := authority.key;
      left := crashAfter;
      if k in authorities {
        return Returned(if authorities[k] != authority then Failure(AuthorityConflict) else Success(())), left;
      }
      if k in staged {
        return Returned(Failure(StagedFileExists)), left;
      }
      ghost var unstaged := staged;
      if left == 0 { return Crashed, left; }
      staged := staged + {k};
      if left == 1 { return Crashed, left; }
      authorities, staged := authorities[k := authority], staged - {k};
      assert staged == unstaged;
      return Returned(Success(())), left - 2;
    }

    method RecordAuthorityWritten(r: Replacement, crashAfter: nat) returns (outcome: Outcome<Item>)
      modifies this
      ensures Performs(old(View()), RecordAuthority(old(View()), r), crashAfter, View(), outcome)
    {
      ghost var before, op := View(), WritePrepare(View(), KeyOf(r), PrepareAt(r, AuthorityWritten));
      ghost var rest := StoreCandidate(End(before, op.steps), r);
      var recorded, left := WritePrepareJournal(KeyOf(r), PrepareAt(r, AuthorityWritten), crashAfter);
      if recorded.Crashed? {
        PerformsFirst(before, op.steps, rest, crashAfter);
        return Crashed;
      }
      if recorded.answer.Failure? {
        return Returned(Failure(recorded.answer.error));
      }
      outcome := AddCandidate(r, left);
      PerformsRest(before, op.steps, rest, crashAfter, View(), outcome);
    }

    method AddCandidate(r: Replacement, crashAfter: nat) returns (outcome: Outcome<Item>)
      modifies this
      ensures Performs(old(View()), StoreCandidate(old(View()), r), crashAfter, View(), outcome)
    {
      var k, left := KeyOf(r), crashAfter;
      if k in items {
        if items[k] != CandidateFor(r) {
          return Returned(Failure(ImmutableConflict));
        }
      } else {
        ghost var stored := WithStatus(View(), k, CandidateFor(r));
        PerformsOneThen(View(), stored, CommitCandidate(stored, r), crashAfter);
        if left == 0 { return Crashed; }
        items := items[k := CandidateFor(r)];
        left := left - 1;
        assert View() == stored;
      }
      var committed, _ := WritePrepareJournal(k, PrepareAt(r, PrepareCommitted), left);
      if committed.Crashed? {
        return Crashed;
      }
      return Returned(if committed.answer.Failure? then Failure(committed.answer.error) else Success(items[k]));
    }
  }
}
