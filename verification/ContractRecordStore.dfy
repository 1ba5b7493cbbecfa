/** The record store as a process uses it, one atomic file replacement at a time. */
module ContractRecordStore {
  import opened Wrappers
  import opened Durability
  import opened RecordStore

  datatype Outcome<+T> = Crashed | Returned(answer: Result<T, StoreError>)

  /** Where an operation stands when `done` is behind it, `one` comes next and `rest` after that. */
  lemma StepFrom(start: Disk, done: seq<Disk>, d: Disk, one: Operation<()>, rest: Operation<()>, crashAfter: nat)
    requires End(start, done) == d && |done| <= crashAfter
    ensures var whole := Following(done, if one.answer.Failure? then one else Following(one.steps, rest));
            var left := crashAfter - |done|;
            && End(start, done + one.steps) == End(d, one.steps)
            && (one.answer.Failure? ==>
                  whole.answer == one.answer && |whole.steps| == |done| + |one.steps|
                  && After(start, whole.steps, crashAfter) == After(d, one.steps, left))
            && (one.answer.Success? ==>
                  whole == Following(done + one.steps, rest)
                  && (left < |one.steps| ==> After(start, whole.steps, crashAfter) == After(d, one.steps, left)))
  {
    AfterConcat(start, done, one.steps, crashAfter);
    if one.answer.Success? {
      AfterConcat(start, done, one.steps + rest.steps, crashAfter);
      assert done + (one.steps + rest.steps) == (done + one.steps) + rest.steps;
      if crashAfter - |done| < |one.steps| {
        AfterPrefix(d, one.steps, one.steps + rest.steps, crashAfter - |done|);
      }
    }
  }

  /** `done` of the writes of `whole` are behind, `rest` is what follows from `d`. */
  ghost predicate Along(start: Disk, whole: Operation<()>, done: seq<Disk>, d: Disk, rest: Operation<()>,
                        crashAfter: nat, left: nat) {
    && End(start, done) == d && left + |done| == crashAfter
    && whole.steps == done + rest.steps && whole.answer == rest.answer
  }

  /** One more part of an operation, performed with the writes that are left. */
  lemma AlongOne(start: Disk, whole: Operation<()>, done: seq<Disk>, d: Disk, one: Operation<()>, rest: Operation<()>,
                 crashAfter: nat, left: nat)
    requires Along(start, whole, done, d, if one.answer.Failure? then one else Following(one.steps, rest),
                   crashAfter, left)
    ensures one.answer.Failure? || left < |one.steps| ==>
              After(start, whole.steps, crashAfter) == After(d, one.steps, left)
              && (one.answer.Failure? ==> whole.answer == one.answer && |whole.steps| == |done| + |one.steps|)
              && (left < |one.steps| ==> crashAfter < |whole.steps|)
    ensures one.answer.Success? && left >= |one.steps| ==>
              Along(start, whole, done + one.steps, End(d, one.steps), rest, crashAfter, left - |one.steps|)
  {
    StepFrom(start, done, d, one, rest, crashAfter);
    assert done + (one.steps + rest.steps) == (done + one.steps) + rest.steps;
  }

  lemma AlongEnd(start: Disk, whole: Operation<()>, done: seq<Disk>, d: Disk, last: Operation<()>, crashAfter: nat,
                 left: nat)
    requires Along(start, whole, done, d, last, crashAfter, left)
    ensures After(start, whole.steps, crashAfter) == After(d, last.steps, left)
    ensures |whole.steps| == |done| + |last.steps|
  {
    AfterConcat(start, done, last.steps, crashAfter);
  }

  lemma AlongDone(start: Disk, whole: Operation<()>, done: seq<Disk>, d: Disk, rest: Operation<()>, crashAfter: nat,
                  left: nat)
    requires Along(start, whole, done, d, rest, crashAfter, left) && rest == Operation([], Success(()))
    ensures After(start, whole.steps, crashAfter) == d && whole.answer == Success(())
            && left == crashAfter - |whole.steps|
  {
    assert whole.steps == done;
  }

  lemma PhaseUnfolds(d: Disk, names: seq<RecordId>, dispositions: bool)
    requires names != []
    ensures var one := RecoverListed(d, names[0], dispositions);
            RecoverPhase(d, names, dispositions) ==
            if one.answer.Failure? then one
            else Following(one.steps, RecoverPhase(End(d, one.steps), names[1..], dispositions))
  {
  }

  class ContractRecordStore {
    var journals: map<RecordId, Journal>
    var records: map<RecordId, Record>

    constructor ()
      ensures View() == EMPTY
    {
      journals, records := map[], map[];
    }

    function View(): Disk
      reads this
    {
      Disk(journals, records)
    }

    /** Finishes one journal; `left` writes of the `crashAfter` remain when the process survives. */
    method RecoverJournal(id: RecordId, crashAfter: nat) returns (outcome: Outcome<()>, left: nat)
      requires id in journals
      modifies this
      ensures var op := RecoverOne(old(View()), id);
              && View() == After(old(View()), op.steps, crashAfter)
              && outcome == (if crashAfter < |op.steps| then Crashed else Returned(op.answer))
              && (outcome.Returned? ==> left == crashAfter - |op.steps|)
    {
      left := crashAfter;
      var journal := journals[id];
      var error := RecordBindingError(View(), journal.record);
      if error.Some? {
        return Returned(Failure(error.value)), left;
      }
      if id in records {
        if !RecordBelongs(View(), id) {
          return Returned(Failure(Malformed)), left;
        }
        if records[id] != journal.record {
          return Returned(Failure(Conflict)), left;
        }
      } else if journal.committed {
        return Returned(Failure(MissingRecord)), left;
      } else {
        if left == 0 { return Crashed, left; }
        records := records[id := journal.record];
        left := left - 1;
      }
      if !journal.committed {
        if left == 0 { return Crashed, left; }
        journals := journals[id := Journal(true, journal.record)];
        left := left - 1;
      }
      return Returned(Success(())), left;
    }

    method RecoverListedJournal(id: RecordId, dispositions: bool, crashAfter: nat)
        returns (outcome: Outcome<()>, left: nat)
      modifies this
      ensures var op := RecoverListed(old(View()), id, dispositions);
              && View() == After(old(View()), op.steps, crashAfter)
              && outcome == (if crashAfter < |op.steps| then Crashed else Returned(op.answer))
              && (outcome.Returned? ==> left == crashAfter - |op.steps|)
    {
      if id !in journals || journals[id].record.DispositionOf? != dispositions {
        return Returned(Success(())), crashAfter;
      }
      outcome, left := RecoverJournal(id, crashAfter);
    }

    /** Goes through the listing and finishes every journal of one kind. */
    method RecoverJournals(names: seq<RecordId>, dispositions: bool, crashAfter: nat)
      returns (outcome: Outcome<()>, left: nat)
      modifies this
      ensures var op := RecoverPhase(old(View()), names, dispositions);
              && View() == After(old(View()), op.steps, crashAfter)
              && outcome == (if crashAfter < |op.steps| then Crashed else Returned(op.answer))
              && (outcome.Returned? ==> left == crashAfter - |op.steps|)
    {
      left := crashAfter;
      ghost var start, done: seq<Disk> := View(), [];
      ghost var whole := RecoverPhase(start, names, dispositions);
      assert names[0..] == names && [] + whole.steps == whole.steps;
      for i := 0 to |names|
        invariant Along(start, whole, done, View(), RecoverPhase(View(), names[i..], dispositions), crashAfter, left)
      {
        assert names[i..][1..] == names[i + 1..];
        ghost var one := RecoverListed(View(), names[i], dispositions);
        ghost var rest := RecoverPhase(End(View(), one.steps), names[i + 1..], dispositions);
        PhaseUnfolds(View(), names[i..], dispositions);
        AlongOne(start, whole, done, View(), one, rest, crashAfter, left);
        outcome, left := RecoverListedJournal(names[i], dispositions, left);
        if outcome.Crashed? || outcome.answer.Failure? {
          return;
        }
        done := done + one.steps;
      }
      AlongDone(start, whole, done, View(), RecoverPhase(View(), names[|names|..], dispositions), crashAfter, left);
      return Returned(Success(())), left;
    }

    /** The closing pass over the record files. */
    method CheckRecordFiles(names: seq<RecordId>) returns (error: Option<StoreError>)
      ensures error == CheckRecords(View(), names)
    {
      assert names[0..] == names;
      for i := 0 to |names|
        invariant CheckRecords(View(), names) == CheckRecords(View(), names[i..])
      {
        assert names[i..][1..] == names[i + 1..];
        if names[i] in records {
          if names[i] !in journals {
            return Some(OrphanRecord);
          }
          var loaded := LoadIfPresent(View(), names[i]);
          if loaded.Failure? {
            return Some(loaded.error);
          }
        }
      }
      return None;
    }

    /** Reviewer results and other records first, dispositions after them. */
    method RecoverLocked(names: seq<RecordId>, crashAfter: nat) returns (outcome: Outcome<()>, left: nat)
      modifies this
      ensures var op := Recover(old(View()), names);
              && View() == After(old(View()), op.steps, crashAfter)
              && outcome == (if crashAfter < |op.steps| then Crashed else Returned(op.answer))
              && (outcome.Returned? ==> left == crashAfter - |op.steps|)
    {
      left := crashAfter;
      if !JournalsBelong(View(), names) {
        return Returned(Failure(Malformed)), left;
      }
      outcome, left := RecoverBothPhases(names, left);
      if outcome.Crashed? || outcome.answer.Failure? {
        return;
      }
      var error := CheckRecordFiles(names);
      if error.Some? {
        return Returned(Failure(error.value)), left;
      }
      return Returned(Success(())), left;
    }

    method RecoverBothPhases(names: seq<RecordId>, crashAfter: nat) returns (outcome: Outcome<()>, left: nat)
      modifies this
      ensures var op := BothPhases(old(View()), names);
              && View() == After(old(View()), op.steps, crashAfter)
              && outcome == (if crashAfter < |op.steps| then Crashed else Returned(op.answer))
              && (outcome.Returned? ==> left == crashAfter - |op.steps|)
    {
      ghost var start, whole := View(), BothPhases(View(), names);
      ghost var first := RecoverPhase(start, names, false);
      ghost var second := RecoverPhase(End(start, first.steps), names, true);
      assert [] + whole.steps == whole.steps;
      AlongOne(start, whole, [], start, first, second, crashAfter, crashAfter);
      outcome, left := RecoverJournals(names, false, crashAfter);
      if outcome.Crashed? || outcome.answer.Failure? {
        return;
      }
      AlongEnd(start, whole, first.steps, View(), second, crashAfter, left);
      outcome, left := RecoverJournals(names, true, left);
    }

    method SaveRecord(names: seq<RecordId>, record: Record, crashAfter: nat) returns (outcome: Outcome<RecordId>)
      modifies this
      ensures var op := Save(old(View()), names, record);
              && View() == After(old(View()), op.steps, crashAfter)
              && outcome == if crashAfter < |op.steps| then Crashed else Returned(op.answer)
    {
      if !Decodes(record) {
        return Returned(Failure(Malformed));
      }
      ghost var start := View();
      ghost var recovery := Recover(start, names).steps;
      var recovered, left := RecoverLocked(names, crashAfter);
      AfterConcat(start, recovery, SaveRecovered(End(start, recovery), record).steps, crashAfter);
      if recovered.Crashed? {
        return Crashed;
      }
      if recovered.answer.Failure? {
        return Returned(Failure(recovered.answer.error));
      }
      outcome := SaveAfterRecovery(record, left);
    }

    method SaveAfterRecovery(record: Record, crashAfter: nat) returns (outcome: Outcome<RecordId>)
      modifies this
      ensures var op := SaveRecovered(old(View()), record);
              && View() == After(old(View()), op.steps, crashAfter)
              && outcome == if crashAfter < |op.steps| then Crashed else Returned(op.answer)
    {
      var id, left := IdOf(record), crashAfter;
      var error := RecordBindingError(View(), record);
      if error.Some? {
        return Returned(Failure(error.value));
      }
      var existing := LoadIfPresent(View(), id);
      if existing.Failure? {
        return Returned(Failure(existing.error));
      }
      if existing.value.Some? {
        return Returned(if existing.value.value == record then Success(id) else Failure(Conflict));
      }
      if id in journals {
        if !JournalBelongs(View(), id) {
          return Returned(Failure(Malformed));
        }
        if journals[id].record != record {
          return Returned(Failure(Conflict));
        }
      } else {
        if left == 0 { return Crashed; }
        journals := journals[id := Journal(false, record)];
        left := left - 1;
      }
      if left == 0 { return Crashed; }
      records := records[id := record];
      if left == 1 { return Crashed; }
      journals := journals[id := Journal(true, record)];
      return Returned(Success(id));
    }
  }
}
