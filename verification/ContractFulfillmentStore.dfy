/** The store as a process uses it: three files replaced one at a time. */
module ContractFulfillmentStore {
  import opened Wrappers
  import opened Durability
  import opened FulfillmentRecords
  import opened FulfillmentStore

  datatype Outcome<+T> = Crashed | Returned(answer: Result<T, StoreError>)

  class ContractFulfillmentStore {
    var records: File<seq<Envelope>>
    var head: File<Head>
    var journal: File<Journal>

    ghost function View(): Disk
      reads this
    {
      Disk(records, head, journal)
    }

    constructor ()
      ensures View() == EMPTY
    {
      records, head, journal := Absent, Absent, Absent;
    }

    /** Reads the record file line by line, checking the chain as it goes. */
    method ReadRecords() returns (r: Result<seq<Record>, StoreError>)
      ensures r == ReadRecordsFile(records)
    {
      if records.Absent? {
        return Success([]);
      }
      if records.Garbled? || records.value == [] {
        return Failure(TamperedRecords);
      }
      var lines := records.value;
      var read: seq<Record> := [];
      for i := 0 to |lines|
        invariant ReadLines(lines[..i]) == Success(read) && read == Records(lines[..i])
      {
        var error := LineError(lines[..i], lines[i]);
        OneMoreLine(lines[..i], lines[i]);
        PrefixGrows(lines, i);
        if error.Some? {
          FailureSticks(lines, i + 1);
          return Failure(error.value);
        }
        read := read + [lines[i].record];
      }
      assert lines[..|lines|] == lines;
      return Success(read);
    }

    /**
     Finishes or discards what an earlier crash left behind. `crashAfter` writes land before this
     process dies; `left` is what remains of them when it survives.
     */
    method RecoverLocked(crashAfter: nat) returns (outcome: Outcome<seq<Record>>, left: nat)
      modifies this
      ensures var op := Recover(old(View()));
              && View() == After(old(View()), op.steps, crashAfter)
              && outcome == (if crashAfter < |op.steps| then Crashed else Returned(op.answer))
              && (outcome.Returned? ==> left == crashAfter - |op.steps|)
    {
      left := crashAfter;
      var read := ReadRecords();
      if read.Failure? {
        return Returned(Failure(read.error)), left;
      }
      var persisted := ReadHeadFile(head);
      if persisted.Failure? {
        return Returned(Failure(persisted.error)), left;
      }
      var lines := Lines(records);
      var actual := ActualHead(lines);
      if journal.Absent? {
        if persisted.value != Some(actual) && !(persisted.value.None? && actual.count == 0) {
          return Returned(Failure(TamperedHeadOrRecords)), left;
        }
        return Returned(Success(read.value)), left;
      }
      if journal.Garbled? || !journal.value.prepared || !SelfConsistent(journal.value.envelope) {
        return Returned(Failure(TamperedJournal)), left;
      }
      var envelope := journal.value.envelope;
      var recovered := read.value;
      var existing := Find(recovered, envelope.record.id);
      if existing.Some? {
        if !SameRecord(existing.value, envelope.record) {
          return Returned(Failure(RecordIdConflict)), left;
        }
        if HeadOf(envelope) != actual {
          return Returned(Failure(TamperedJournal)), left;
        }
      } else {
        var expected := if persisted.value.Some? then persisted.value.value else Head(0, Zeros);
        if envelope.sequence != expected.count + 1 || envelope.previous != expected.digest || actual != expected {
          return Returned(Failure(TamperedJournal)), left;
        }
        var error := SupersedesError(envelope.record, recovered);
        if error.Some? {
          return Returned(Failure(error.value)), left;
        }
        if left == 0 { return Crashed, left; }
        records := Present(lines + [envelope]);
        left := left - 1;
        recovered := recovered + [envelope.record];
        actual := HeadOf(envelope);
      }
      if left == 0 { return Crashed, left; }
      head := Present(actual);
      left := left - 1;
      if left == 0 { return Crashed, left; }
      journal := Absent;
      left := left - 1;
      return Returned(Success(recovered)), left;
    }

    method AppendRecord(record: Record, crashAfter: nat) returns (outcome: Outcome<Record>)
      modifies this
      ensures var op := Append(old(View()), record);
              && View() == After(old(View()), op.steps, crashAfter)
              && outcome == (if crashAfter < |op.steps| then Crashed else Returned(op.answer))
    {
      ghost var before := View();
      var recovery, left := RecoverLocked(crashAfter);
      if recovery.Crashed? {
        return Crashed;
      }
      if recovery.answer.Failure? {
        return Returned(Failure(recovery.answer.error));
      }
      var known := recovery.answer.value;
      var existing := Find(known, record.id);
      if existing.Some? {
        return Returned(if SameRecord(existing.value, record) then Success(existing.value)
                        else Failure(RecordIdConflict));
      }
      var error := SupersedesError(record, known);
      if error.Some? {
        return Returned(Failure(error.value));
      }
      AfterConcat(before, Recover(before).steps, AppendWrites(View(), record), crashAfter);
      var lines := Lines(records);
      var envelope := NextEnvelope(lines, record);
      if left == 0 { return Crashed; }
      journal := Present(Journal(true, envelope));
      if left == 1 { return Crashed; }
      records := Present(lines + [envelope]);
      if left == 2 { return Crashed; }
      head := Present(HeadOf(envelope));
      if left == 3 { return Crashed; }
      journal := Absent;
      return Returned(Success(record));
    }
  }

  /** The first refused line decides how reading the whole file fails. */
  lemma {:induction false} FailureSticks(lines: seq<Envelope>, n: nat)
    requires n <= |lines| && ReadLines(lines[..n]).Failure?
    ensures ReadLines(lines) == ReadLines(lines[..n])
    decreases |lines| - n
  {
    if n == |lines| {
      assert lines[..n] == lines;
    } else {
      assert lines[..n + 1][..n] == lines[..n];
      FailureSticks(lines, n + 1);
    }
  }

  /** Reading one line more. */
  lemma OneMoreLine(before: seq<Envelope>, line: Envelope)
    requires ReadLines(before).Success?
    ensures ReadLines(before + [line]) ==
            match LineError(before, line)
            case Some(e) => Failure(e)
            case None => Success(ReadLines(before).value + [line.record])
    ensures Records(before + [line]) == Records(before) + [line.record]
  {
    assert (before + [line])[..|before|] == before;
  }

  lemma PrefixGrows(lines: seq<Envelope>, i: nat)
    requires i < |lines|
    ensures lines[..i + 1] == lines[..i] + [lines[i]]
  {
  }
}
