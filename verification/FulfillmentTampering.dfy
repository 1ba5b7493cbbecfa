/** Which disks the recovery of the fulfillment log accepts, consistent ones or not. */
module FulfillmentTampering {
  import opened Wrappers
  import opened FulfillmentRecords
  import opened FulfillmentStore
  import opened FulfillmentRecovery

  /** The record file is missing, or holds at least one line and only lines that continue the chain. */
  ghost predicate RecordsFine(d: Disk) {
    && (d.records.Absent? || (d.records.Present? && d.records.value != []))
    && ValidLog(Lines(d.records))
  }

  /** The head file names the number of lines and the hash of the last one; without lines it may be missing. */
  predicate HeadNamesLast(d: Disk) {
    var lines := Lines(d.records);
    if lines == [] then d.head == Absent || d.head == Present(Head(0, Zeros))
    else d.head == Present(Head(lines[|lines| - 1].sequence, lines[|lines| - 1].entryDigest))
  }

  lemma HeadNamesLastIff(d: Disk)
    ensures HeadNamesLast(d) <==> HeadAt(d.head, Lines(d.records))
  {
  }

  lemma RecordsFineIff(d: Disk)
    ensures ReadRecordsFile(d.records).Success? <==> RecordsFine(d)
    ensures RecordsFine(d) ==>
              ReadRecordsFile(d.records) == Success(Records(Lines(d.records)))
              && ActualHead(Lines(d.records)).count == |Lines(d.records)|
              && (Lines(d.records) == [] <==> ActualHead(Lines(d.records)) == Head(0, Zeros))
  {
    AcceptedIffValid(Lines(d.records));
    if RecordsFine(d) {
      LogLength(Lines(d.records));
    }
  }

  /**
   Without a journal, recovery accepts a disk exactly if the record file is fine and the head file names its last
   line. It never writes then, and answers the records of the file.
   */
  lemma QuietAcceptedIff(d: Disk)
    requires d.journal.Absent?
    ensures Recover(d).steps == []
    ensures Recover(d).answer.Success? <==> RecordsFine(d) && HeadNamesLast(d)
    ensures Recover(d).answer.Success? ==> Recover(d).answer.value == Records(Lines(d.records))
    ensures RecordsFine(d) && (d.head.Present? ==> d.head.value.count >= 0) && !d.head.Garbled? && !HeadNamesLast(d) ==>
              Recover(d).answer == Failure(TamperedHeadOrRecords)
  {
    RecordsFineIff(d);
    HeadNamesLastIff(d);
  }

  /** The head file admits one log only: whatever else is put in the record file is refused. */
  lemma HeadFixesLog(d: Disk, file: File<seq<Envelope>>)
    requires d.journal.Absent? && Recover(d).answer.Success?
    requires Recover(d.(records := file)).answer.Success?
    ensures Lines(file) == Lines(d.records)
  {
    var e := d.(records := file);
    QuietAcceptedIff(d);
    QuietAcceptedIff(e);
    RecordsFineIff(d);
    RecordsFineIff(e);
    LastHashFixesLog(Lines(e.records), Lines(d.records));
  }

  /** The record file cut down to its first `n` lines; to no lines at all is no file. */
  function Truncated(d: Disk, n: nat): Disk
    requires n <= |Lines(d.records)|
  {
    d.(records := if n == 0 then Absent else Present(Lines(d.records)[..n]))
  }

  /** A record file that lost its last lines is refused, and stays as it is. */
  lemma TruncationIsRefused(d: Disk, n: nat)
    requires d.journal.Absent? && Recover(d).answer.Success? && n < |Lines(d.records)|
    ensures Recover(Truncated(d, n)) == Operation([], Failure(TamperedHeadOrRecords))
  {
    var t := Truncated(d, n);
    QuietAcceptedIff(d);
    ValidPrefix(Lines(d.records), n);
    if Recover(t).answer.Success? {
      HeadFixesLog(d, t.records);
      assert false;
    }
    QuietAcceptedIff(t);
    RecordsFineIff(d);
    assert d.head.Present? && d.head.value.count >= 0;
  }

  /** The prepared journal's entry is the last line already, whatever readable head there is. */
  ghost predicate ReachedFile(d: Disk) {
    var lines := Lines(d.records);
    && d.journal.Present? && d.journal.value.prepared
    && lines != [] && lines[|lines| - 1] == d.journal.value.envelope
    && (d.head.Absent? || (d.head.Present? && d.head.value.count >= 0))
  }

  lemma SameEntry(a: Envelope, b: Envelope)
    requires SelfConsistent(a) && SelfConsistent(b) && HeadOf(a) == HeadOf(b)
    ensures a == b
  {
  }

  lemma ReplayOfLast(d: Disk)
    requires RecordsFine(d) && d.journal.Present? && d.journal.value.prepared
             && SelfConsistent(d.journal.value.envelope)
    requires Lines(d.records) != [] && HeadOf(d.journal.value.envelope) == ActualHead(Lines(d.records))
    ensures Lines(d.records)[|Lines(d.records)| - 1] == d.journal.value.envelope
  {
    var lines := Lines(d.records);
    LastLine(lines);
    SameEntry(lines[|lines| - 1], d.journal.value.envelope);
  }

  lemma ReplayAcceptedIff(d: Disk)
    requires RecordsFine(d) && ReadHeadFile(d.head).Success? && d.journal.Present?
    ensures Recover(d).answer.Success? <==> Announced(d) || ReachedFile(d)
  {
    var lines, journal := Lines(d.records), d.journal.value;
    var envelope, records := journal.envelope, Records(lines);
    RecordsFineIff(d);
    if lines != [] {
      LastLine(lines);
    }
    if journal.prepared && SelfConsistent(envelope) {
      var found := Find(records, envelope.record.id);
      if found.Some? {
        assert lines != [];
        if HeadOf(envelope) == ActualHead(lines) {
          ReplayOfLast(d);
        }
        if Announced(d) {
          NewLine(lines, envelope);
        }
      } else {
        LineErrorIff(lines, envelope);
        HeadNamesLastIff(d);
      }
    } else if Announced(d) {
      NewLine(lines, envelope);
    }
  }

  /**
   Recovery accepts exactly these disks: a fine record file without a journal whose last line the head names, one
   that a prepared journal goes on from, and one whose last line is the journal's own. In the last case alone it
   does not compare the head file with anything.
   */
  lemma RecoveryAcceptedIff(d: Disk)
    ensures Recover(d).answer.Success? <==>
            RecordsFine(d) && (Quiet(d) || Announced(d) || ReachedFile(d))
  {
    RecordsFineIff(d);
    HeadNamesLastIff(d);
    match d.journal
    case Absent => QuietAcceptedIff(d);
    case Garbled =>
    case Present(_) =>
      if RecordsFine(d) {
        if ReadHeadFile(d.head).Success? {
          ReplayAcceptedIff(d);
        } else {
          LogLength(Lines(d.records));
        }
      }
  }

  /** So a disk that recovery accepts is a consistent one, or one whose head the crash cannot have left behind. */
  lemma AcceptedIsConsistent(d: Disk)
    requires Recover(d).answer.Success?
    ensures Consistent(d) <==>
            var lines := Lines(d.records);
            d.journal.Absent? || HeadAt(d.head, lines) || (ReachedFile(d) && HeadAt(d.head, lines[..|lines| - 1]))
  {
    RecoveryAcceptedIff(d);
  }
}
