/**
 The write-ahead log of fulfillment evidence: a hash-chained record file, a head file and a journal,
 each replaced atomically, with a process crash possible between any two replacements.
 */
module FulfillmentStore {
  import opened Wrappers
  import opened Durability
  import opened FulfillmentRecords

  /** SHA-256 over canonical JSON: two digests are equal exactly when their payloads are. */
  datatype Digest =
    | Zeros
    | PayloadDigest(record: Record)
    | EntryDigest(sequence: int, previous: Digest, payload: Digest, entry: Record)

  datatype Envelope = Envelope(
    sequence: int, previous: Digest, recordDigest: Digest, record: Record, entryDigest: Digest)

  datatype Head = Head(count: int, digest: Digest)

  datatype Journal = Journal(prepared: bool, envelope: Envelope)

  datatype Disk = Disk(records: File<seq<Envelope>>, head: File<Head>, journal: File<Journal>)

  datatype StoreError =
    | TamperedRecords | TamperedHead | TamperedJournal | TamperedHeadOrRecords
    | RecordIdConflict | SupersedesMissing | SupersedesBindingMismatch

  const EMPTY := Disk(Absent, Absent, Absent)

  function MakeEnvelope(record: Record, sequence: int, previous: Digest): Envelope {
    var digest := PayloadDigest(record);
    Envelope(sequence, previous, digest, record, EntryDigest(sequence, previous, digest, record))
  }

  predicate SelfConsistent(e: Envelope) {
    && e.sequence >= 1
    && e.recordDigest == PayloadDigest(e.record)
    && e.entryDigest == EntryDigest(e.sequence, e.previous, e.recordDigest, e.record)
  }

  function HeadOf(e: Envelope): Head {
    Head(e.sequence, e.entryDigest)
  }

  function ActualHead(lines: seq<Envelope>): Head {
    if lines == [] then Head(0, Zeros) else HeadOf(lines[|lines| - 1])
  }

  function Records(lines: seq<Envelope>): (r: seq<Record>)
    ensures |r| == |lines| && forall i :: 0 <= i < |r| ==> r[i] == lines[i].record
  {
    seq(|lines|, i requires 0 <= i < |lines| => lines[i].record)
  }

  function SupersedesError(record: Record, earlier: seq<Record>): Option<StoreError> {
    match record.supersedes
    case None => None
    case Some(id) =>
      match Find(earlier, id)
      case None => Some(SupersedesMissing)
      case Some(target) =>
        if target.binding != record.binding then Some(SupersedesBindingMismatch) else None
  }

  /** Why the line after the accepted lines `before` is refused, if it is. */
  function LineError(before: seq<Envelope>, line: Envelope): Option<StoreError> {
    if !SelfConsistent(line) then Some(TamperedRecords)
    else if line.sequence != |before| + 1 || line.previous != ActualHead(before).digest then Some(TamperedRecords)
    else if Find(Records(before), line.record.id).Some? then Some(TamperedRecords)
    else SupersedesError(line.record, Records(before))
  }

  /** Reads line after line and stops at the first one that does not continue the chain. */
  function ReadLines(lines: seq<Envelope>): Result<seq<Record>, StoreError> {
    if lines == [] then Success([])
    else
      var before, line := lines[..|lines| - 1], lines[|lines| - 1];
      var records :- ReadLines(before);
      match LineError(before, line)
      case Some(e) => Failure(e)
      case None => Success(records + [line.record])
  }

  function Lines(file: File<seq<Envelope>>): seq<Envelope> {
    if file.Present? then file.value else []
  }

  function ReadRecordsFile(file: File<seq<Envelope>>): Result<seq<Record>, StoreError> {
    match file
    case Absent => Success([])
    case Garbled => Failure(TamperedRecords)
    case Present(lines) => if lines == [] then Failure(TamperedRecords) else ReadLines(lines)
  }

  function ReadHeadFile(file: File<Head>): Result<Option<Head>, StoreError> {
    match file
    case Absent => Success(None)
    case Garbled => Failure(TamperedHead)
    case Present(head) => if head.count < 0 then Failure(TamperedHead) else Success(Some(head))
  }

  /** What a locked operation does: the disk after each of its writes, and its answer if it is not cut short. */
  datatype Operation<+T> = Operation(steps: seq<Disk>, answer: Result<T, StoreError>)

  function Recover(d: Disk): Operation<seq<Record>> {
    var lines := Lines(d.records);
    match ReadRecordsFile(d.records)
    case Failure(e) => Operation([], Failure(e))
    case Success(records) =>
      match ReadHeadFile(d.head)
      case Failure(e) => Operation([], Failure(e))
      case Success(persisted) =>
        match d.journal
        case Absent =>
          if persisted != Some(ActualHead(lines)) && !(persisted.None? && ActualHead(lines).count == 0)
          then Operation([], Failure(TamperedHeadOrRecords))
          else Operation([], Success(records))
        case Garbled => Operation([], Failure(TamperedJournal))
        case Present(journal) => Replay(d, lines, records, persisted, journal)
  }

  /** Finishes the append announced by a prepared journal. */
  function Replay(d: Disk, lines: seq<Envelope>, records: seq<Record>, persisted: Option<Head>, journal: Journal)
    : Operation<seq<Record>>
  {
    var envelope := journal.envelope;
    if !journal.prepared || !SelfConsistent(envelope) then Operation([], Failure(TamperedJournal))
    else
      match Find(records, envelope.record.id)
      case Some(existing) =>
        if !SameRecord(existing, envelope.record) then Operation([], Failure(RecordIdConflict))
        else if HeadOf(envelope) != ActualHead(lines) then Operation([], Failure(TamperedJournal))
        else Operation(Settle(d, ActualHead(lines)), Success(records))
      case None =>
        var expected := if persisted.Some? then persisted.value else Head(0, Zeros);
        if envelope.sequence != expected.count + 1 || envelope.previous != expected.digest
           || ActualHead(lines) != expected
        then Operation([], Failure(TamperedJournal))
        else
          match SupersedesError(envelope.record, records)
          case Some(e) => Operation([], Failure(e))
          case None =>
            var appended := d.(records := Present(lines + [envelope]));
            Operation([appended] + Settle(appended, HeadOf(envelope)), Success(records + [envelope.record]))
  }

  /** The last two writes of every append and replay: the head, then the journal's removal. */
  function Settle(d: Disk, head: Head): seq<Disk> {
    [d.(head := Present(head)), d.(head := Present(head), journal := Absent)]
  }

  function Append(d: Disk, record: Record): Operation<Record> {
    var recovery := Recover(d);
    match recovery.answer
    case Failure(e) => Operation(recovery.steps, Failure(e))
    case Success(records) => AppendTo(d, recovery.steps, records, record)
  }

  function AppendTo(d: Disk, recovery: seq<Disk>, records: seq<Record>, record: Record): Operation<Record> {
    match Find(records, record.id)
    case Some(existing) =>
      Operation(recovery, if SameRecord(existing, record) then Success(existing) else Failure(RecordIdConflict))
    case None =>
      match SupersedesError(record, records)
      case Some(e) => Operation(recovery, Failure(e))
      case None => Operation(recovery + AppendWrites(End(d, recovery), record), Success(record))
  }

  function NextEnvelope(lines: seq<Envelope>, record: Record): Envelope {
    MakeEnvelope(record, |lines| + 1, ActualHead(lines).digest)
  }

  /** Journal, record file, head, journal removal. */
  function AppendWrites(d: Disk, record: Record): seq<Disk> {
    var lines := Lines(d.records);
    var envelope := NextEnvelope(lines, record);
    var announced := d.(journal := Present(Journal(true, envelope)));
    var appended := announced.(records := Present(lines + [envelope]));
    [announced, appended] + Settle(appended, HeadOf(envelope))
  }

  // ----- What an accepted record file is -----

  predicate Linked(lines: seq<Envelope>, i: nat)
    requires i < |lines|
  {
    && SelfConsistent(lines[i])
    && lines[i].sequence == i + 1
    && lines[i].previous == if i == 0 then Zeros else lines[i - 1].entryDigest
  }

  ghost predicate Chained(lines: seq<Envelope>) {
    forall i: nat :: i < |lines| ==> Linked(lines, i)
  }

  /** Record `i` supersedes the earlier record `j`, which speaks about the same contract. */
  predicate Supersedes(records: seq<Record>, i: int, j: int)
    requires 0 <= i < |records| && 0 <= j < |records|
  {
    j < i && records[i].supersedes == Some(records[j].id) && records[i].binding == records[j].binding
  }

  ghost predicate SupersedesBackward(records: seq<Record>) {
    forall i :: 0 <= i < |records| && records[i].supersedes.Some? ==>
      exists j :: 0 <= j < i && Supersedes(records, i, j)
  }

  ghost predicate ValidLog(lines: seq<Envelope>) {
    Chained(lines) && DistinctIds(Records(lines)) && SupersedesBackward(Records(lines))
  }

  lemma RecordsOfPrefix(lines: seq<Envelope>, n: nat)
    requires n <= |lines|
    ensures Records(lines[..n]) == Records(lines)[..n]
  {
  }

  /** A line continues the chain exactly when the extended log is chained. */
  lemma ChainedIff(before: seq<Envelope>, line: Envelope)
    requires Chained(before)
    ensures Chained(before + [line]) <==>
            SelfConsistent(line) && line.sequence == |before| + 1 && line.previous == ActualHead(before).digest
  {
    var lines := before + [line];
    assert Linked(lines, |before|) <==>
           SelfConsistent(line) && line.sequence == |before| + 1 && line.previous == ActualHead(before).digest;
    forall i: nat | i < |before|
      ensures Linked(lines, i)
    {
      assert Linked(before, i);
    }
  }

  /** A record may follow `earlier` exactly when supersession still points backward within one binding. */
  lemma SupersedesIff(earlier: seq<Record>, record: Record)
    requires DistinctIds(earlier) && SupersedesBackward(earlier)
    ensures SupersedesError(record, earlier).None? <==> SupersedesBackward(earlier + [record])
  {
    var records, n := earlier + [record], |earlier|;
    forall i | 0 <= i < n && records[i].supersedes.Some?
      ensures exists j :: 0 <= j < i && Supersedes(records, i, j)
    {
      var j :| 0 <= j < i && Supersedes(earlier, i, j);
      assert Supersedes(records, i, j);
    }
    if record.supersedes.Some? {
      if SupersedesError(record, earlier).None? {
        var j :| 0 <= j < n && earlier[j] == Find(earlier, record.supersedes.value).value;
        assert Supersedes(records, n, j);
      }
      if SupersedesBackward(records) {
        assert records[n].supersedes.Some?;
        var j :| 0 <= j < n && Supersedes(records, n, j);
        FindUnique(earlier, j);
      }
    }
  }

  /** The line check accepts a line exactly when the extended log is valid. */
  lemma LineErrorIff(before: seq<Envelope>, line: Envelope)
    requires ValidLog(before)
    ensures LineError(before, line).None? <==> ValidLog(before + [line])
  {
    var earlier := Records(before);
    assert Records(before + [line]) == earlier + [line.record];
    ChainedIff(before, line);
    SupersedesIff(earlier, line.record);
    assert DistinctIds(earlier + [line.record]) <==> Find(earlier, line.record.id).None? by {
      var records := earlier + [line.record];
      assert records[|earlier|] == line.record;
      if Find(earlier, line.record.id).Some? {
        var j :| 0 <= j < |earlier| && earlier[j] == Find(earlier, line.record.id).value;
        assert records[j].id == records[|earlier|].id;
      }
    }
  }

  lemma ValidPrefix(lines: seq<Envelope>, n: nat)
    requires ValidLog(lines) && n <= |lines|
    ensures ValidLog(lines[..n])
  {
    var records, prefix := Records(lines), Records(lines[..n]);
    forall i: nat | i < n
      ensures Linked(lines[..n], i)
    {
      assert Linked(lines, i);
    }
    forall i | 0 <= i < n && prefix[i].supersedes.Some?
      ensures exists j :: 0 <= j < i && Supersedes(prefix, i, j)
    {
      assert records[i].supersedes.Some?;
      var j :| 0 <= j < i && Supersedes(records, i, j);
      assert Supersedes(prefix, i, j);
    }
  }

  /** The reader accepts exactly the valid logs, and returns their records in order. */
  lemma {:induction false} AcceptedIffValid(lines: seq<Envelope>)
    ensures ReadLines(lines).Success? <==> ValidLog(lines)
    ensures ReadLines(lines).Success? ==> ReadLines(lines).value == Records(lines)
  {
    if lines == [] {
    } else {
      var before, line := lines[..|lines| - 1], lines[|lines| - 1];
      assert before + [line] == lines;
      AcceptedIffValid(before);
      if ValidLog(lines) {
        ValidPrefix(lines, |before|);
      }
      if ValidLog(before) {
        LineErrorIff(before, line);
      }
      RecordsOfPrefix(lines, |before|);
    }
  }

  /** Appending one well-chained record to an accepted log gives an accepted log. */
  lemma ExtensionAccepted(lines: seq<Envelope>, record: Record)
    requires ValidLog(lines)
    requires Find(Records(lines), record.id).None? && SupersedesError(record, Records(lines)).None?
    ensures ValidLog(lines + [NextEnvelope(lines, record)])
  {
    LineErrorIff(lines, NextEnvelope(lines, record));
  }

  /** The entry hash of the last line fixes the whole log. */
  lemma {:induction false} LastHashFixesLog(a: seq<Envelope>, b: seq<Envelope>)
    requires ReadLines(a).Success? && ReadLines(b).Success?
    requires ActualHead(a).digest == ActualHead(b).digest
    ensures a == b
  {
    AcceptedIffValid(a);
    AcceptedIffValid(b);
    if a != [] && b != [] {
      var n := |a| - 1;
      assert a[n].sequence == b[n].sequence;
      if n == 0 {
      } else {
        LastHashFixesLog(a[..n], b[..n]);
      }
      assert a == a[..n] + [a[n]] && b == b[..n] + [b[n]];
    }
  }
}
