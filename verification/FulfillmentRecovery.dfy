/** Crash safety of the fulfillment log, over single calls and over whole runs. */
module FulfillmentRecovery {
  import opened Wrappers
  import opened Durability
  import opened Evidence
  import opened FulfillmentRecords
  import opened FulfillmentStore

  /** The head file describes `lines`; before the first append there is no head file. */
  ghost predicate HeadAt(head: File<Head>, lines: seq<Envelope>) {
    head == Present(ActualHead(lines)) || (head.Absent? && lines == [])
  }

  ghost predicate Quiet(d: Disk) {
    d.journal.Absent? && HeadAt(d.head, Lines(d.records))
  }

  /** A journal announces a record that has not reached the record file. */
  ghost predicate Announced(d: Disk) {
    && d.journal.Present? && d.journal.value.prepared
    && HeadAt(d.head, Lines(d.records))
    && ValidLog(Lines(d.records) + [d.journal.value.envelope])
  }

  /** The announced record is the last one in the file; head and journal may still be behind. */
  ghost predicate Landed(d: Disk) {
    var lines := Lines(d.records);
    && d.journal.Present? && d.journal.value.prepared
    && lines != [] && lines[|lines| - 1] == d.journal.value.envelope
    && (HeadAt(d.head, lines) || HeadAt(d.head, lines[..|lines| - 1]))
  }

  ghost predicate Consistent(d: Disk) {
    && (d.records.Absent? || (d.records.Present? && d.records.value != []))
    && ValidLog(Lines(d.records))
    && (Quiet(d) || Announced(d) || Landed(d))
  }

  /** The log that the next recovery returns: the record file and the record still only announced. */
  function Durable(d: Disk): seq<Envelope> {
    var lines := Lines(d.records);
    if d.journal.Present? && d.journal.value.envelope.sequence == |lines| + 1
    then lines + [d.journal.value.envelope]
    else lines
  }

  lemma LastLine(lines: seq<Envelope>)
    requires ValidLog(lines) && lines != []
    ensures var last := lines[|lines| - 1];
            SelfConsistent(last) && last.sequence == |lines|
              && Find(Records(lines), last.record.id) == Some(last.record)
  {
    assert Linked(lines, |lines| - 1);
    FindUnique(Records(lines), |lines| - 1);
  }

  lemma NewLine(lines: seq<Envelope>, line: Envelope)
    requires ValidLog(lines) && ValidLog(lines + [line])
    ensures SelfConsistent(line) && line.sequence == |lines| + 1 && line.previous == ActualHead(lines).digest
    ensures Find(Records(lines), line.record.id).None? && SupersedesError(line.record, Records(lines)).None?
    ensures Records(lines + [line]) == Records(lines) + [line.record]
  {
    LineErrorIff(lines, line);
  }

  lemma LogLength(lines: seq<Envelope>)
    requires ValidLog(lines)
    ensures ActualHead(lines).count == |lines|
    ensures lines == [] <==> ActualHead(lines) == Head(0, Zeros)
  {
    if lines != [] {
      LastLine(lines);
    }
  }

  lemma ReadsBack(d: Disk)
    requires Consistent(d)
    ensures ReadRecordsFile(d.records) == Success(Records(Lines(d.records)))
    ensures ActualHead(Lines(d.records)).count == |Lines(d.records)|
  {
    AcceptedIffValid(Lines(d.records));
    LogLength(Lines(d.records));
  }

  lemma RecoverQuiet(d: Disk, records: seq<Record>)
    requires ReadRecordsFile(d.records) == Success(records)
    requires Quiet(d) && ActualHead(Lines(d.records)).count == |Lines(d.records)|
    ensures Recover(d) == Operation([], Success(records)) && Durable(d) == Lines(d.records)
  {
  }

  lemma RecoverLanded(d: Disk, records: seq<Record>)
    requires ReadRecordsFile(d.records) == Success(records)
    requires Landed(d)
    requires var last := d.journal.value.envelope;
             SelfConsistent(last) && last.sequence == |Lines(d.records)|
               && Find(records, last.record.id) == Some(last.record)
    requires forall n :: 0 <= n <= |Lines(d.records)| ==> ActualHead(Lines(d.records)[..n]).count == n
    ensures Recover(d) == Operation(Settle(d, ActualHead(Lines(d.records))), Success(records))
    ensures Durable(d) == Lines(d.records)
  {
    var lines := Lines(d.records);
    assert lines[..|lines|] == lines;
    assert ActualHead(lines[..|lines| - 1]).count >= 0;
    assert ReadHeadFile(d.head).Success?;
  }

  lemma RecoverAnnounced(d: Disk, records: seq<Record>)
    requires ReadRecordsFile(d.records) == Success(records)
    requires d.journal.Present? && d.journal.value.prepared && HeadAt(d.head, Lines(d.records))
    requires var lines, line := Lines(d.records), d.journal.value.envelope;
             && SelfConsistent(line) && line.sequence == |lines| + 1 && line.previous == ActualHead(lines).digest
             && Find(records, line.record.id).None? && SupersedesError(line.record, records).None?
             && ActualHead(lines).count == |lines|
    ensures var lines, line := Lines(d.records), d.journal.value.envelope;
            var appended := d.(records := Present(lines + [line]));
            && Recover(d) == Operation([appended] + Settle(appended, HeadOf(line)), Success(records + [line.record]))
            && Durable(d) == lines + [line]
  {
  }

  /** The shape of a landed append: what the journal's envelope says about the record file. */
  lemma LandedFacts(d: Disk)
    requires ValidLog(Lines(d.records)) && Landed(d)
    ensures var last, lines := d.journal.value.envelope, Lines(d.records);
            && SelfConsistent(last) && last.sequence == |lines|
            && Find(Records(lines), last.record.id) == Some(last.record)
            && forall n :: 0 <= n <= |lines| ==> ActualHead(lines[..n]).count == n
  {
    var lines := Lines(d.records);
    LastLine(lines);
    forall n | 0 <= n <= |lines|
      ensures ActualHead(lines[..n]).count == n
    {
      ValidPrefix(lines, n);
      LogLength(lines[..n]);
    }
  }

  /** Recovery answers the durable log; its writes are those of `Settle`, after the append if that is missing. */
  lemma RecoverCases(d: Disk)
    requires Consistent(d)
    ensures var op, lines := Recover(d), Durable(d);
            var appended := d.(records := Present(lines));
            && op.answer == Success(Records(lines))
            && (Quiet(d) ==> op.steps == [] && lines == Lines(d.records))
            && (Landed(d) ==> op.steps == Settle(d, ActualHead(lines)) && lines == Lines(d.records))
            && (Announced(d) ==> op.steps == [appended] + Settle(appended, ActualHead(lines))
                                 && lines == Lines(d.records) + [d.journal.value.envelope])
  {
    ReadsBack(d);
    var records := Records(Lines(d.records));
    if Quiet(d) {
      RecoverQuiet(d, records);
    } else if Landed(d) {
      LandedFacts(d);
      RecoverLanded(d, records);
    } else {
      NewLine(Lines(d.records), d.journal.value.envelope);
      RecoverAnnounced(d, records);
    }
    if Landed(d) {
      LandedFacts(d);
      if Announced(d) {
        NewLine(Lines(d.records), d.journal.value.envelope);
        assert false;
      }
    }
  }

  /** The states after the record file is complete: head written or not, journal removed or not. */
  lemma SettleStates(d: Disk, last: Envelope)
    requires d.records.Present? && d.records.value != [] && d.records.value[|d.records.value| - 1] == last
    requires ValidLog(d.records.value) && d.journal == Present(Journal(true, last))
    ensures var settle := Settle(d, HeadOf(last));
            && Consistent(settle[0]) && Durable(settle[0]) == d.records.value
            && Consistent(settle[1]) && Quiet(settle[1]) && Durable(settle[1]) == d.records.value
    ensures HeadAt(d.head, d.records.value) || HeadAt(d.head, d.records.value[..|d.records.value| - 1]) ==>
              Consistent(d) && Durable(d) == d.records.value
  {
    LastLine(d.records.value);
    assert Landed(Settle(d, HeadOf(last))[0]);
    assert Quiet(Settle(d, HeadOf(last))[1]);
  }

  lemma SettleCrash(d: Disk, last: Envelope, k: nat)
    requires d.records.Present? && d.records.value != [] && d.records.value[|d.records.value| - 1] == last
    requires ValidLog(d.records.value) && d.journal == Present(Journal(true, last))
    requires HeadAt(d.head, d.records.value) || HeadAt(d.head, d.records.value[..|d.records.value| - 1])
    ensures var crashed := After(d, Settle(d, HeadOf(last)), k);
            Consistent(crashed) && Durable(crashed) == d.records.value && (k >= 2 ==> Quiet(crashed))
  {
    SettleStates(d, last);
  }

  lemma ReplayCrash(d: Disk, line: Envelope, k: nat)
    requires 0 < k && d.journal == Present(Journal(true, line))
    requires HeadAt(d.head, Lines(d.records)) && ValidLog(Lines(d.records) + [line])
    ensures var lines := Lines(d.records) + [line];
            var appended := d.(records := Present(lines));
            var crashed := After(d, [appended] + Settle(appended, HeadOf(line)), k);
            Consistent(crashed) && Durable(crashed) == lines && (k >= 3 ==> Quiet(crashed))
  {
    var lines := Lines(d.records) + [line];
    var appended := d.(records := Present(lines));
    assert lines[..|lines| - 1] == Lines(d.records);
    AfterConcat(d, [appended], Settle(appended, HeadOf(line)), k);
    SettleCrash(appended, line, k - 1);
  }

  /** Every crash point of recovery is consistent and holds the same durable log. */
  lemma RecoveryStates(d: Disk, k: nat)
    requires Consistent(d)
    ensures var op, crashed := Recover(d), After(d, Recover(d).steps, k);
            && Consistent(crashed) && Durable(crashed) == Durable(d)
            && (k >= |op.steps| ==> Quiet(crashed))
  {
    RecoverCases(d);
    if Landed(d) {
      SettleCrash(d, d.journal.value.envelope, k);
    } else if Announced(d) && k > 0 {
      ReplayCrash(d, d.journal.value.envelope, k);
    }
  }

  /** Recovery always succeeds, loses nothing at any crash point, and leaves nothing to recover. */
  lemma RecoverySucceeds(d: Disk, k: nat)
    requires Consistent(d)
    ensures var op, crashed := Recover(d), After(d, Recover(d).steps, k);
            && op.answer == Success(Records(Durable(d)))
            && Consistent(crashed) && Recover(crashed).answer == op.answer
            && (k >= |op.steps| ==> crashed.journal.Absent? && HeadAt(crashed.head, Lines(crashed.records))
                                    && Recover(crashed).steps == [])
  {
    RecoverCases(d);
    RecoveryStates(d, k);
    RecoverCases(After(d, Recover(d).steps, k));
  }

  /** The record is new and supersedes nothing it may not supersede. */
  predicate Accepts(lines: seq<Envelope>, record: Record) {
    Find(Records(lines), record.id).None? && SupersedesError(record, Records(lines)).None?
  }

  /** The four writes of an accepted append, from the first one on. */
  lemma WritesStayConsistent(d: Disk, record: Record, k: nat)
    requires d.records.Absent? || (d.records.Present? && d.records.value != [])
    requires HeadAt(d.head, Lines(d.records)) && ValidLog(Lines(d.records)) && Accepts(Lines(d.records), record)
             && 0 < k
    ensures var crashed := After(d, AppendWrites(d, record), k);
            && Consistent(crashed)
            && Durable(crashed) == Lines(d.records) + [NextEnvelope(Lines(d.records), record)]
            && (k >= 4 ==> Quiet(crashed))
  {
    var lines := Lines(d.records);
    var envelope := NextEnvelope(lines, record);
    var announced := d.(journal := Present(Journal(true, envelope)));
    ExtensionAccepted(lines, record);
    if k == 1 {
      AnnouncedState(announced, envelope);
    } else {
      ReplayCrash(announced, envelope, k - 1);
      AppendWritesReplay(d, record, k);
    }
  }

  /** After its first write an append does exactly what replaying its journal would do. */
  lemma AppendWritesReplay(d: Disk, record: Record, k: nat)
    requires 1 < k
    ensures var line := NextEnvelope(Lines(d.records), record);
            var announced := d.(journal := Present(Journal(true, line)));
            var appended := announced.(records := Present(Lines(d.records) + [line]));
            After(d, AppendWrites(d, record), k) == After(announced, [appended] + Settle(appended, HeadOf(line)), k - 1)
  {
  }

  lemma AnnouncedState(d: Disk, line: Envelope)
    requires d.records.Absent? || (d.records.Present? && d.records.value != [])
    requires d.journal == Present(Journal(true, line)) && HeadAt(d.head, Lines(d.records))
    requires ValidLog(Lines(d.records)) && ValidLog(Lines(d.records) + [line])
    ensures Consistent(d) && Durable(d) == Lines(d.records) + [line]
  {
    NewLine(Lines(d.records), line);
  }

  lemma RecordsSnoc(lines: seq<Envelope>, line: Envelope)
    ensures Records(lines + [line]) == Records(lines) + [line.record]
  {
  }

  /** An append recovers first and then works on the durable log. */
  lemma AppendCases(d: Disk, record: Record)
    requires Consistent(d)
    ensures var settled := End(d, Recover(d).steps);
            && Consistent(settled) && Quiet(settled) && Lines(settled.records) == Durable(d)
            && Append(d, record) == AppendTo(d, Recover(d).steps, Records(Durable(d)), record)
  {
    RecoveryStates(d, |Recover(d).steps|);
    SettledLines(d);
    RecoverySucceeds(d, 0);
  }

  lemma SettledLines(d: Disk)
    requires Consistent(d)
    ensures Lines(End(d, Recover(d).steps).records) == Durable(d)
  {
    RecoverCases(d);
  }

  /**
   After a crash at any point of an append, recovery returns the old log or the old log plus the
   record; it returns the record exactly when the journal had been written.
   */
  lemma AppendIsAtomic(d: Disk, record: Record, k: nat)
    requires Consistent(d)
    ensures var crashed := After(d, Append(d, record).steps, k);
            var added := if Accepts(Durable(d), record) && k > |Recover(d).steps| then [record] else [];
            && Consistent(crashed)
            && Recover(crashed).answer == Success(Records(Durable(d)) + added)
            && (k >= |Append(d, record).steps| ==> crashed.journal.Absent?)
  {
    var steps, settled := Recover(d).steps, End(d, Recover(d).steps);
    AppendCases(d, record);
    RecoveryStates(d, k);
    assert Records(Durable(d)) + [] == Records(Durable(d));
    if Accepts(Durable(d), record) {
      AfterConcat(d, steps, AppendWrites(settled, record), k);
      if k > |steps| {
        AppendCrash(d, settled, steps, record, k);
      }
    }
    RecoverySucceeds(After(d, Append(d, record).steps, k), 0);
  }

  /** A crash inside the writes that follow recovery. */
  lemma AppendCrash(d: Disk, settled: Disk, steps: seq<Disk>, record: Record, k: nat)
    requires settled == End(d, steps) && |steps| < k
    requires settled.records.Absent? || (settled.records.Present? && settled.records.value != [])
    requires HeadAt(settled.head, Lines(settled.records)) && ValidLog(Lines(settled.records))
    requires Accepts(Lines(settled.records), record)
    ensures var crashed := After(d, steps + AppendWrites(settled, record), k);
            && Consistent(crashed)
            && Records(Durable(crashed)) == Records(Lines(settled.records)) + [record]
            && (k >= |steps| + 4 ==> Quiet(crashed))
  {
    AfterConcat(d, steps, AppendWrites(settled, record), k);
    WritesStayConsistent(settled, record, k - |steps|);
    RecordsSnoc(Lines(settled.records), NextEnvelope(Lines(settled.records), record));
  }

  lemma FindsMember(records: seq<Record>, r: Record)
    requires DistinctIds(records) && r in records
    ensures Find(records, r.id) == Some(r)
  {
    var i :| 0 <= i < |records| && records[i] == r;
    FindUnique(records, i);
  }

  /** The answer of an append, from the durable records alone. */
  lemma AppendToAnswers(d: Disk, recovery: seq<Disk>, records: seq<Record>, record: Record)
    requires DistinctIds(records)
    ensures var answer := AppendTo(d, recovery, records, record).answer;
            var added := if Find(records, record.id).None? && SupersedesError(record, records).None? then [record]
              else [];
            && (answer.Success? <==> exists x <- records + added :: SameRecord(x, record))
            && (answer.Success? ==> answer.value in records + added && SameRecord(answer.value, record))
            && (answer == Success(record) <==> record in records + added)
            && (answer == Failure(RecordIdConflict) <==>
                exists other <- records :: other.id == record.id && !SameRecord(other, record))
  {
    var added := if Find(records, record.id).None? && SupersedesError(record, records).None? then [record] else [];
    forall x | x in records && x.id == record.id
      ensures Find(records, record.id) == Some(x)
    {
      FindsMember(records, x);
    }
    match Find(records, record.id)
    case Some(existing) =>
      assert existing in records + added;
      if !SameRecord(existing, record) {
        assert forall x <- records + added :: !SameRecord(x, record);
      }
    case None =>
      assert added != [] ==> record in records + added && SameRecord(record, record);
      assert forall x <- records :: !SameRecord(x, record);
  }

  /**
   An append that is not cut short succeeds exactly when recovery afterwards returns a record that Python
   equates with the appended one, and answers that record; it is the appended record itself exactly when
   recovery returns that. It reports a conflict exactly when the id is held by a record that Python does
   not equate with the appended one.
   */
  lemma AppendAnswers(d: Disk, record: Record)
    requires Consistent(d)
    ensures var answer, after := Append(d, record).answer, Recover(End(d, Append(d, record).steps)).answer;
            && after.Success?
            && (answer.Success? <==> exists x <- after.value :: SameRecord(x, record))
            && (answer.Success? ==> answer.value in after.value && SameRecord(answer.value, record))
            && (answer == Success(record) <==> record in after.value)
            && (answer == Failure(RecordIdConflict) <==>
                exists other <- Records(Durable(d)) :: other.id == record.id && !SameRecord(other, record))
  {
    var records, steps := Records(Durable(d)), Recover(d).steps;
    AppendCases(d, record);
    DurableIsValid(d);
    AppendToAnswers(d, steps, records, record);
    AppendIsAtomic(d, record, |Append(d, record).steps|);
    assert Accepts(Durable(d), record) ==> |AppendTo(d, steps, records, record).steps| == |steps| + 4;
  }

  /**
   Appending a stored record again with `1` for `True`, or the other way round, succeeds, writes nothing
   of its own and leaves the stored type: the appended record is not in the log.
   */
  lemma RetypedAppendIsDropped(d: Disk, stored: Record, record: Record)
    requires Consistent(d) && stored in Records(Durable(d)) && SameRecord(stored, record) && !SameType(stored, record)
    ensures Append(d, record) == Operation(Recover(d).steps, Success(stored))
    ensures record !in Records(Durable(d)) && Recover(End(d, Recover(d).steps)).answer == Success(Records(Durable(d)))
  {
    DurableIsValid(d);
    AppendCases(d, record);
    FindsMember(Records(Durable(d)), stored);
    SameRecordIff(stored, record);
    if record in Records(Durable(d)) {
      FindsMember(Records(Durable(d)), record);
    }
    RecoverySucceeds(d, |Recover(d).steps|);
  }

  function WithValue(r: Record, value: Value): Record {
    r.(evidence := r.evidence.(assertedValue := Some(value)))
  }

  lemma FirstAppend(record: Record)
    requires record.supersedes.None?
    ensures var d := End(EMPTY, Append(EMPTY, record).steps);
            Consistent(d) && Records(Durable(d)) == [record] && Recover(d).answer == Success([record])
  {
    var d := End(EMPTY, Append(EMPTY, record).steps);
    AppendIsAtomic(EMPTY, record, |Append(EMPTY, record).steps|);
    EmptyAccepts(record);
    assert [] + [record] == [record];
    RecoverySucceeds(d, 0);
  }

  lemma EmptyAccepts(record: Record)
    requires record.supersedes.None?
    ensures Consistent(EMPTY) && Records(Durable(EMPTY)) == [] && Accepts(Durable(EMPTY), record)
    ensures Recover(EMPTY).steps == [] && |Append(EMPTY, record).steps| == 4
  {
  }

  /**
   The dropped type is reachable with any record that supersedes nothing: from an empty store it is appended
   with `True`, then the same record with `1` succeeds and the log still holds `True`.
   */
  lemma TrueThenOne(record: Record)
    requires record.supersedes.None?
    ensures var stored, appended := WithValue(record, Flag(true)), WithValue(record, Number(1));
            var d := End(EMPTY, Append(EMPTY, stored).steps);
            && Recover(d).answer == Success([stored])
            && Append(d, appended).answer == Success(stored) != Success(appended)
  {
    var stored, appended := WithValue(record, Flag(true)), WithValue(record, Number(1));
    FirstAppend(stored);
    RetypedAppendIsDropped(End(EMPTY, Append(EMPTY, stored).steps), stored, appended);
  }

  lemma DurableIsValid(d: Disk)
    requires Consistent(d)
    ensures ValidLog(Durable(d))
  {
    RecoverCases(d);
  }

  // ----- Whole runs -----

  /** One call of the store by some process, which dies after `crashAfter` writes if the call has that many. */
  datatype Call = AppendCall(record: Record, crashAfter: nat) | RecoverCall(crashAfter: nat)

  function Perform(d: Disk, call: Call): Disk {
    match call
    case AppendCall(record, k) => After(d, Append(d, record).steps, k)
    case RecoverCall(k) => After(d, Recover(d).steps, k)
  }

  function Run(d: Disk, calls: seq<Call>): Disk
    decreases |calls|
  {
    if calls == [] then d else Run(Perform(d, calls[0]), calls[1..])
  }

  /** `after` is `before` with records added at the end, each of them passed to some append in `calls`. */
  ghost predicate Grew(before: seq<Record>, after: seq<Record>, calls: seq<Call>) {
    before <= after && forall i :: |before| <= i < |after| ==> Requested(after[i], calls)
  }

  predicate Requested(record: Record, calls: seq<Call>) {
    exists call <- calls :: call.AppendCall? && call.record == record
  }

  lemma GrewOn(a: seq<Record>, b: seq<Record>, c: seq<Record>, calls: seq<Call>)
    requires calls != [] && Grew(b, c, calls[1..])
    requires b == a || (calls[0].AppendCall? && b == a + [calls[0].record])
    ensures Grew(a, c, calls)
  {
    forall i | |a| <= i < |c|
      ensures Requested(c[i], calls)
    {
      if i < |b| {
        assert calls[0] in calls;
      } else {
        assert Requested(c[i], calls[1..]);
        var call :| call in calls[1..] && call.AppendCall? && call.record == c[i];
        assert call in calls;
      }
    }
  }

  /**
   Over any sequence of calls and crashes the log only grows at its end, by records that were
   appended, and every state can be recovered.
   */
  lemma {:induction false} RunsNeverLoseRecords(d: Disk, calls: seq<Call>)
    requires Consistent(d)
    ensures Consistent(Run(d, calls))
    ensures Recover(d).answer.Success? && Recover(Run(d, calls)).answer.Success?
    ensures Grew(Recover(d).answer.value, Recover(Run(d, calls)).answer.value, calls)
    decreases |calls|
  {
    RecoverySucceeds(d, 0);
    if calls != [] {
      var next := Perform(d, calls[0]);
      CallNeverLosesRecords(d, calls[0]);
      RunsNeverLoseRecords(next, calls[1..]);
      GrewOn(Recover(d).answer.value, Recover(next).answer.value, Recover(Run(d, calls)).answer.value, calls);
    }
  }

  lemma CallNeverLosesRecords(d: Disk, call: Call)
    requires Consistent(d)
    ensures var next := Perform(d, call);
            && Consistent(next) && Recover(d).answer.Success? && Recover(next).answer.Success?
            && (|| Recover(next).answer == Recover(d).answer
                || (call.AppendCall? && Recover(next).answer.value == Recover(d).answer.value + [call.record]))
  {
    RecoverySucceeds(d, call.crashAfter);
    if call.AppendCall? {
      AppendIsAtomic(d, call.record, call.crashAfter);
      var records := Records(Durable(d));
      assert records + [] == records;
    }
  }

  /** The store starts from an empty directory, which is consistent. */
  lemma EmptyIsConsistent()
    ensures Consistent(EMPTY) && Recover(EMPTY) == Operation([], Success([]))
  {
  }
}
