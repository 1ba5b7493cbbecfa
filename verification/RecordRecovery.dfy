/** Crash safety of the record store: atomic saves, recovery, and references that never dangle. */
module RecordRecovery {
  import opened Wrappers
  import opened Durability
  import opened Review
  import opened RecordStore

  predicate Committed(d: Disk, id: RecordId) {
    id in d.journals && d.journals[id].committed
  }

  predicate Pending(d: Disk, id: RecordId) {
    id in d.journals && !d.journals[id].committed
  }

  /** The disposition decides an issue of the committed reviewer result `id`. */
  ghost predicate BoundTo(d: Disk, x: Disposition, id: RecordId) {
    && Committed(d, id) && d.journals[id].record.ReviewOf?
    && var review := d.journals[id].record.result;
       && review.body.resultId == x.resultId && review.hash == x.resultHash
       && exists issue <- review.body.issues :: AboutIssue(x, issue)
  }

  ghost predicate Bound(d: Disk, x: Disposition) {
    exists id :: BoundTo(d, x, id)
  }

  ghost predicate KeptAt(d: Disk, id: RecordId) {
    && (id in d.records ==> id in d.journals && d.records[id] == d.journals[id].record)
    && (id in d.journals ==> JournalBelongs(d, id))
    && (Committed(d, id) ==> id in d.records)
    && (id in d.journals && d.journals[id].record.DispositionOf? ==> Bound(d, d.journals[id].record.disposition))
  }

  /**
   At most one save is unfinished; every record file has a journal with the same content, every
   committed journal its record file, and every disposition its reviewer result.
   */
  ghost predicate Kept(d: Disk) {
    && (forall id :: KeptAt(d, id))
    && (forall a, b :: Pending(d, a) && Pending(d, b) ==> a == b)
  }

  /** The records that the next recovery makes authoritative. */
  function Durable(d: Disk): map<RecordId, Record> {
    map id | id in d.journals :: d.journals[id].record
  }

  /** Every journal committed and every record file present. */
  function Settled(d: Disk): Disk {
    Disk(map id | id in d.journals :: Journal(true, d.journals[id].record), Durable(d))
  }

  ghost predicate NonePending(d: Disk) {
    forall id :: !Pending(d, id)
  }

  ghost predicate ReviewsCommitted(d: Disk) {
    forall id :: Pending(d, id) ==> d.journals[id].record.DispositionOf?
  }

  /** The listing names every file. */
  ghost predicate Lists(names: seq<RecordId>, d: Disk) {
    forall id :: id in d.journals || id in d.records ==> id in names
  }

  lemma ReviewIsUnique(d: Disk, a: RecordId, b: RecordId)
    requires KeptAt(d, a) && KeptAt(d, b)
    requires a in d.records && b in d.records && d.records[a].ReviewOf? && d.records[b].ReviewOf?
    requires d.records[a].result.hash == d.records[b].result.hash
    ensures a == b
  {
  }

  lemma BoundReview(d: Disk, x: Disposition, id: RecordId)
    requires Kept(d) && BoundTo(d, x, id)
    ensures id in d.records && ReviewsNamed(d, x.resultId, x.resultHash) == {id}
    ensures exists issue <- d.records[id].result.body.issues :: AboutIssue(x, issue)
  {
    assert KeptAt(d, id);
    forall other | other in ReviewsNamed(d, x.resultId, x.resultHash)
      ensures other == id
    {
      assert KeptAt(d, other);
      ReviewIsUnique(d, id, other);
    }
  }

  lemma ReviewFileFine(d: Disk, id: RecordId)
    requires KeptAt(d, id) && id in d.records && id.ReviewId?
             && (Pending(d, id) ==> d.journals[id].record.DispositionOf?)
    ensures FileError(d, id).None?
  {
  }

  lemma BindingAccepted(d: Disk, x: Disposition)
    requires Kept(d) && ReviewsCommitted(d) && Bound(d, x)
    ensures BindingError(d, x).None?
  {
    var id :| BoundTo(d, x, id);
    BoundReview(d, x, id);
    forall other <- d.records | other.ReviewId?
      ensures FileError(d, other).None?
    {
      assert KeptAt(d, other);
      ReviewFileFine(d, other);
    }
  }

  /** Everything committed before is still committed, and no record changed. */
  ghost predicate Advances(before: Disk, after: Disk) {
    && Durable(before) == Durable(after)
    && forall id :: Committed(before, id) ==> Committed(after, id)
  }

  lemma DurableAt(d: Disk, id: RecordId)
    ensures id in Durable(d) <==> id in d.journals
    ensures id in d.journals ==> Durable(d)[id] == d.journals[id].record
  {
  }

  lemma BoundStays(before: Disk, after: Disk, x: Disposition)
    requires Advances(before, after) && Bound(before, x)
    ensures Bound(after, x)
  {
    var id :| BoundTo(before, x, id);
    DurableAt(before, id);
    DurableAt(after, id);
    assert BoundTo(after, x, id);
  }

  lemma WriteRecordKeeps(d: Disk, id: RecordId)
    requires Kept(d) && id in d.journals
    ensures var after := WriteRecord(d, id, d.journals[id].record); Kept(after) && Advances(d, after)
  {
    var after := WriteRecord(d, id, d.journals[id].record);
    assert forall j :: Committed(after, j) == Committed(d, j) && Pending(after, j) == Pending(d, j);
    forall j
      ensures KeptAt(after, j)
    {
      assert KeptAt(d, j);
      if j in d.journals && d.journals[j].record.DispositionOf? {
        BoundStays(d, after, d.journals[j].record.disposition);
      }
    }
  }

  lemma CommitKeeps(d: Disk, id: RecordId)
    requires Kept(d) && id in d.records
    ensures var after := WriteJournal(d, id, Journal(true, d.records[id])); Kept(after) && Advances(d, after)
  {
    var after := WriteJournal(d, id, Journal(true, d.records[id]));
    assert KeptAt(d, id);
    assert Durable(after) == Durable(d);
    assert forall j :: Pending(after, j) ==> Pending(d, j);
    forall j
      ensures KeptAt(after, j)
    {
      assert KeptAt(d, j);
      if j in d.journals && d.journals[j].record.DispositionOf? {
        BoundStays(d, after, d.journals[j].record.disposition);
      }
    }
  }

  lemma DispositionBinds(d: Disk, id: RecordId)
    requires Kept(d) && id in d.journals && (d.journals[id].record.DispositionOf? ==> ReviewsCommitted(d))
    ensures RecordBindingError(d, d.journals[id].record).None?
  {
    assert KeptAt(d, id);
    if d.journals[id].record.DispositionOf? {
      BindingAccepted(d, d.journals[id].record.disposition);
    }
  }

  /** What is left to write for a journal: nothing, the commit, or the record file and the commit. */
  lemma RecoverOneSteps(d: Disk, id: RecordId)
    requires id in d.journals && KeptAt(d, id) && RecordBindingError(d, d.journals[id].record).None?
    ensures var op, written := RecoverOne(d, id), WriteRecord(d, id, d.journals[id].record);
            var committed := Journal(true, d.journals[id].record);
            && op.answer.Success?
            && (Committed(d, id) ==> op.steps == [])
            && (Pending(d, id) && id in d.records ==> op.steps == [WriteJournal(d, id, committed)])
            && (id !in d.records ==> op.steps == [written, WriteJournal(written, id, committed)])
  {
  }

  /** Finishing one journal succeeds, keeps everything at each of its writes, and commits that journal. */
  lemma OneKeeps(d: Disk, id: RecordId, k: nat)
    requires Kept(d) && id in d.journals && (d.journals[id].record.DispositionOf? ==> ReviewsCommitted(d))
    ensures var op := RecoverOne(d, id);
            && op.answer.Success?
            && Kept(After(d, op.steps, k)) && Advances(d, After(d, op.steps, k))
            && (k >= |op.steps| ==> Committed(After(d, op.steps, k), id))
  {
    DispositionBinds(d, id);
    assert KeptAt(d, id);
    RecoverOneSteps(d, id);
    if id in d.records {
      CommitKeeps(d, id);
    } else {
      var written := WriteRecord(d, id, d.journals[id].record);
      WriteRecordKeeps(d, id);
      CommitKeeps(written, id);
    }
  }

  /** Every listed journal of this kind is committed. */
  ghost predicate PhaseDone(d: Disk, names: seq<RecordId>, dispositions: bool) {
    forall id <- names :: Pending(d, id) ==> d.journals[id].record.DispositionOf? != dispositions
  }

  lemma AdvancesAtEnd(before: Disk, after: Disk, id: RecordId)
    requires Advances(before, after)
    ensures id in after.journals <==> id in before.journals
    ensures id in before.journals ==> after.journals[id].record == before.journals[id].record
    ensures Pending(after, id) ==> Pending(before, id)
  {
    DurableAt(before, id);
    DurableAt(after, id);
    assert Committed(before, id) ==> Committed(after, id);
  }

  lemma ReviewsStayCommitted(before: Disk, after: Disk)
    requires Advances(before, after) && ReviewsCommitted(before)
    ensures ReviewsCommitted(after)
  {
    forall id | Pending(after, id)
      ensures after.journals[id].record.DispositionOf?
    {
      AdvancesAtEnd(before, after, id);
    }
  }

  lemma PhaseDoneStays(before: Disk, after: Disk, id: RecordId, names: seq<RecordId>, dispositions: bool)
    requires Advances(before, after) && PhaseDone(after, names, dispositions)
    requires PhaseDone(before, [id], dispositions)
    ensures PhaseDone(after, [id] + names, dispositions)
  {
    assert id in [id];
    AdvancesAtEnd(before, after, id);
  }

  lemma AdvancesTransitive(a: Disk, b: Disk, c: Disk)
    requires Advances(a, b) && Advances(b, c)
    ensures Advances(a, c)
  {
  }

  lemma ListedKeeps(d: Disk, id: RecordId, dispositions: bool, k: nat)
    requires Kept(d) && (dispositions ==> ReviewsCommitted(d))
    ensures var op := RecoverListed(d, id, dispositions);
            var crashed := After(d, op.steps, k);
            && op.answer.Success? && Kept(crashed) && Advances(d, crashed)
            && (k >= |op.steps| ==> PhaseDone(crashed, [id], dispositions))
  {
    if id in d.journals && d.journals[id].record.DispositionOf? == dispositions {
      OneKeeps(d, id, k);
    }
  }

  /** A phase succeeds, keeps everything at every crash point, and commits all journals of its kind. */
  lemma {:induction false} PhaseKeeps(d: Disk, names: seq<RecordId>, dispositions: bool, k: nat)
    requires Kept(d) && (dispositions ==> ReviewsCommitted(d))
    ensures var op := RecoverPhase(d, names, dispositions);
            var crashed := After(d, op.steps, k);
            && op.answer.Success? && Kept(crashed) && Advances(d, crashed)
            && (k >= |op.steps| ==> PhaseDone(crashed, names, dispositions))
    decreases |names|
  {
    if names != [] {
      var id, others := names[0], names[1..];
      var one := RecoverListed(d, id, dispositions);
      var next := End(d, one.steps);
      var rest := RecoverPhase(next, others, dispositions);
      ListedKeeps(d, id, dispositions, k);
      ListedKeeps(d, id, dispositions, |one.steps|);
      AfterConcat(d, one.steps, rest.steps, k);
      if dispositions {
        ReviewsStayCommitted(d, next);
      }
      var left := if k <= |one.steps| then 0 else k - |one.steps|;
      PhaseKeeps(next, others, dispositions, left);
      var crashed := After(next, rest.steps, left);
      AdvancesTransitive(d, next, crashed);
      if k >= |one.steps| + |rest.steps| {
        assert k == |one.steps| ==> rest.steps == [] && crashed == next;
        PhaseDoneStays(next, crashed, id, others, dispositions);
        assert names == [id] + others;
      }
    }
  }

  lemma NonePendingIsSettled(d: Disk)
    requires Kept(d) && NonePending(d)
    ensures d == Settled(d)
  {
    forall id
      ensures id in d.records <==> id in d.journals
      ensures id in d.journals ==> d.journals[id] == Settled(d).journals[id]
      ensures id in d.records ==> d.records[id] == Durable(d)[id]
    {
      assert KeptAt(d, id) && !Pending(d, id);
      DurableAt(d, id);
    }
    assert d.records == Durable(d);
    assert d.journals == Settled(d).journals;
  }

  lemma {:induction false} SettledPassesCheck(d: Disk, names: seq<RecordId>)
    requires Kept(d) && NonePending(d)
    ensures CheckRecords(d, names).None?
  {
    if names != [] {
      var id := names[0];
      assert KeptAt(d, id) && !Pending(d, id);
      if id in d.records {
        DispositionBinds(d, id);
      }
      SettledPassesCheck(d, names[1..]);
    }
  }

  lemma FirstPhaseDone(d: Disk, middle: Disk, names: seq<RecordId>)
    requires Lists(names, d) && Advances(d, middle) && PhaseDone(middle, names, false)
    ensures ReviewsCommitted(middle)
  {
    forall id | Pending(middle, id)
      ensures middle.journals[id].record.DispositionOf?
    {
      AdvancesAtEnd(d, middle, id);
      assert id in names;
    }
  }

  lemma SecondPhaseDone(d: Disk, end: Disk, names: seq<RecordId>)
    requires Lists(names, d) && Advances(d, end) && ReviewsCommitted(end) && PhaseDone(end, names, true)
    ensures NonePending(end)
  {
    forall id
      ensures !Pending(end, id)
    {
      AdvancesAtEnd(d, end, id);
    }
  }

  lemma KeptJournalsBelong(d: Disk, names: seq<RecordId>)
    requires Kept(d)
    ensures JournalsBelong(d, names)
  {
    forall id <- names | id in d.journals
      ensures JournalBelongs(d, id)
    {
      assert KeptAt(d, id);
    }
  }

  lemma SettledOfAdvanced(d: Disk, end: Disk)
    requires Advances(d, end)
    ensures Settled(end) == Settled(d)
  {
    forall id
      ensures id in d.journals <==> id in end.journals
      ensures id in d.journals ==> d.journals[id].record == end.journals[id].record
    {
      AdvancesAtEnd(d, end, id);
    }
    assert Settled(end).journals == Settled(d).journals;
  }

  lemma BothPhasesKeep(d: Disk, names: seq<RecordId>, k: nat)
    requires Kept(d) && Lists(names, d)
    ensures var op := BothPhases(d, names);
            && RecoverPhase(d, names, false).answer.Success? && op.answer.Success?
            && Kept(After(d, op.steps, k)) && Advances(d, After(d, op.steps, k))
            && (k >= |op.steps| ==> NonePending(After(d, op.steps, k)))
  {
    var first := RecoverPhase(d, names, false);
    var middle := End(d, first.steps);
    PhaseKeeps(d, names, false, k);
    PhaseKeeps(d, names, false, |first.steps|);
    FirstPhaseDone(d, middle, names);
    var second := RecoverPhase(middle, names, true);
    var left := if k <= |first.steps| then 0 else k - |first.steps|;
    PhaseKeeps(middle, names, true, left);
    AfterConcat(d, first.steps, second.steps, k);
    var crashed := After(middle, second.steps, left);
    AdvancesTransitive(d, middle, crashed);
    if k >= |first.steps| + |second.steps| {
      assert k == |first.steps| ==> second.steps == [] && crashed == After(d, first.steps, k);
      ReviewsStayCommitted(middle, crashed);
      SecondPhaseDone(d, crashed, names);
    }
  }

  lemma RecoverIsBothPhases(d: Disk, names: seq<RecordId>)
    requires Kept(d) && Lists(names, d)
    ensures Recover(d, names) == Operation(BothPhases(d, names).steps, Success(()))
    ensures End(d, BothPhases(d, names).steps) == Settled(d)
  {
    var both := BothPhases(d, names);
    BothPhasesKeep(d, names, |both.steps|);
    KeptJournalsBelong(d, names);
    var end := End(d, both.steps);
    NonePendingIsSettled(end);
    SettledOfAdvanced(d, end);
    SettledPassesCheck(end, names);
  }

  /**
   Recovery succeeds from every kept state, passes only through kept states that hold the same records,
   and ends with all of them authoritative, whatever the order of the directory listing.
   */
  lemma RecoverySettles(d: Disk, names: seq<RecordId>, k: nat)
    requires Kept(d) && Lists(names, d)
    ensures var op := Recover(d, names);
            && op.answer == Success(())
            && Kept(After(d, op.steps, k)) && Advances(d, After(d, op.steps, k))
            && End(d, op.steps) == Settled(d)
            && (k >= |op.steps| ==> After(d, op.steps, k) == Settled(d))
  {
    BothPhasesKeep(d, names, k);
    RecoverIsBothPhases(d, names);
  }

  /** The settled state has nothing left to recover. */
  lemma SettledIsKept(d: Disk)
    requires Kept(d)
    ensures Kept(Settled(d)) && NonePending(Settled(d)) && Durable(Settled(d)) == Durable(d)
  {
    var s := Settled(d);
    assert Advances(d, s);
    forall id
      ensures KeptAt(s, id)
    {
      assert KeptAt(d, id);
      if id in d.journals && d.journals[id].record.DispositionOf? {
        BoundStays(d, s, d.journals[id].record.disposition);
      }
    }
  }

  lemma {:induction false} SettledPhaseWritesNothing(d: Disk, names: seq<RecordId>, dispositions: bool)
    requires Kept(d) && NonePending(d)
    ensures RecoverPhase(d, names, dispositions) == Operation([], Success(()))
    decreases |names|
  {
    if names != [] {
      SettledPhaseWritesNothing(d, names[1..], dispositions);
      assert [] + RecoverPhase(d, names[1..], dispositions).steps == [];
      if names[0] in d.journals && d.journals[names[0]].record.DispositionOf? == dispositions {
        assert KeptAt(d, names[0]) && !Pending(d, names[0]);
        DispositionBinds(d, names[0]);
        RecoverOneSteps(d, names[0]);
      }
    }
  }

  /** Recovering again writes nothing, and the outcome does not depend on the order of the listing. */
  lemma RecoveryIsIdempotent(d: Disk, names: seq<RecordId>, again: seq<RecordId>)
    requires Kept(d) && Lists(names, d) && Lists(again, d)
    ensures End(d, Recover(d, again).steps) == End(d, Recover(d, names).steps)
    ensures Recover(End(d, Recover(d, names).steps), again) == Operation([], Success(()))
  {
    RecoverySettles(d, names, 0);
    RecoverySettles(d, again, 0);
    SettledIsKept(d);
    var s := Settled(d);
    KeptJournalsBelong(s, again);
    SettledPhaseWritesNothing(s, again, false);
    SettledPhaseWritesNothing(s, again, true);
    SettledPassesCheck(s, again);
  }

  // ----- Saving -----

  /** The record is new, and if it is a disposition, its reviewer result is there. */
  ghost predicate Acceptable(records: map<RecordId, Record>, record: Record) {
    && Decodes(record) && IdOf(record) !in records
    && (record.DispositionOf? ==> exists id <- records :: Justifies(records[id], record.disposition))
  }

  predicate Justifies(review: Record, x: Disposition) {
    && review.ReviewOf? && review.result.body.resultId == x.resultId && review.result.hash == x.resultHash
    && exists issue <- review.result.body.issues :: AboutIssue(x, issue)
  }

  lemma BindingIffJustified(d: Disk, x: Disposition)
    requires Kept(d) && NonePending(d)
    ensures BindingError(d, x).None? <==> exists id <- Durable(d) :: Justifies(Durable(d)[id], x)
  {
    if id :| id in Durable(d) && Justifies(Durable(d)[id], x) {
      assert !Pending(d, id);
      assert BoundTo(d, x, id);
      BindingAccepted(d, x);
    }
    if BindingError(d, x).None? {
      var id, issue :| id in ReviewsNamed(d, x.resultId, x.resultHash)
                       && issue in d.records[id].result.body.issues && AboutIssue(x, issue);
      assert KeptAt(d, id);
      assert Justifies(Durable(d)[id], x);
    }
  }

  lemma SettledLoads(d: Disk, id: RecordId)
    requires Kept(d) && NonePending(d)
    ensures LoadIfPresent(d, id) == Success(if id in Durable(d) then Some(Durable(d)[id]) else None)
  {
    assert KeptAt(d, id) && !Pending(d, id);
    if id in d.records {
      DispositionBinds(d, id);
    }
  }

  /** A save on a settled store answers from the records alone. */
  lemma SaveRecoveredCases(d: Disk, record: Record)
    requires Kept(d) && NonePending(d) && Decodes(record)
    ensures var op := SaveRecovered(d, record);
            && (Acceptable(Durable(d), record) ==>
                op == WriteNew(d, IdOf(record), record) && IdOf(record) !in d.journals)
            && (!Acceptable(Durable(d), record) ==> op.steps == [])
            && (op.answer == Success(IdOf(record)) <==>
                Acceptable(Durable(d), record) || (IdOf(record) in Durable(d) && Durable(d)[IdOf(record)] == record))
  {
    var id := IdOf(record);
    SettledLoads(d, id);
    if record.DispositionOf? {
      BindingIffJustified(d, record.disposition);
    }
    if id in Durable(d) && Durable(d)[id] == record {
      assert KeptAt(d, id);
      DispositionBinds(d, id);
    }
  }

  /** The announced state: one more journal, still prepared. */
  lemma AnnounceKeeps(d: Disk, record: Record)
    requires Kept(d) && NonePending(d) && Acceptable(Durable(d), record)
    ensures var after := WriteJournal(d, IdOf(record), Journal(false, record));
            Kept(after) && Durable(after) == Durable(d)[IdOf(record) := record]
  {
    var id := IdOf(record);
    var after := WriteJournal(d, id, Journal(false, record));
    assert KeptAt(d, id);
    forall j
      ensures KeptAt(after, j)
    {
      assert KeptAt(d, j);
      if j in after.journals && after.journals[j].record.DispositionOf? {
        var x := after.journals[j].record.disposition;
        if j == id {
          var r :| r in Durable(d) && Justifies(Durable(d)[r], x);
          assert !Pending(d, r);
          assert BoundTo(after, x, r);
        } else {
          var r :| BoundTo(d, x, r);
          assert BoundTo(after, x, r);
        }
      }
    }
    forall a, b | Pending(after, a) && Pending(after, b)
      ensures a == b
    {
      assert !Pending(d, a) && !Pending(d, b);
    }
  }

  lemma WriteNewKeeps(d: Disk, record: Record, k: nat)
    requires Kept(d) && NonePending(d) && Acceptable(Durable(d), record) && 0 < k
    ensures var after := After(d, WriteNew(d, IdOf(record), record).steps, k);
            && Kept(after) && Durable(after) == Durable(d)[IdOf(record) := record]
            && (k >= 3 ==> NonePending(after))
  {
    var id := IdOf(record);
    var announced := WriteJournal(d, id, Journal(false, record));
    AnnounceKeeps(d, record);
    WriteRecordKeeps(announced, id);
    var written := WriteRecord(announced, id, record);
    CommitKeeps(written, id);
    forall j | k >= 3
      ensures !Pending(WriteJournal(written, id, Journal(true, record)), j)
    {
      assert !Pending(d, j);
    }
  }

  /**
   A save that is cut short at any write leaves the old records, or the old records and the new one;
   the new one is there exactly when its journal had been written. No other record changes.
   */
  lemma SaveIsAtomic(d: Disk, names: seq<RecordId>, record: Record, k: nat)
    requires Kept(d) && Lists(names, d)
    ensures var crashed := After(d, Save(d, names, record).steps, k);
            && Kept(crashed)
            && Durable(crashed) ==
                 (if Acceptable(Durable(d), record) && k > |Recover(d, names).steps|
                  then Durable(d)[IdOf(record) := record] else Durable(d))
  {
    RecoverySettles(d, names, k);
    SettledIsKept(d);
    if Decodes(record) {
      SaveRecoveredCases(Settled(d), record);
      var recovery, rest := Recover(d, names).steps, SaveRecovered(Settled(d), record).steps;
      AfterConcat(d, recovery, rest, k);
      if Acceptable(Durable(d), record) && k > |recovery| {
        WriteNewKeeps(Settled(d), record, k - |recovery|);
      }
    }
  }

  /** A save that is not cut short answers the record's id exactly when the record is stored afterwards. */
  lemma SaveAnswers(d: Disk, names: seq<RecordId>, record: Record)
    requires Kept(d) && Lists(names, d) && Decodes(record)
    ensures var op := Save(d, names, record);
            var after := Durable(End(d, op.steps));
            op.answer == Success(IdOf(record)) <==> IdOf(record) in after && after[IdOf(record)] == record
  {
    RecoverySettles(d, names, 0);
    SettledIsKept(d);
    SaveRecoveredCases(Settled(d), record);
    SaveIsAtomic(d, names, record, |Save(d, names, record).steps|);
  }

  /**
   Every stored disposition names one stored and committed reviewer result, and this result holds an issue
   with the disposition's issue id, issue hash, issue code, field path and evidence hash.
   */
  lemma ReferencesNeverDangle(d: Disk, id: RecordId)
    requires Kept(d) && id in d.records && d.records[id].DispositionOf?
    ensures var x := d.records[id].disposition;
            exists r :: ReviewsNamed(d, x.resultId, x.resultHash) == {r}
              && r in d.records && d.records[r].ReviewOf? && Committed(d, r)
              && d.records[r].result.body.resultId == x.resultId && d.records[r].result.hash == x.resultHash
              && exists issue <- d.records[r].result.body.issues ::
                   && x.issueId == issue.id && x.issueHash == issue.hash && x.issueCode == issue.code
                   && x.fieldPath == issue.fieldPath && x.evidenceHash == issue.evidenceHash
  {
    assert KeptAt(d, id);
    var x := d.records[id].disposition;
    var r :| BoundTo(d, x, r);
    BoundReview(d, x, r);
    assert KeptAt(d, r);
  }

  /** No stored reviewer result with this id and hash has an issue with these five fields. */
  ghost predicate Unbound(records: map<RecordId, Record>, x: Disposition) {
    forall id, issue | id in records && records[id].ReviewOf? && issue in records[id].result.body.issues
                       && records[id].result.body.resultId == x.resultId && records[id].result.hash == x.resultHash ::
      || x.issueId != issue.id || x.issueHash != issue.hash || x.issueCode != issue.code
      || x.fieldPath != issue.fieldPath || x.evidenceHash != issue.evidenceHash
  }

  lemma UnboundIffUnjustified(records: map<RecordId, Record>, x: Disposition)
    ensures Unbound(records, x) <==> !exists id <- records :: Justifies(records[id], x)
  {
    forall id, issue | id in records && records[id].ReviewOf? && issue in records[id].result.body.issues
                       && AboutIssue(x, issue) && !exists id <- records :: Justifies(records[id], x)
      ensures records[id].result.body.resultId != x.resultId || records[id].result.hash != x.resultHash
    {
      assert !Justifies(records[id], x);
    }
  }

  /**
   A decodable disposition that differs from every issue of the result it names in at least one of the five
   fields is refused, and it is refused as unbound only then. The refused save adds no record, cut short or not.
   */
  lemma UnboundIsRefused(d: Disk, names: seq<RecordId>, x: Disposition, k: nat)
    requires Kept(d) && Lists(names, d) && Decodes(DispositionOf(x))
    ensures var op := Save(d, names, DispositionOf(x));
            && (op.answer == Failure(UnboundDisposition) <==> Unbound(Durable(d), x))
            && (Unbound(Durable(d), x) ==> Durable(After(d, op.steps, k)) == Durable(d))
  {
    var s := Settled(d);
    RecoverySettles(d, names, k);
    SettledIsKept(d);
    BindingIffJustified(s, x);
    UnboundIffUnjustified(Durable(d), x);
    SettledFilesLoad(s);
    SettledLoads(s, IdOf(DispositionOf(x)));
    SaveIsAtomic(d, names, DispositionOf(x), k);
  }

  // ----- Whole runs -----

  /** One call by some process that dies after `crashAfter` writes, if the call has that many. */
  datatype Call = SaveCall(record: Record, crashAfter: nat) | RecoverCall(crashAfter: nat)

  function Perform(d: Disk, names: seq<RecordId>, call: Call): Disk {
    match call
    case SaveCall(record, k) => After(d, Save(d, names, record).steps, k)
    case RecoverCall(k) => After(d, Recover(d, names).steps, k)
  }

  /** Each call lists the directories in an order of its own. */
  ghost predicate IsRun(states: seq<Disk>, calls: seq<Call>) {
    && |states| == |calls| + 1
    && forall i :: 0 <= i < |calls| ==> IsStep(states[i], calls[i], states[i + 1])
  }

  ghost predicate IsStep(before: Disk, call: Call, after: Disk) {
    exists names :: Lists(names, before) && after == Perform(before, names, call)
  }

  predicate Extends(before: map<RecordId, Record>, after: map<RecordId, Record>) {
    forall id <- before :: id in after && after[id] == before[id]
  }

  lemma StepKeeps(before: Disk, call: Call, after: Disk)
    requires Kept(before) && IsStep(before, call, after)
    ensures Kept(after) && Extends(Durable(before), Durable(after))
    ensures Durable(after) != Durable(before) ==>
              call.SaveCall? && Durable(after) == Durable(before)[IdOf(call.record) := call.record]
  {
    var names :| Lists(names, before) && after == Perform(before, names, call);
    match call
    case SaveCall(record, k) => SaveIsAtomic(before, names, record, k);
    case RecoverCall(k) => RecoverySettles(before, names, k);
  }

  /** Over any sequence of saves, recoveries and crashes a durable record is never lost and never changes. */
  lemma {:induction false} RunsKeepEveryRecord(states: seq<Disk>, calls: seq<Call>)
    requires IsRun(states, calls) && Kept(states[0])
    ensures Kept(states[|calls|]) && Extends(Durable(states[0]), Durable(states[|calls|]))
    decreases |calls|
  {
    if calls != [] {
      var n := |calls| - 1;
      assert IsRun(states[..|calls|], calls[..n]);
      RunsKeepEveryRecord(states[..|calls|], calls[..n]);
      StepKeeps(states[n], calls[n], states[n + 1]);
    }
  }

  lemma EmptyIsKept()
    ensures Kept(EMPTY) && Durable(EMPTY) == map[]
  {
  }

  // ----- Looking up the records of one contract -----

  lemma {:induction false} SelectMembers(d: Disk, names: seq<RecordId>, review: ReviewerResult)
    ensures forall id, x :: (id, x) in Select(d, names, review) <==>
              id in names && DispositionFor(d, id, review) && d.records[id].disposition == x
  {
    if names != [] {
      SelectMembers(d, names[1..], review);
    }
  }

  lemma SettledFilesLoad(d: Disk)
    requires Kept(d) && NonePending(d)
    ensures !exists id <- d.records :: id.ReviewId? && FileError(d, id).Some?
    ensures !exists id <- d.records :: id.DispositionId? && LoadIfPresent(d, id).Failure?
  {
    forall id <- d.records
      ensures LoadIfPresent(d, id).Success? && FileError(d, id).None?
    {
      SettledLoads(d, id);
    }
  }

  /** The approval and the baseline of the query are stored and agree. */
  ghost predicate ApprovalStored(records: map<RecordId, Record>, q: Query) {
    var baselineId := BaselineId(q.contractId, q.contractVersion, q.baseline);
    var approvalId := ApprovalId(q.contractId, q.contractVersion, q.contractHash, q.baseline);
    && baselineId in records && approvalId in records && records[baselineId].BaselineOf?
    && records[approvalId].ApprovalOf?
    && records[approvalId].approval.baseline == records[baselineId].manifest
  }

  lemma IdsTellKinds(d: Disk, id: RecordId)
    requires Kept(d) && id in d.records
    ensures id.BaselineId? <==> d.records[id].BaselineOf?
    ensures id.ApprovalId? <==> d.records[id].ApprovalOf?
  {
    assert KeptAt(d, id);
  }

  /** The record is a reviewer result about the contract, version, content, baseline and rule set of the query. */
  predicate SpeaksAbout(r: Record, q: Query) {
    && r.ReviewOf? && r.result.body.contractId == q.contractId && r.result.body.contractVersion == q.contractVersion
    && r.result.body.contractHash == q.contractHash && r.result.body.baseline == q.baseline
    && r.result.body.ruleset == q.ruleset
  }

  ghost predicate OneSpeaks(records: map<RecordId, Record>, q: Query) {
    exists r <- records :: SpeaksAbout(records[r], q) && forall s <- records :: SpeaksAbout(records[s], q) ==> s == r
  }

  lemma OneSpeaksIff(d: Disk, q: Query)
    ensures OneSpeaks(d.records, q) <==> |ReviewsFor(d, q)| == 1
  {
    var reviews := ReviewsFor(d, q);
    if |reviews| == 1 {
      OnlyOne(reviews);
      var r :| r in reviews;
      assert forall s <- d.records :: SpeaksAbout(d.records[s], q) ==> s in reviews;
    }
    if r :| r in d.records && SpeaksAbout(d.records[r], q)
            && forall s <- d.records :: SpeaksAbout(d.records[s], q) ==> s == r {
      assert reviews == {r};
    }
  }

  lemma FindExactCounts(d: Disk, names: seq<RecordId>, q: Query)
    requires Kept(d) && NonePending(d)
    ensures (FindExact(d, names, q).Success? && FindExact(d, names, q).value.Some?) <==>
            ApprovalStored(d.records, q) && |ReviewsFor(d, q)| == 1
  {
    var baselineId := BaselineId(q.contractId, q.contractVersion, q.baseline);
    var approvalId := ApprovalId(q.contractId, q.contractVersion, q.contractHash, q.baseline);
    SettledFilesLoad(d);
    SettledLoads(d, baselineId);
    SettledLoads(d, approvalId);
    NonePendingIsSettled(d);
    if baselineId in d.records {
      IdsTellKinds(d, baselineId);
    }
    if approvalId in d.records {
      IdsTellKinds(d, approvalId);
    }
  }

  /**
   On a settled store the lookup finds something exactly when the approval and its baseline are stored
   and agree, and exactly one reviewer result speaks about this content, baseline and rule set.
   */
  lemma FindExactFinds(d: Disk, names: seq<RecordId>, q: Query)
    requires Kept(d) && NonePending(d)
    ensures (FindExact(d, names, q).Success? && FindExact(d, names, q).value.Some?) <==>
            ApprovalStored(d.records, q) && OneSpeaks(d.records, q)
  {
    FindExactCounts(d, names, q);
    OneSpeaksIff(d, q);
  }

  /** The disposition decides an issue of the result: id and hash of the result and all five fields agree. */
  ghost predicate DecidesOneOf(x: Disposition, review: ReviewerResult) {
    && x.resultId == review.body.resultId && x.resultHash == review.hash
    && exists issue <- review.body.issues ::
         && x.issueId == issue.id && x.issueHash == issue.hash && x.issueCode == issue.code
         && x.fieldPath == issue.fieldPath && x.evidenceHash == issue.evidenceHash
  }

  /** The records of the query: the approval, its baseline and the reviewer result are about what it asks for. */
  predicate AnswersQuery(e: Exact, q: Query) {
    && e.approval.contractId == q.contractId && e.approval.contractVersion == q.contractVersion
    && e.approval.contractHash == q.contractHash && e.approval.baseline == e.baseline
    && e.baseline.fingerprint == q.baseline && SpeaksAbout(ReviewOf(e.review), q)
  }

  lemma FoundRecords(d: Disk, names: seq<RecordId>, q: Query)
    requires Kept(d) && NonePending(d)
    requires FindExact(d, names, q).Success? && FindExact(d, names, q).value.Some?
    ensures var e := FindExact(d, names, q).value.value;
            && e.baselineId in d.records
            && d.records[e.baselineId] == BaselineOf(q.contractId, q.contractVersion, e.baseline)
            && e.approvalId in d.records && d.records[e.approvalId] == ApprovalOf(e.approval)
            && e.reviewId in d.records && d.records[e.reviewId] == ReviewOf(e.review) && AnswersQuery(e, q)
            && e.dispositions == Select(d, names, e.review)
  {
    var e := FindExact(d, names, q).value.value;
    FindExactFinds(d, names, q);
    SettledLoads(d, e.approvalId);
    SettledLoads(d, e.baselineId);
    assert KeptAt(d, e.approvalId) && KeptAt(d, e.baselineId);
  }

  lemma DecidesForReview(d: Disk, id: RecordId, x: Disposition, reviewId: RecordId)
    requires Kept(d) && id in d.records && d.records[id] == DispositionOf(x)
    requires reviewId in d.records && d.records[reviewId].ReviewOf?
    requires x.resultId == d.records[reviewId].result.body.resultId && x.resultHash == d.records[reviewId].result.hash
    ensures DispositionFor(d, id, d.records[reviewId].result) && DecidesOneOf(x, d.records[reviewId].result)
  {
    ReferencesNeverDangle(d, id);
    assert reviewId in ReviewsNamed(d, x.resultId, x.resultHash);
  }

  /**
   What it finds is stored and about the query, and the dispositions are all stored ones that name the reviewer
   result; each of them agrees in all five fields with one of its issues.
   */
  lemma FoundIsExact(d: Disk, names: seq<RecordId>, q: Query)
    requires Kept(d) && NonePending(d) && Lists(names, d)
    requires FindExact(d, names, q).Success? && FindExact(d, names, q).value.Some?
    ensures var e := FindExact(d, names, q).value.value;
            && e.baselineId in d.records
            && d.records[e.baselineId] == BaselineOf(q.contractId, q.contractVersion, e.baseline)
            && e.approvalId in d.records && d.records[e.approvalId] == ApprovalOf(e.approval)
            && e.reviewId in d.records && d.records[e.reviewId] == ReviewOf(e.review) && AnswersQuery(e, q)
            && (forall id, x :: (id, x) in e.dispositions <==>
                  id in d.records && d.records[id] == DispositionOf(x)
                  && x.resultId == e.review.body.resultId && x.resultHash == e.review.hash)
            && (forall found <- e.dispositions :: DecidesOneOf(found.1, e.review))
  {
    var e := FindExact(d, names, q).value.value;
    FoundRecords(d, names, q);
    SelectMembers(d, names, e.review);
    forall id, x | id in d.records && d.records[id] == DispositionOf(x)
                   && x.resultId == e.review.body.resultId && x.resultHash == e.review.hash
      ensures DispositionFor(d, id, e.review) && DecidesOneOf(x, e.review)
    {
      DecidesForReview(d, id, x, e.reviewId);
    }
    forall found <- e.dispositions
      ensures DecidesOneOf(found.1, e.review)
    {
      assert (found.0, found.1) in e.dispositions;
    }
  }

  /** Crashes of the store in between do not change what a lookup after recovery finds. */
  lemma FindExactIsStable(d: Disk, names: seq<RecordId>, again: seq<RecordId>, k: nat, listing: seq<RecordId>, q: Query)
    requires Kept(d) && Lists(names, d) && Lists(again, After(d, Recover(d, names).steps, k))
    ensures var crashed := After(d, Recover(d, names).steps, k);
            FindExact(End(crashed, Recover(crashed, again).steps), listing, q) ==
            FindExact(End(d, Recover(d, names).steps), listing, q)
  {
    var crashed := After(d, Recover(d, names).steps, k);
    RecoverySettles(d, names, k);
    RecoverySettles(crashed, again, 0);
    SettledOfAdvanced(d, crashed);
  }
}
