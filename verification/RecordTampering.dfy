/** Which record files recovery lets pass: what it has accepted, from any disk, is a kept and settled store. */
module RecordTampering {
  import opened Wrappers
  import opened Durability
  import opened Review
  import opened RecordStore
  import opened RecordRecovery

  /** No journal announces anything else than before, none is taken back, and no record file changes or goes. */
  ghost predicate OnlyFinishes(d: Disk, e: Disk) {
    && (forall id :: id in e.journals <==> id in d.journals)
    && (forall id <- d.journals :: e.journals[id].record == d.journals[id].record
                                   && (d.journals[id].committed ==> e.journals[id].committed))
    && (forall id <- d.records :: id in e.records && e.records[id] == d.records[id])
    && (forall id <- e.records :: id in d.records || (id in d.journals && !d.journals[id].committed))
  }

  /** The journal is committed and its record file is there. */
  predicate FinishedAt(d: Disk, e: Disk, id: RecordId)
    requires id in d.journals
  {
    id in e.journals && e.journals[id].committed && id in e.records && e.records[id] == d.journals[id].record
  }

  lemma OneFinishes(d: Disk, id: RecordId)
    requires id in d.journals && RecoverOne(d, id).answer.Success?
    ensures var e := End(d, RecoverOne(d, id).steps); OnlyFinishes(d, e) && FinishedAt(d, e, id)
  {
  }

  lemma FinishesTransitive(a: Disk, b: Disk, c: Disk)
    requires OnlyFinishes(a, b) && OnlyFinishes(b, c)
    ensures OnlyFinishes(a, c)
  {
  }

  /** Each listed journal of the phase is finished at its end. */
  ghost predicate AllFinished(d: Disk, e: Disk, names: seq<RecordId>, dispositions: bool) {
    forall id | id in names && id in d.journals && d.journals[id].record.DispositionOf? == dispositions ::
      FinishedAt(d, e, id)
  }

  lemma ListedFinishes(d: Disk, id: RecordId, dispositions: bool)
    requires RecoverListed(d, id, dispositions).answer.Success?
    ensures var e := End(d, RecoverListed(d, id, dispositions).steps);
            OnlyFinishes(d, e) && AllFinished(d, e, [id], dispositions)
  {
    if id in d.journals && d.journals[id].record.DispositionOf? == dispositions {
      OneFinishes(d, id);
    }
  }

  lemma {:induction false} PhaseFinishes(d: Disk, names: seq<RecordId>, dispositions: bool)
    requires RecoverPhase(d, names, dispositions).answer.Success?
    ensures var e := End(d, RecoverPhase(d, names, dispositions).steps);
            OnlyFinishes(d, e) && AllFinished(d, e, names, dispositions)
    decreases |names|
  {
    if names != [] {
      var one := RecoverListed(d, names[0], dispositions);
      var middle := End(d, one.steps);
      var rest := RecoverPhase(middle, names[1..], dispositions);
      var e := End(middle, rest.steps);
      ListedFinishes(d, names[0], dispositions);
      PhaseFinishes(middle, names[1..], dispositions);
      EndConcat(d, one.steps, rest.steps);
      FinishesTransitive(d, middle, e);
      forall id | id in names && id in d.journals && d.journals[id].record.DispositionOf? == dispositions
        ensures FinishedAt(d, e, id)
      {
        if id == names[0] {
          assert id in [names[0]] && FinishedAt(d, middle, id);
        } else {
          assert id in names[1..] && FinishedAt(middle, e, id);
        }
      }
    }
  }

  lemma EndConcat(d: Disk, a: seq<Disk>, b: seq<Disk>)
    ensures End(d, a + b) == End(End(d, a), b)
  {
    AfterConcat(d, a, b, |a + b|);
  }

  lemma {:induction false} CheckedEach(d: Disk, names: seq<RecordId>, id: RecordId)
    requires CheckRecords(d, names).None? && id in names && id in d.records
    ensures id in d.journals && LoadIfPresent(d, id) == Success(Some(d.records[id]))
  {
    if names[0] != id {
      assert id in names[1..];
      CheckedEach(d, names[1..], id);
    }
  }

  /** The two phases and the closing check, one after the other. */
  lemma RecoveryParts(d: Disk, names: seq<RecordId>)
    requires Recover(d, names).answer.Success?
    ensures var e := End(d, Recover(d, names).steps);
            && JournalsBelong(d, names) && OnlyFinishes(d, e) && CheckRecords(e, names).None?
            && AllFinished(d, e, names, false) && AllFinished(d, e, names, true)
  {
    var first := RecoverPhase(d, names, false);
    var middle := End(d, first.steps);
    var second := RecoverPhase(middle, names, true);
    var e := End(middle, second.steps);
    PhaseFinishes(d, names, false);
    PhaseFinishes(middle, names, true);
    EndConcat(d, first.steps, second.steps);
    FinishesTransitive(d, middle, e);
  }

  lemma CheckedIsBound(e: Disk, names: seq<RecordId>, x: Disposition)
    requires Lists(names, e) && CheckRecords(e, names).None? && BindingError(e, x).None?
    ensures Bound(e, x)
  {
    var id, issue :| id in ReviewsNamed(e, x.resultId, x.resultHash)
                     && issue in e.records[id].result.body.issues && AboutIssue(x, issue);
    CheckedEach(e, names, id);
    assert BoundTo(e, x, id);
  }

  lemma CheckedIsKept(d: Disk, e: Disk, names: seq<RecordId>, id: RecordId)
    requires Lists(names, d) && JournalsBelong(d, names) && OnlyFinishes(d, e) && CheckRecords(e, names).None?
    requires AllFinished(d, e, names, false) && AllFinished(d, e, names, true)
    ensures KeptAt(e, id) && !Pending(e, id)
  {
    if id in e.journals {
      assert id in names && id in e.records;
      CheckedEach(e, names, id);
      assert JournalBelongs(d, id);
      if e.journals[id].record.DispositionOf? {
        assert Lists(names, e);
        CheckedIsBound(e, names, e.journals[id].record.disposition);
      }
    } else if id in e.records {
      CheckedEach(e, names, id);
    }
  }

  /**
   Whatever was on the disk: when recovery succeeds, every journal is committed, every record file belongs to its
   name and to its journal, and every disposition to its reviewer result. So it refuses a record file without a
   journal, one with other content than its journal, one under another name, and a committed journal without one.
   */
  lemma AcceptedIsSettled(d: Disk, names: seq<RecordId>)
    requires Lists(names, d) && Recover(d, names).answer.Success?
    ensures var e := End(d, Recover(d, names).steps);
            && Kept(e) && NonePending(e) && OnlyFinishes(d, e)
            && (forall id <- d.records :: id in d.journals && d.records[id] == d.journals[id].record
                                          && Decodes(d.records[id]) && IdOf(d.records[id]) == id)
            && (forall id <- d.journals :: Decodes(d.journals[id].record) && IdOf(d.journals[id].record) == id
                                           && (d.journals[id].committed ==> id in d.records)
                                           && id in e.records && e.records[id] == d.journals[id].record)
  {
    var e := End(d, Recover(d, names).steps);
    RecoveryParts(d, names);
    forall id
      ensures KeptAt(e, id) && !Pending(e, id)
    {
      CheckedIsKept(d, e, names, id);
    }
    forall id <- d.records
      ensures id in d.journals && d.records[id] == d.journals[id].record
      ensures Decodes(d.records[id]) && IdOf(d.records[id]) == id
    {
      assert KeptAt(e, id);
      assert JournalBelongs(d, id);
    }
    forall id <- d.journals
      ensures Decodes(d.journals[id].record) && IdOf(d.journals[id].record) == id
      ensures id in e.records && e.records[id] == d.journals[id].record
              && (d.journals[id].committed ==> id in d.records)
    {
      assert id in names && JournalBelongs(d, id);
    }
  }
}
