/** What a command is answered, and what the store keeps of it, from how its handler and its refresh ended. */
module CommandAnswers {
  import opened Wrappers
  import opened Durability
  import opened Commands
  import opened CommandRuns
  import opened CommandBoundary

  /** The world once the call has returned. */
  function Outcome(w: World, r: Request, env: Environment): World {
    End(w, Execute(w, r, env).steps)
  }

  /** Nothing holds the lock, and the key was never used. */
  predicate Unused(w: World, r: Request) {
    !w.locked && r.key !in w.records
  }

  function Remembered(w: World, r: Request, record: StoreRecord): World {
    w.(records := w.records[r.key := record], ran := w.ran + [HandlerRun(r.key, r.fingerprint)])
  }

  predicate IsReserved(code: string) {
    code == VERSION_UNAVAILABLE || code == OUTCOME_UNKNOWN
  }

  // ----- A call with a key of its own -----

  lemma RunsHandler(w: World, r: Request, env: Environment)
    requires Unused(w, r) && env.version.Matches?
    ensures var reserved := Remembered(w, r, Reserved(r.fingerprint));
            var result := HandlerResult(r, env);
            && (!result.error.Some? || !IsReserved(result.error.value.code) ==>
                  && Execute(w, r, env).answer == result
                  && Outcome(w, r, env) == Remembered(w, r, Completed(r.fingerprint, result)))
            && (result.HasCode(OUTCOME_UNKNOWN) ==>
                Execute(w, r, env).answer == result && Outcome(w, r, env) == reserved)
            && (result.HasCode(VERSION_UNAVAILABLE) ==>
                  Execute(w, r, env).answer == result && Outcome(w, r, env) == reserved.(records := w.records))
  {
    var (records, outcome) := Reserve(w.records, r.key, r.fingerprint);
    var steps := Section(w, records);
    var reserved := w.(records := records);
    SectionEnd(w, records, w, []);
    assert [] + steps == steps;
    var handled := reserved.(ran := reserved.ran + [HandlerRun(r.key, r.fingerprint)]);
    AfterConcat(w, steps, [handled], |steps| + 1);
    SettleEnd(w, handled, steps + [handled], r, HandlerResult(r, env));
    assert records - {r.key} == w.records;
    assert records[r.key := Completed(r.fingerprint, HandlerResult(r, env))] ==
           w.records[r.key := Completed(r.fingerprint, HandlerResult(r, env))];
  }

  /** The result speaks about this request and this attempt. */
  predicate Names(result: CommandResult, r: Request, env: Environment) {
    result.commandId == r.commandId && result.requestId == r.requestId && result.traceId == Some(env.trace)
  }

  /** The scheduler was not asked, or gave a receipt. */
  predicate RefreshFine(refresh: Refresh) {
    refresh == NotScheduled || (refresh.Scheduled? && refresh.id != "")
  }

  function Receipt(refresh: Refresh): Option<string> {
    if refresh.Scheduled? then Some(refresh.id) else None
  }

  /**
   A fresh call is accepted exactly if the version matches, the handler returned normally and the refresh was not
   scheduled or gave a receipt. The answer carries the handler's audit reference and events and the receipt, and
   the store keeps exactly this answer.
   */
  lemma AcceptedIff(w: World, r: Request, env: Environment)
    requires Unused(w, r)
    ensures var answer := Execute(w, r, env).answer;
            && (answer.status == Accepted && answer.error == None <==>
                env.version == Matches && env.handled.Handled? && RefreshFine(env.refresh))
            && (env.version == Matches && env.handled.Handled? && RefreshFine(env.refresh) ==>
                  && Names(answer, r, env) && answer.auditRef == env.handled.audit
                  && answer.eventRefs == env.handled.refs && answer.refreshId == Receipt(env.refresh)
                  && Outcome(w, r, env) == Remembered(w, r, Completed(r.fingerprint, answer)))
  {
    if env.version.Matches? {
      RunsHandler(w, r, env);
    }
  }

  /**
   If the handler raised, or it returned and the refresh failed or gave no receipt, the outcome is unknown: the
   answer says so and names the events that were emitted, and the reservation is left standing.
   */
  lemma UnknownLeavesReservation(w: World, r: Request, env: Environment)
    requires Unused(w, r) && env.version == Matches
    requires env.handled == Raised || (env.handled.Handled? && !RefreshFine(env.refresh))
    ensures var answer := Execute(w, r, env).answer;
            && answer.status == Failed && answer.error == Some(CommandError(OUTCOME_UNKNOWN, false))
            && Names(answer, r, env) && answer.auditRef == None && answer.refreshId == None
            && answer.eventRefs == (if env.handled.Handled? then env.handled.refs else [])
            && Outcome(w, r, env) == Remembered(w, r, Reserved(r.fingerprint))
  {
    RunsHandler(w, r, env);
  }

  /** A rejection is answered and stored with its own error, unless it uses one of the two codes of the boundary. */
  lemma RejectionIsStored(w: World, r: Request, env: Environment)
    requires Unused(w, r) && env.version == Matches && env.handled.RejectedWith?
    ensures var answer, error := Execute(w, r, env).answer, env.handled.error;
            && answer.status == Rejected && answer.error == Some(error)
            && answer.commandId == r.commandId && answer.requestId == r.requestId
            && (!IsReserved(error.code) ==>
                  Outcome(w, r, env) == Remembered(w, r, Completed(r.fingerprint, answer)))
  {
    RunsHandler(w, r, env);
  }

  /** So is a refusal, with the status, audit reference and events that the handler gave. */
  lemma RefusalIsStored(w: World, r: Request, env: Environment)
    requires Unused(w, r) && env.version == Matches && env.handled.Refused?
    ensures var answer, h := Execute(w, r, env).answer, env.handled;
            && answer.status == h.status && answer.error == Some(h.refusal) && answer.auditRef == h.refusedAudit
            && answer.eventRefs == h.refusedRefs && Names(answer, r, env) && answer.refreshId == None
            && (!IsReserved(h.refusal.code) ==>
                  Outcome(w, r, env) == Remembered(w, r, Completed(r.fingerprint, answer)))
  {
    RunsHandler(w, r, env);
  }

  /** A version that differs is rejected for good without a handler run; one that cannot be read leaves no trace. */
  lemma VersionFirst(w: World, r: Request, env: Environment)
    requires Unused(w, r) && env.version != Matches
    ensures var answer := Execute(w, r, env).answer;
            && answer.commandId == r.commandId && answer.requestId == r.requestId
            && (env.version == Differs ==>
                  && answer.status == Rejected && answer.error == Some(CommandError("version_conflict", true))
                  && Outcome(w, r, env) == w.(records := w.records[r.key := Completed(r.fingerprint, answer)]))
            && (env.version == Unreadable ==>
                  && answer.status == Failed && answer.error == Some(CommandError(VERSION_UNAVAILABLE, true))
                  && Outcome(w, r, env) == w)
  {
    var (records, outcome) := Reserve(w.records, r.key, r.fingerprint);
    var steps := Section(w, records);
    var reserved := w.(records := records);
    SectionEnd(w, records, w, []);
    assert [] + steps == steps;
    if env.version == Differs {
      var result := Refusal(r, Rejected, "version_conflict", true);
      SettleEnd(w, reserved, steps, r, result);
      assert records[r.key := Completed(r.fingerprint, result)] == w.records[r.key := Completed(r.fingerprint, result)];
    } else {
      SettleEnd(w, reserved, steps, r, Refusal(r, Failed, VERSION_UNAVAILABLE, true));
      assert records - {r.key} == w.records;
    }
  }

  // ----- Calls with a used key -----

  /** A standing reservation answers its own fingerprint with "outcome unknown", a stored result with itself. */
  predicate AnswersAgain(record: StoreRecord, r: Request, answer: CommandResult) {
    && (record == Reserved(r.fingerprint) ==>
          && answer.status == Failed && answer.error == Some(CommandError(OUTCOME_UNKNOWN, false))
          && answer.commandId == r.commandId && answer.requestId == r.requestId)
    && (record.Completed? && record.fingerprint == r.fingerprint ==> answer == record.result)
    && (record.fingerprint != r.fingerprint ==>
          answer.status == Rejected && answer.error == Some(CommandError("idempotency_conflict", false)))
  }

  lemma UsedKeyAnswers(w: World, r: Request, env: Environment)
    requires !w.locked && r.key in w.records
    ensures Outcome(w, r, env) == w && AnswersAgain(w.records[r.key], r, Execute(w, r, env).answer)
  {
    SectionEnd(w, w.records, w, []);
    assert [] + Section(w, w.records) == Section(w, w.records);
  }

  /** A call with another key changes neither the record of this key nor whose handler ran for it. */
  lemma OtherKeyStays(w: World, r: Request, env: Environment, key: string)
    requires !w.locked && key in w.records && r.key != key
    ensures var after := Outcome(w, r, env);
            && !after.locked && key in after.records && after.records[key] == w.records[key]
            && (after.ran == w.ran || after.ran == w.ran + [HandlerRun(r.key, r.fingerprint)])
  {
    if r.key in w.records {
      UsedKeyAnswers(w, r, env);
    } else if env.version.Matches? {
      RunsHandler(w, r, env);
    } else {
      VersionFirst(w, r, env);
    }
  }

  function AfterCalls(w: World, calls: seq<(Request, Environment)>): World
    decreases |calls|
  {
    if calls == [] then w else AfterCalls(Outcome(w, calls[0].0, calls[0].1), calls[1..])
  }

  ghost predicate NoRunFor(key: string, before: seq<HandlerRun>, after: seq<HandlerRun>) {
    before <= after && forall i :: |before| <= i < |after| ==> after[i].key != key
  }

  /**
   Whatever is called later, in one process after the other and with any keys, the record of a used key stays as
   it is and no handler runs for this key again. So the key keeps answering the same.
   */
  lemma {:induction false} UsedKeyIsForever(w: World, key: string, calls: seq<(Request, Environment)>, r: Request,
                                            env: Environment)
    requires !w.locked && key in w.records && r.key == key
    ensures var later := AfterCalls(w, calls);
            && !later.locked && key in later.records && later.records[key] == w.records[key]
            && NoRunFor(key, w.ran, later.ran)
            && AnswersAgain(w.records[key], r, Execute(later, r, env).answer) && Outcome(later, r, env) == later
    decreases |calls|
  {
    if calls == [] {
      UsedKeyAnswers(w, r, env);
    } else {
      var (first, found) := calls[0];
      if first.key == key {
        UsedKeyAnswers(w, first, found);
      } else {
        OtherKeyStays(w, first, found, key);
      }
      UsedKeyIsForever(Outcome(w, first, found), key, calls[1..], r, env);
    }
  }

  /** While the store is locked a call is turned away and leaves nothing behind. */
  lemma LockedIsBusy(w: World, r: Request, env: Environment)
    requires w.locked
    ensures var e := Execute(w, r, env);
            && e.steps == [] && e.answer.status == Failed
            && e.answer.error == Some(CommandError("command_store_busy", true))
            && e.answer.commandId == r.commandId && e.answer.requestId == r.requestId
  {
  }

  // ----- What the store lets through -----

  /** Only a reservation of the same fingerprint is completed or released, and only an unused key is reserved. */
  lemma StoreGuards(records: StoreRecords, key: string, fingerprint: string, result: CommandResult)
    ensures var (after, done) := Complete(records, key, fingerprint, result);
            && (after != records ==>
                  && key in records && records[key] == Reserved(fingerprint)
                  && after == records[key := Completed(fingerprint, result)])
            && (done.Success? <==>
                  key in records && records[key] in {Reserved(fingerprint), Completed(fingerprint, result)})
    ensures var (after, done) := Release(records, key, fingerprint);
            && (after != records ==>
                  && key in records && records[key] == Reserved(fingerprint) && after == records - {key})
            && (done.Success? <==> key !in records || records[key] == Reserved(fingerprint))
    ensures var (after, outcome) := Reserve(records, key, fingerprint);
            && (after != records ==> key !in records && after == records[key := Reserved(fingerprint)])
            && (outcome.Acquired? <==> key !in records)
            && (outcome.Conflict? <==> key in records && records[key].fingerprint != fingerprint)
  {
  }
}
