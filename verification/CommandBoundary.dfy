/** The command boundary as one process runs it, with a crash possible after any durable effect. */
module CommandBoundary {
  import opened Wrappers
  import opened Durability
  import opened Commands
  import opened CommandRuns
  import opened CommandTheorems

  /** Everything a call can leave behind: the lock file, the store file, and what handlers did. */
  datatype World = World(locked: bool, records: StoreRecords, ran: seq<HandlerRun>)

  /** Lock, replace the store file if it changes, unlock. */
  function Section(w: World, records: StoreRecords): seq<World> {
    var locked := w.(locked := true);
    [locked] + (if records != w.records then [locked.(records := records)] else []) + [w.(records := records)]
  }

  datatype Execution = Execution(steps: seq<World>, answer: CommandResult)

  function Execute(w: World, r: Request, env: Environment): Execution {
    if w.locked then Execution([], Busied(r, ToReserve))
    else
      var (records, outcome) := Reserve(w.records, r.key, r.fingerprint);
      Answer(w.(records := records), Section(w, records), r, env, outcome)
  }

  /** Answers at once unless the reservation is this caller's own. */
  function Answer(w: World, steps: seq<World>, r: Request, env: Environment, outcome: ReserveOutcome): Execution {
    match outcome
    case Conflict => Execution(steps, ConflictResult(r))
    case Pending => Execution(steps, UnknownResult(r, None, []))
    case Replayed(result) => Execution(steps, result)
    case Acquired => Continue(w, steps, r, env)
  }

  /** What the owner of a fresh reservation does. */
  function Continue(w: World, steps: seq<World>, r: Request, env: Environment): Execution {
    match env.version
    case Unreadable => Settle(w, steps, r, Refusal(r, Failed, VERSION_UNAVAILABLE, true))
    case Differs => Settle(w, steps, r, Refusal(r, Rejected, "version_conflict", true))
    case Matches =>
      var handled := w.(ran := w.ran + [HandlerRun(r.key, r.fingerprint)]);
      Settle(handled, steps + [handled], r, HandlerResult(r, env))
  }

  /** Releases, stores or leaves the reservation, depending on the result. */
  function Settle(w: World, steps: seq<World>, r: Request, result: CommandResult): Execution {
    if result.HasCode(VERSION_UNAVAILABLE) then
      var (records, done) := Release(w.records, r.key, r.fingerprint);
      Execution(steps + Section(w, records), if done.Success? then result else UnknownResult(r, None, []))
    else if result.HasCode(OUTCOME_UNKNOWN) then Execution(steps, result)
    else
      var (records, done) := Complete(w.records, r.key, r.fingerprint, result);
      Execution(steps + Section(w, records),
                if done.Success? then result else UnknownResult(r, result.traceId, result.eventRefs))
  }

  lemma AnswerExtends(w: World, steps: seq<World>, r: Request, env: Environment, outcome: ReserveOutcome)
    ensures steps <= Answer(w, steps, r, env, outcome).steps
  {
  }

  lemma SectionEnd(w: World, records: StoreRecords, before: World, steps: seq<World>)
    ensures End(before, steps + Section(w, records)) == w.(records := records)
  {
    AfterConcat(before, steps, Section(w, records), |steps + Section(w, records)|);
  }

  /** A call that completes does to the store, and answers, what the lone caller of the protocol does. */
  lemma ExecutionIsSoloRun(s: State, id: nat, r: Request, env: Environment)
    requires s.lock.None? && id !in s.callers
    ensures var w, t := World(false, s.records, s.ran), Run(s, SoloActions(id, r, env));
            var e := Execute(w, r, env);
            && End(w, e.steps) == World(t.lock.Some?, t.records, t.ran)
            && id in t.callers && t.callers[id].phase in {Answered(e.answer), TurnedAway(e.answer)}
  {
    SoloRun(s, id, r, env);
    var w := World(false, s.records, s.ran);
    var (records, outcome) := Reserve(w.records, r.key, r.fingerprint);
    var reserved, steps := w.(records := records), Section(w, records);
    SectionEnd(w, records, w, []);
    assert [] + steps == steps;
    assert s.ran + [] == s.ran;
    if outcome.Acquired? {
      match env.version
      case Unreadable => SettleEnd(w, reserved, steps, r, Refusal(r, Failed, VERSION_UNAVAILABLE, true));
      case Differs => SettleEnd(w, reserved, steps, r, Refusal(r, Rejected, "version_conflict", true));
      case Matches =>
        var handled := reserved.(ran := reserved.ran + [HandlerRun(r.key, r.fingerprint)]);
        AfterConcat(w, steps, [handled], |steps| + 1);
        SettleEnd(w, handled, steps + [handled], r, HandlerResult(r, env));
    }
  }

  lemma SettleEnd(start: World, w: World, steps: seq<World>, r: Request, result: CommandResult)
    requires End(start, steps) == w
    ensures var (records, phase) := Settled(w.records, r, Dispatch(result));
            && End(start, Settle(w, steps, r, result).steps) == w.(records := records)
            && phase in {Answered(Settle(w, steps, r, result).answer), TurnedAway(Settle(w, steps, r, result).answer)}
  {
    SectionEnd(w, Release(w.records, r.key, r.fingerprint).0, start, steps);
    SectionEnd(w, Complete(w.records, r.key, r.fingerprint, result).0, start, steps);
  }

  /** The first section of a call, as seen when it is cut short and when it is complete. */
  lemma ReservationFirst(w: World, r: Request, env: Environment, k: nat)
    requires !w.locked
    ensures var (records, outcome) := Reserve(w.records, r.key, r.fingerprint);
            var steps, e := Section(w, records), Execute(w, r, env);
            && e == Answer(w.(records := records), steps, r, env, outcome)
            && End(w, steps) == w.(records := records)
            && (k < |steps| ==> k < |e.steps| && After(w, e.steps, k) == After(w, steps, k))
  {
    var (records, outcome) := Reserve(w.records, r.key, r.fingerprint);
    var steps := Section(w, records);
    SectionEnd(w, records, w, []);
    assert [] + steps == steps;
    AnswerExtends(w.(records := records), steps, r, env, outcome);
    if k < |steps| {
      AfterPrefix(w, steps, Execute(w, r, env).steps, k);
    }
  }

  datatype Outcome<+T> = Crashed | Returned(answer: T)

  /** One JSON file of records behind one lock file. */
  class FileCommandResultStore {
    var locked: bool
    var records: StoreRecords

    constructor ()
      ensures !locked && records == map[]
    {
      locked, records := false, map[];
    }

    ghost function View(ran: seq<HandlerRun>): World
      reads this
    {
      World(locked, records, ran)
    }

    /** Replaces the records under the lock; `left` of the `crashAfter` effects remain afterwards. */
    method Replace(updated: StoreRecords, crashAfter: nat, ghost ran: seq<HandlerRun>)
        returns (crashed: bool, left: nat)
      requires !locked
      modifies this
      ensures var steps := Section(old(View(ran)), updated);
              && View(ran) == After(old(View(ran)), steps, crashAfter)
              && crashed == (crashAfter < |steps|)
              && (!crashed ==> left == crashAfter - |steps|)
    {
      left := crashAfter;
      if left == 0 { return true, left; }
      locked := true;
      left := left - 1;
      if updated != records {
        if left == 0 { return true, left; }
        records := updated;
        left := left - 1;
      }
      if left == 0 { return true, left; }
      locked := false;
      left := left - 1;
      return false, left;
    }
  }

  class Boundary {
    const store: FileCommandResultStore
    var ran: seq<HandlerRun>

    constructor (store: FileCommandResultStore)
      ensures this.store == store && ran == []
    {
      this.store, ran := store, [];
    }

    ghost function View(): World
      reads this, store
    {
      World(store.locked, store.records, ran)
    }

    /** Reserves the key, checks the version, runs the handler at most once and stores what it returned. */
    method ExecuteCommand(r: Request, env: Environment, crashAfter: nat) returns (outcome: Outcome<CommandResult>)
      modifies this, store
      ensures var e := Execute(old(View()), r, env);
              && View() == After(old(View()), e.steps, crashAfter)
              && outcome == if crashAfter < |e.steps| then Crashed else Returned(e.answer)
    {
      ghost var before := View();
      if store.locked {
        return Returned(Busied(r, ToReserve));
      }
      var (records, reservation) := Reserve(store.records, r.key, r.fingerprint);
      ghost var steps := Section(before, records);
      ReservationFirst(before, r, env, crashAfter);
      var crashed, left := store.Replace(records, crashAfter, ran);
      if crashed {
        return Crashed;
      }
      outcome := AnswerReservation(r, env, reservation, left, before, steps);
    }

    method AnswerReservation(
        r: Request, env: Environment, reservation: ReserveOutcome, left: nat, ghost start: World,
          ghost steps: seq<World>)
      returns (outcome: Outcome<CommandResult>)
      requires !store.locked && End(start, steps) == View()
      modifies this, store
      ensures var e := Answer(old(View()), steps, r, env, reservation);
              && View() == After(start, e.steps, |steps| + left)
              && outcome == if |steps| + left < |e.steps| then Crashed else Returned(e.answer)
    {
      match reservation
      case Conflict => return Returned(ConflictResult(r));
      case Pending => return Returned(UnknownResult(r, None, []));
      case Replayed(result) => return Returned(result);
      case Acquired => outcome := HandleReserved(r, env, left, start, steps);
    }

    /** Checks the version, runs the handler and settles the reservation. */
    method HandleReserved(r: Request, env: Environment, left: nat, ghost start: World, ghost steps: seq<World>)
      returns (outcome: Outcome<CommandResult>)
      requires !store.locked && End(start, steps) == View()
      modifies this, store
      ensures var e := Continue(old(View()), steps, r, env);
              && View() == After(start, e.steps, |steps| + left)
              && outcome == if |steps| + left < |e.steps| then Crashed else Returned(e.answer)
    {
      match env.version
      case Unreadable =>
        outcome := SettleReservation(r, Refusal(r, Failed, VERSION_UNAVAILABLE, true), left, start, steps);
      case Differs =>
        outcome := SettleReservation(r, Refusal(r, Rejected, "version_conflict", true), left, start, steps);
      case Matches =>
        if left == 0 {
          AfterPrefix(start, steps, Continue(View(), steps, r, env).steps, |steps|);
          return Crashed;
        }
        ran := ran + [HandlerRun(r.key, r.fingerprint)];
        AfterConcat(start, steps, [View()], |steps| + 1);
        outcome := SettleReservation(r, HandlerResult(r, env), left - 1, start, steps + [View()]);
    }

    /** Gives the reservation back, completes it, or leaves it standing when the outcome is unknown. */
    method SettleReservation(r: Request, result: CommandResult, left: nat, ghost start: World, ghost steps: seq<World>)
      returns (outcome: Outcome<CommandResult>)
      requires !store.locked && End(start, steps) == View()
      modifies this, store
      ensures var e := Settle(old(View()), steps, r, result);
              && View() == After(start, e.steps, |steps| + left)
              && outcome == if |steps| + left < |e.steps| then Crashed else Returned(e.answer)
    {
      ghost var w := View();
      AfterConcat(start, steps, Section(w, Release(w.records, r.key, r.fingerprint).0), |steps| + left);
      AfterConcat(start, steps, Section(w, Complete(w.records, r.key, r.fingerprint, result).0), |steps| + left);
      if result.HasCode(OUTCOME_UNKNOWN) {
        return Returned(result);
      }
      var updated, answer;
      if result.HasCode(VERSION_UNAVAILABLE) {
        var (records, done) := Release(store.records, r.key, r.fingerprint);
        updated, answer := records, if done.Success? then result else UnknownResult(r, None, []);
      } else {
        var (records, done) := Complete(store.records, r.key, r.fingerprint, result);
        updated, answer := records, if done.Success? then result
          else UnknownResult(r, result.traceId, result.eventRefs);
      }
      var crashed, _ := store.Replace(updated, left, ran);
      return if crashed then Crashed else Returned(answer);
    }
  }
}
