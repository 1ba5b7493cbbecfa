/**
 Concurrent callers of the command boundary, sharing one store file and one lock file. Each step is
 one action of one caller; a caller may die between any two of its steps and then keeps its lock.
 */
module CommandRuns {
  import opened Wrappers
  import opened Commands

  datatype StoreOp = ToReserve | ToComplete(result: CommandResult) | ToRelease(result: CommandResult)

  datatype Phase =
    | Want(op: StoreOp)                                // waiting for the lock
    | Locked(op: StoreOp)                              // holding the lock
    | Loaded(op: StoreOp, snapshot: StoreRecords)      // has read the store file
    | ReserveDone(outcome: ReserveOutcome)             // has written, still holds the lock
    | CompleteDone(result: CommandResult, ok: bool)
    | ReleaseDone(result: CommandResult, ok: bool)
    | CheckVersion
    | Ready                                            // about to run the handler
    | Answered(result: CommandResult)                  // returned the result the store keeps
    | TurnedAway(result: CommandResult)                // returned without a stored result
    | Dead

  datatype Caller = Caller(request: Request, phase: Phase)

  datatype HandlerRun = HandlerRun(key: string, fingerprint: string)

  datatype State = State(lock: Option<nat>, records: StoreRecords, callers: map<nat, Caller>, ran: seq<HandlerRun>)

  datatype Action =
    | Arrive(id: nat, request: Request)
    | Lock(id: nat)
    | Load(id: nat)
    | Write(id: nat)
    | Unlock(id: nat)
    | GiveUp(id: nat)
    | ReadVersion(id: nat, version: Version)
    | RunHandler(id: nat, env: Environment)
    | Die(id: nat)

  const START := State(None, map[], map[], [])

  function Move(s: State, id: nat, phase: Phase): State
    requires id in s.callers
  {
    s.(callers := s.callers[id := s.callers[id].(phase := phase)])
  }

  /** The state after writing the store file, from the snapshot read under the lock. */
  function WriteStore(s: State, id: nat, op: StoreOp, snapshot: StoreRecords): State
    requires id in s.callers
  {
    var r := s.callers[id].request;
    match op
    case ToReserve =>
      var (records, outcome) := Reserve(snapshot, r.key, r.fingerprint);
      Move(s, id, ReserveDone(outcome)).(records := records)
    case ToComplete(result) =>
      var (records, done) := Complete(snapshot, r.key, r.fingerprint, result);
      Move(s, id, CompleteDone(result, done.Success?)).(records := records)
    case ToRelease(result) =>
      var (records, done) := Release(snapshot, r.key, r.fingerprint);
      Move(s, id, ReleaseDone(result, done.Success?)).(records := records)
  }

  /** Where a caller goes once it has removed the lock file. */
  function AfterUnlock(r: Request, phase: Phase): Phase {
    match phase
    case ReserveDone(Acquired) => CheckVersion
    case ReserveDone(Conflict) => TurnedAway(ConflictResult(r))
    case ReserveDone(Pending) => TurnedAway(UnknownResult(r, None, []))
    case ReserveDone(Replayed(result)) => Answered(result)
    case CompleteDone(result, ok) =>
      if ok then Answered(result) else TurnedAway(UnknownResult(r, result.traceId, result.eventRefs))
    case ReleaseDone(result, ok) => TurnedAway(if ok then result else UnknownResult(r, None, []))
    case _ => phase
  }

  function Busied(r: Request, op: StoreOp): CommandResult {
    match op
    case ToReserve => Refusal(r, Failed, "command_store_busy", true)
    case ToComplete(result) => UnknownResult(r, result.traceId, result.eventRefs)
    case ToRelease(_) => UnknownResult(r, None, [])
  }

  /** What the boundary does with the handler's result. */
  function Dispatch(result: CommandResult): Phase {
    if result.HasCode(VERSION_UNAVAILABLE) then Want(ToRelease(result))
    else if result.HasCode(OUTCOME_UNKNOWN) then TurnedAway(result)
    else Want(ToComplete(result))
  }

  /** One action; an action that is not enabled changes nothing. */
  function Step(s: State, a: Action): State {
    if a.Arrive? then
      if a.id in s.callers then s else s.(callers := s.callers[a.id := Caller(a.request, Want(ToReserve))])
    else if a.id !in s.callers then s
    else
      var r, phase := s.callers[a.id].request, s.callers[a.id].phase;
      match a
      case Lock(id) => if phase.Want? && s.lock.None? then Move(s, id, Locked(phase.op)).(lock := Some(id)) else s
      case Load(id) => if phase.Locked? then Move(s, id, Loaded(phase.op, s.records)) else s
      case Write(id) => if phase.Loaded? then WriteStore(s, id, phase.op, phase.snapshot) else s
      case Unlock(id) =>
        if phase.ReserveDone? || phase.CompleteDone? || phase.ReleaseDone?
        then Move(s, id, AfterUnlock(r, phase)).(lock := None) else s
      case GiveUp(id) => if phase.Want? && s.lock.Some? then Move(s, id, TurnedAway(Busied(r, phase.op))) else s
      case ReadVersion(id, version) =>
        if !phase.CheckVersion? then s
        else
          (match version
           case Unreadable => Move(s, id, Dispatch(Refusal(r, Failed, VERSION_UNAVAILABLE, true)))
           case Differs => Move(s, id, Dispatch(Refusal(r, Rejected, "version_conflict", true)))
           case Matches => Move(s, id, Ready))
      case RunHandler(id, env) =>
        if !phase.Ready? then s
        else Move(s, id, Dispatch(HandlerResult(r, env))).(ran := s.ran + [HandlerRun(r.key, r.fingerprint)])
      case Die(id) => if phase.Answered? || phase.TurnedAway? then s else Move(s, id, Dead)
  }

  function Run(s: State, actions: seq<Action>): State
    decreases |actions|
  {
    if actions == [] then s else Run(Step(s, actions[0]), actions[1..])
  }

  // ----- The invariant -----

  /** The caller whose reservation stands in the store. */
  predicate Owns(phase: Phase) {
    || phase == ReserveDone(Acquired) || phase.CheckVersion? || phase.Ready?
    || ((phase.Want? || phase.Locked? || phase.Loaded?) && !phase.op.ToReserve?)
  }

  /** An owner that cannot have run the handler, as long as handlers keep off the reserved code. */
  predicate BeforeHandler(phase: Phase) {
    Owns(phase) && !((phase.Want? || phase.Locked? || phase.Loaded?) && phase.op.ToComplete?)
  }

  function StoredAnswer(phase: Phase): Option<CommandResult> {
    match phase
    case Answered(result) => Some(result)
    case CompleteDone(result, true) => Some(result)
    case ReserveDone(Replayed(result)) => Some(result)
    case _ => None
  }

  predicate HoldsLock(phase: Phase) {
    phase.Locked? || phase.Loaded? || phase.ReserveDone? || phase.CompleteDone? || phase.ReleaseDone?
  }

  ghost predicate CallerOk(s: State, id: nat)
    requires id in s.callers
  {
    var Caller(r, phase) := s.callers[id];
    && (HoldsLock(phase) ==> s.lock == Some(id))
    && (phase.Loaded? ==> phase.snapshot == s.records)
    && (Owns(phase) ==> r.key in s.records && s.records[r.key] == Reserved(r.fingerprint))
    && (StoredAnswer(phase).Some? ==>
          r.key in s.records && s.records[r.key] == Completed(r.fingerprint, StoredAnswer(phase).value))
  }

  ghost predicate OneOwner(s: State) {
    forall i, j ::
      i in s.callers && j in s.callers && i != j && Owns(s.callers[i].phase) && Owns(s.callers[j].phase) ==>
        s.callers[i].request.key != s.callers[j].request.key
  }

  ghost predicate RanOk(s: State, n: nat)
    requires n < |s.ran|
  {
    && s.ran[n].key in s.records && s.records[s.ran[n].key].fingerprint == s.ran[n].fingerprint
    && forall i :: i in s.callers && BeforeHandler(s.callers[i].phase) ==> s.callers[i].request.key != s.ran[n].key
  }

  ghost predicate AtMostOnce(s: State) {
    forall m, n :: 0 <= m < n < |s.ran| ==> s.ran[m].key != s.ran[n].key
  }

  ghost predicate Inv(s: State) {
    && (forall id :: id in s.callers ==> CallerOk(s, id))
    && OneOwner(s)
    && (forall n: nat :: n < |s.ran| ==> RanOk(s, n))
    && AtMostOnce(s)
  }

  /** The handler, when this action runs it, does not answer with the reserved code. */
  predicate KeepsCode(a: Action) {
    a.RunHandler? ==> HandlerCode(a.env.handled) != Some(VERSION_UNAVAILABLE)
  }

  lemma HandlerResultCode(r: Request, env: Environment)
    ensures HandlerResult(r, env).HasCode(VERSION_UNAVAILABLE) <==>
            HandlerCode(env.handled) == Some(VERSION_UNAVAILABLE)
  {
  }

  /** Changing one caller's phase without touching the store keeps the invariant. */
  lemma MoveKeepsInv(s: State, id: nat, phase: Phase, lock: Option<nat>)
    requires Inv(s) && id in s.callers
    requires Owns(phase) ==> Owns(s.callers[id].phase)
    requires BeforeHandler(phase) ==> BeforeHandler(s.callers[id].phase)
    requires StoredAnswer(phase).Some? ==> StoredAnswer(phase) == StoredAnswer(s.callers[id].phase)
    requires HoldsLock(phase) ==> lock == Some(id)
    requires phase.Loaded? ==> phase.snapshot == s.records
    requires forall j :: j in s.callers && j != id && HoldsLock(s.callers[j].phase) ==> lock == Some(j)
    ensures Inv(Move(s, id, phase).(lock := lock))
  {
    var t := Move(s, id, phase).(lock := lock);
    forall j | j in t.callers
      ensures CallerOk(t, j)
    {
      assert CallerOk(s, j);
    }
    forall n: nat | n < |t.ran|
      ensures RanOk(t, n)
    {
      assert RanOk(s, n);
    }
  }

  /** What a write does to the record of its own key, and which phases it leads to. */
  lemma WriteTouchesOwnKey(s: State, id: nat)
    requires Inv(s) && id in s.callers && s.callers[id].phase.Loaded?
    ensures var t, r := Step(s, Write(id)), s.callers[id].request;
            && t.lock == s.lock && t.ran == s.ran && t.callers.Keys == s.callers.Keys && t.callers[id].request == r
            && (forall j :: j in s.callers && j != id ==> t.callers[j] == s.callers[j])
            && (forall k :: k != r.key ==>
                (k in t.records <==> k in s.records) && (k in s.records ==> t.records[k] == s.records[k]))
            && (r.key in s.records ==>
                  (r.key in t.records && t.records[r.key].fingerprint == s.records[r.key].fingerprint
                   && (s.records[r.key].Completed? ==> t.records[r.key] == s.records[r.key]))
                  || (Owns(s.callers[id].phase) && s.callers[id].phase.op.ToRelease?))
            && (t.records == s.records || Owns(s.callers[id].phase) || r.key !in s.records)
  {
    assert CallerOk(s, id);
  }

  lemma WriteKeepsOwner(s: State, id: nat)
    requires Inv(s) && id in s.callers && s.callers[id].phase.Loaded?
    ensures CallerOk(Step(s, Write(id)), id)
  {
    assert CallerOk(s, id);
  }

  lemma WriteKeepsOthers(s: State, id: nat, j: nat)
    requires Inv(s) && id in s.callers && s.callers[id].phase.Loaded? && j in s.callers && j != id
    ensures CallerOk(Step(s, Write(id)), j)
  {
    assert CallerOk(s, id) && CallerOk(s, j);
    WriteTouchesOwnKey(s, id);
  }

  /** Only the lock holder writes, from a current snapshot, and each write touches its own key only. */
  lemma WriteKeepsInv(s: State, id: nat)
    requires Inv(s) && id in s.callers && s.callers[id].phase.Loaded?
    ensures Inv(Step(s, Write(id)))
  {
    var t := Step(s, Write(id));
    assert CallerOk(s, id);
    forall j | j in t.callers
      ensures CallerOk(t, j)
    {
      if j == id { WriteKeepsOwner(s, id); } else { WriteKeepsOthers(s, id, j); }
    }
    forall n: nat | n < |t.ran|
      ensures RanOk(t, n)
    {
      assert RanOk(s, n);
    }
  }

  lemma RunHandlerKeepsInv(s: State, id: nat, env: Environment)
    requires Inv(s) && id in s.callers && s.callers[id].phase.Ready? && KeepsCode(RunHandler(id, env))
    ensures Inv(Step(s, RunHandler(id, env)))
  {
    var t := Step(s, RunHandler(id, env));
    HandlerResultCode(s.callers[id].request, env);
    assert CallerOk(s, id);
    forall j | j in t.callers
      ensures CallerOk(t, j)
    {
      assert CallerOk(s, j);
    }
    forall n: nat | n < |t.ran|
      ensures RanOk(t, n)
    {
      if n < |s.ran| {
        assert RanOk(s, n);
      }
    }
    forall m, n | 0 <= m < n < |t.ran|
      ensures t.ran[m].key != t.ran[n].key
    {
      assert RanOk(s, m);
    }
  }

  lemma ArriveKeepsInv(s: State, id: nat, r: Request)
    requires Inv(s)
    ensures Inv(Step(s, Arrive(id, r)))
  {
    var t := Step(s, Arrive(id, r));
    forall j | j in t.callers
      ensures CallerOk(t, j)
    {
      if j in s.callers {
        assert CallerOk(s, j);
      }
    }
    forall n: nat | n < |t.ran|
      ensures RanOk(t, n)
    {
      assert RanOk(s, n);
    }
  }

  lemma OneLockHolder(s: State)
    requires Inv(s)
    ensures forall j :: j in s.callers && HoldsLock(s.callers[j].phase) ==> s.lock == Some(j)
  {
    forall j | j in s.callers && HoldsLock(s.callers[j].phase)
      ensures s.lock == Some(j)
    {
      assert CallerOk(s, j);
    }
  }

  /** Taking and releasing the lock, and reading the store under it. */
  lemma LockingKeepsInv(s: State, a: Action)
    requires Inv(s) && (a.Lock? || a.Load? || a.Unlock?) && a.id in s.callers
    ensures Inv(Step(s, a))
  {
    var Caller(r, phase) := s.callers[a.id];
    OneLockHolder(s);
    match a
    case Lock(id) => if phase.Want? && s.lock.None? { MoveKeepsInv(s, id, Locked(phase.op), Some(id)); }
    case Load(id) => if phase.Locked? { MoveKeepsInv(s, id, Loaded(phase.op, s.records), s.lock); }
    case Unlock(id) =>
      if phase.ReserveDone? || phase.CompleteDone? || phase.ReleaseDone? {
        MoveKeepsInv(s, id, AfterUnlock(r, phase), None);
      }
  }

  /** Steps that touch neither the lock nor the store. */
  lemma QuietKeepsInv(s: State, a: Action)
    requires Inv(s) && (a.GiveUp? || a.ReadVersion? || a.Die?) && a.id in s.callers
    ensures Inv(Step(s, a))
  {
    var Caller(r, phase) := s.callers[a.id];
    OneLockHolder(s);
    match a
    case GiveUp(id) =>
      if phase.Want? && s.lock.Some? { MoveKeepsInv(s, id, TurnedAway(Busied(r, phase.op)), s.lock); }
    case ReadVersion(id, version) =>
      if phase.CheckVersion? { MoveKeepsInv(s, id, Step(s, a).callers[id].phase, s.lock); }
    case Die(id) =>
      if !phase.Answered? && !phase.TurnedAway? { MoveKeepsInv(s, id, Dead, s.lock); }
  }

  lemma StepKeepsInv(s: State, a: Action)
    requires Inv(s) && KeepsCode(a)
    ensures Inv(Step(s, a))
  {
    if a.Arrive? {
      ArriveKeepsInv(s, a.id, a.request);
    } else if a.id in s.callers {
      match a
      case Write(id) => if s.callers[id].phase.Loaded? { WriteKeepsInv(s, id); }
      case RunHandler(id, env) => if s.callers[id].phase.Ready? { RunHandlerKeepsInv(s, id, env); }
      case Lock(_) => LockingKeepsInv(s, a);
      case Load(_) => LockingKeepsInv(s, a);
      case Unlock(_) => LockingKeepsInv(s, a);
      case GiveUp(_) => QuietKeepsInv(s, a);
      case ReadVersion(_, _) => QuietKeepsInv(s, a);
      case Die(_) => QuietKeepsInv(s, a);
    }
  }

  lemma {:induction false} RunKeepsInv(s: State, actions: seq<Action>)
    requires Inv(s) && forall a <- actions :: KeepsCode(a)
    ensures Inv(Run(s, actions))
    decreases |actions|
  {
    if actions != [] {
      StepKeepsInv(s, actions[0]);
      RunKeepsInv(Step(s, actions[0]), actions[1..]);
    }
  }
}
