/** What holds of every interleaving of callers, crashes and retries, and exactly when. */
module CommandTheorems {
  import opened Wrappers
  import opened Commands
  import opened CommandRuns

  lemma RunConcat(s: State, first: seq<Action>, second: seq<Action>)
    ensures Run(s, first + second) == Run(Run(s, first), second)
    decreases |first|
  {
    if first == [] {
      assert first + second == second;
    } else {
      assert (first + second)[1..] == first[1..] + second;
      RunConcat(Step(s, first[0]), first[1..], second);
    }
  }

  lemma RunHead(s: State, a: Action, rest: seq<Action>)
    ensures Run(s, [a] + rest) == Run(Step(s, a), rest)
  {
    assert ([a] + rest)[1..] == rest;
  }

  lemma Run1(s: State, a: Action)
    ensures Run(s, [a]) == Step(s, a)
  {
    RunHead(s, a, []);
  }

  lemma Run4(s: State, a: Action, b: Action, c: Action, d: Action)
    ensures Run(s, [a, b, c, d]) == Step(Step(Step(Step(s, a), b), c), d)
  {
    RunHead(s, a, [b, c, d]);
    RunHead(Step(s, a), b, [c, d]);
    RunHead(Step(Step(s, a), b), c, [d]);
    Run1(Step(Step(Step(s, a), b), c), d);
    assert [a] + [b, c, d] == [a, b, c, d] && [b] + [c, d] == [b, c, d] && [c] + [d] == [c, d];
  }

  /** One caller from arrival to answer while no one else moves; disabled actions are skipped. */
  function ReserveActions(id: nat, r: Request): seq<Action> {
    [Arrive(id, r), Lock(id), Load(id), Write(id), Unlock(id)]
  }

  function HandleActions(id: nat, env: Environment): seq<Action> {
    [ReadVersion(id, env.version), RunHandler(id, env)]
  }

  function SettleActions(id: nat): seq<Action> {
    [Lock(id), Load(id), Write(id), Unlock(id)]
  }

  function SoloActions(id: nat, r: Request, env: Environment): seq<Action> {
    ReserveActions(id, r) + (HandleActions(id, env) + SettleActions(id))
  }

  function AtPhase(s: State, id: nat, r: Request, phase: Phase): State {
    s.(lock := None, callers := s.callers[id := Caller(r, phase)])
  }

  lemma SoloReserve(s: State, id: nat, r: Request)
    requires s.lock.None? && id !in s.callers
    ensures var (records, outcome) := Reserve(s.records, r.key, r.fingerprint);
            Run(s, ReserveActions(id, r)) ==
              AtPhase(s, id, r, AfterUnlock(r, ReserveDone(outcome))).(records := records)
  {
    var (records, outcome) := Reserve(s.records, r.key, r.fingerprint);
    var s1 := Step(s, Arrive(id, r));
    var s2 := Step(s1, Lock(id));
    var s3 := Step(s2, Load(id));
    var s4 := Step(s3, Write(id));
    var s5 := Step(s4, Unlock(id));
    assert s5.callers == s.callers[id := Caller(r, AfterUnlock(r, ReserveDone(outcome)))];
    RunHead(s, Arrive(id, r), [Lock(id), Load(id), Write(id), Unlock(id)]);
    Run4(s1, Lock(id), Load(id), Write(id), Unlock(id));
    assert ReserveActions(id, r) == [Arrive(id, r)] + [Lock(id), Load(id), Write(id), Unlock(id)];
  }

  /** The records, and the phase reached, when a waiting caller gets the lock and nothing interferes. */
  function Settled(records: StoreRecords, r: Request, phase: Phase): (StoreRecords, Phase) {
    match phase
    case Want(ToComplete(result)) =>
      var (after, done) := Complete(records, r.key, r.fingerprint, result);
      (after, AfterUnlock(r, CompleteDone(result, done.Success?)))
    case Want(ToRelease(result)) =>
      var (after, done) := Release(records, r.key, r.fingerprint);
      (after, AfterUnlock(r, ReleaseDone(result, done.Success?)))
    case _ => (records, phase)
  }

  lemma SoloSettle(s: State, id: nat)
    requires s.lock.None? && id in s.callers && !(s.callers[id].phase.Want? && s.callers[id].phase.op.ToReserve?)
    requires !HoldsLock(s.callers[id].phase)
    ensures var r := s.callers[id].request;
            var (records, phase) := Settled(s.records, r, s.callers[id].phase);
            Run(s, SettleActions(id)) == AtPhase(s, id, r, phase).(records := records)
  {
    var Caller(r, phase) := s.callers[id];
    var s2 := Step(s, Lock(id));
    var s3 := Step(s2, Load(id));
    var s4 := Step(s3, Write(id));
    var s5 := Step(s4, Unlock(id));
    var (records, after) := Settled(s.records, r, phase);
    assert s5.callers == s.callers[id := Caller(r, after)];
    Run4(s, Lock(id), Load(id), Write(id), Unlock(id));
  }

  /** The phase after the version check and the handler, and whether the handler ran. */
  function HandledPhase(r: Request, env: Environment, phase: Phase): (Phase, bool) {
    if !phase.CheckVersion? then (phase, false)
    else
      match env.version
      case Unreadable => (Dispatch(Refusal(r, Failed, VERSION_UNAVAILABLE, true)), false)
      case Differs => (Dispatch(Refusal(r, Rejected, "version_conflict", true)), false)
      case Matches => (Dispatch(HandlerResult(r, env)), true)
  }

  lemma SoloHandle(s: State, id: nat, env: Environment)
    requires s.lock.None? && id in s.callers && !s.callers[id].phase.Ready?
    ensures var r := s.callers[id].request;
            var (phase, ran) := HandledPhase(r, env, s.callers[id].phase);
            Run(s, HandleActions(id, env)) ==
            AtPhase(s, id, r, phase).(ran := s.ran + if ran then [HandlerRun(r.key, r.fingerprint)] else [])
  {
    var s1 := Step(s, ReadVersion(id, env.version));
    SoloHandled(s, id, env);
    RunHead(s, ReadVersion(id, env.version), [RunHandler(id, env)]);
    Run1(s1, RunHandler(id, env));
    assert HandleActions(id, env) == [ReadVersion(id, env.version)] + [RunHandler(id, env)];
  }

  /** The version check and the handler, one after the other. */
  lemma SoloHandled(s: State, id: nat, env: Environment)
    requires s.lock.None? && id in s.callers && !s.callers[id].phase.Ready?
    ensures var r := s.callers[id].request;
            var (phase, ran) := HandledPhase(r, env, s.callers[id].phase);
            Step(Step(s, ReadVersion(id, env.version)), RunHandler(id, env)) ==
            AtPhase(s, id, r, phase).(ran := s.ran + if ran then [HandlerRun(r.key, r.fingerprint)] else [])
  {
    var s2 := Step(Step(s, ReadVersion(id, env.version)), RunHandler(id, env));
    var (phase, ran) := HandledPhase(s.callers[id].request, env, s.callers[id].phase);
    assert s2.callers == s.callers[id := Caller(s.callers[id].request, phase)];
    assert s.ran + [] == s.ran;
  }

  /** What a call that nothing interferes with does to the store, and its answer. */
  datatype Effect = Effect(records: StoreRecords, ran: bool, phase: Phase)

  function Solo(records: StoreRecords, r: Request, env: Environment): Effect {
    var (reserved, outcome) := Reserve(records, r.key, r.fingerprint);
    var (handled, ran) := HandledPhase(r, env, AfterUnlock(r, ReserveDone(outcome)));
    var (settled, phase) := Settled(reserved, r, handled);
    Effect(settled, ran, phase)
  }

  lemma SoloRun(s: State, id: nat, r: Request, env: Environment)
    requires s.lock.None? && id !in s.callers
    ensures var effect := Solo(s.records, r, env);
            Run(s, SoloActions(id, r, env)) ==
            AtPhase(s, id, r, effect.phase).(
              records := effect.records,
              ran := s.ran + if effect.ran then [HandlerRun(r.key, r.fingerprint)] else [])
  {
    var (reserved, outcome) := Reserve(s.records, r.key, r.fingerprint);
    var a := AtPhase(s, id, r, AfterUnlock(r, ReserveDone(outcome))).(records := reserved);
    SoloReserve(s, id, r);
    RunConcat(s, ReserveActions(id, r), HandleActions(id, env) + SettleActions(id));
    SoloTail(a, id, env);
    var effect := Solo(s.records, r, env);
    assert AtPhase(a, id, r, effect.phase).callers == AtPhase(s, id, r, effect.phase).callers;
  }

  lemma SoloTail(a: State, id: nat, env: Environment)
    requires a.lock.None? && id in a.callers
    requires a.callers[id].phase.CheckVersion? || a.callers[id].phase.Answered? || a.callers[id].phase.TurnedAway?
    ensures var r := a.callers[id].request;
            var (handled, ran) := HandledPhase(r, env, a.callers[id].phase);
            var (settled, phase) := Settled(a.records, r, handled);
            Run(a, HandleActions(id, env) + SettleActions(id)) ==
            AtPhase(a, id, r, phase).(
              records := settled,
              ran := a.ran + if ran then [HandlerRun(r.key, r.fingerprint)] else [])
  {
    var r := a.callers[id].request;
    var b := Run(a, HandleActions(id, env));
    SoloHandle(a, id, env);
    SoloSettle(b, id);
    RunConcat(a, HandleActions(id, env), SettleActions(id));
    var (settled, phase) := Settled(a.records, r, HandledPhase(r, env, a.callers[id].phase).0);
    assert AtPhase(b, id, r, phase).callers == AtPhase(a, id, r, phase).callers;
  }

  // ----- Main results -----

  /** Every handler run uses a code from `codes`, if it uses a code of its own at all. */
  ghost predicate CodesFrom(actions: seq<Action>, codes: set<string>) {
    forall a <- actions :: a.RunHandler? && HandlerCode(a.env.handled).Some? ==>
      HandlerCode(a.env.handled).value in codes
  }

  lemma TwiceIsNotOnce(s: State, run: HandlerRun)
    requires s.ran == [run, run]
    ensures !AtMostOnce(s)
  {
    assert s.ran[0].key == s.ran[1].key;
  }

  /** Such a handler runs and leaves no record. */
  lemma ReservedCodeForgets(s: State, id: nat, r: Request, env: Environment)
    requires env.version == Matches && HandlerCode(env.handled) == Some(VERSION_UNAVAILABLE)
    requires s.lock.None? && id !in s.callers && s.records == map[]
    ensures var t := Run(s, SoloActions(id, r, env));
            && t.records == map[] && t.lock.None? && t.callers.Keys == s.callers.Keys + {id}
            && t.ran == s.ran + [HandlerRun(r.key, r.fingerprint)]
  {
    HandlerResultCode(r, env);
    SoloRun(s, id, r, env);
  }

  lemma SoloCodes(id: nat, r: Request, env: Environment, codes: set<string>)
    requires HandlerCode(env.handled) == Some(VERSION_UNAVAILABLE) && VERSION_UNAVAILABLE in codes
    ensures CodesFrom(SoloActions(id, r, env), codes)
  {
  }

  /** A handler that reports the reserved code has its reservation released, and runs again on a retry. */
  lemma ReservedCodeRunsTwice(r: Request, env: Environment, codes: set<string>)
    requires env.version == Matches && HandlerCode(env.handled) == Some(VERSION_UNAVAILABLE)
             && VERSION_UNAVAILABLE in codes
    ensures var actions := SoloActions(0, r, env) + SoloActions(1, r, env);
            CodesFrom(actions, codes) && !AtMostOnce(Run(START, actions))
  {
    var s := Run(START, SoloActions(0, r, env));
    var t := Run(s, SoloActions(1, r, env));
    ReservedCodeForgets(START, 0, r, env);
    ReservedCodeForgets(s, 1, r, env);
    RunConcat(START, SoloActions(0, r, env), SoloActions(1, r, env));
    assert t.ran == [HandlerRun(r.key, r.fingerprint), HandlerRun(r.key, r.fingerprint)];
    TwiceIsNotOnce(t, HandlerRun(r.key, r.fingerprint));
    SoloCodes(0, r, env, codes);
    SoloCodes(1, r, env, codes);
  }

  /** Each key runs the handler at most once, in every run, exactly when handlers never report the reserved code. */
  lemma AtMostOnceIff(codes: set<string>)
    ensures (forall actions :: CodesFrom(actions, codes) ==> AtMostOnce(Run(START, actions))) <==>
            VERSION_UNAVAILABLE !in codes
  {
    if VERSION_UNAVAILABLE in codes {
      var env := Environment(Matches, RejectedWith(CommandError(VERSION_UNAVAILABLE, true)), NotScheduled, "");
      ReservedCodeRunsTwice(Request("", "", "", ""), env, codes);
    } else {
      forall actions | CodesFrom(actions, codes)
        ensures AtMostOnce(Run(START, actions))
      {
        RunKeepsInv(START, actions);
      }
    }
  }

  /** All calls that return a stored result under one key had the same fingerprint and return the same result. */
  lemma OneStoredResult(actions: seq<Action>, i: nat, j: nat)
    requires forall a <- actions :: KeepsCode(a)
    requires var s := Run(START, actions);
             && i in s.callers && j in s.callers && s.callers[i].request.key == s.callers[j].request.key
             && s.callers[i].phase.Answered? && s.callers[j].phase.Answered?
    ensures var s := Run(START, actions);
            && s.callers[i].phase.result == s.callers[j].phase.result
            && s.callers[i].request.fingerprint == s.callers[j].request.fingerprint
            && s.callers[i].request.key in s.records
            && s.records[s.callers[i].request.key] ==
               Completed(s.callers[i].request.fingerprint, s.callers[i].phase.result)
  {
    RunKeepsInv(START, actions);
    var s := Run(START, actions);
    assert CallerOk(s, i) && CallerOk(s, j);
  }

  /** Whoever shares a key with a handler run but not its fingerprint is never answered and owns nothing. */
  lemma OtherFingerprintNeverRuns(actions: seq<Action>, n: nat, i: nat)
    requires forall a <- actions :: KeepsCode(a)
    requires var s := Run(START, actions);
             && n < |s.ran| && i in s.callers && s.callers[i].request.key == s.ran[n].key
             && s.callers[i].request.fingerprint != s.ran[n].fingerprint
    ensures var s := Run(START, actions);
            && !Owns(s.callers[i].phase) && !s.callers[i].phase.Answered?
            && (forall m :: 0 <= m < |s.ran| && s.ran[m].key == s.ran[n].key ==> m == n)
  {
    RunKeepsInv(START, actions);
    var s := Run(START, actions);
    assert CallerOk(s, i) && RanOk(s, n);
  }

  /** A reservation is only ever given back while the handler has not run for its key. */
  lemma ReleaseOnlyBeforeHandler(actions: seq<Action>, i: nat, n: nat)
    requires forall a <- actions :: KeepsCode(a)
    requires var s := Run(START, actions);
             && i in s.callers && s.callers[i].phase.Loaded? && s.callers[i].phase.op.ToRelease? && n < |s.ran|
    ensures var s := Run(START, actions); s.callers[i].request.key != s.ran[n].key
  {
    RunKeepsInv(START, actions);
    assert RanOk(Run(START, actions), n);
  }

  lemma StepKeepsCompleted(s: State, a: Action, key: string)
    requires Inv(s) && key in s.records && s.records[key].Completed?
    ensures key in Step(s, a).records && Step(s, a).records[key] == s.records[key]
  {
    if a.Write? && a.id in s.callers {
      assert CallerOk(s, a.id);
    }
  }

  /** A stored result is never changed or removed again. */
  lemma {:induction false} CompletedForever(s: State, actions: seq<Action>, key: string)
    requires Inv(s) && (forall a <- actions :: KeepsCode(a)) && key in s.records && s.records[key].Completed?
    ensures key in Run(s, actions).records && Run(s, actions).records[key] == s.records[key]
    decreases |actions|
  {
    if actions != [] {
      StepKeepsCompleted(s, actions[0], key);
      StepKeepsInv(s, actions[0]);
      CompletedForever(Step(s, actions[0]), actions[1..], key);
    }
  }

  /** Retrying an answered command at any later time, alone, gives the same answer and does not run the handler. */
  lemma RetryReplays(actions: seq<Action>, i: nat, late: nat, env: Environment)
    requires forall a <- actions :: KeepsCode(a)
    requires var s := Run(START, actions);
             i in s.callers && s.callers[i].phase.Answered? && late !in s.callers && s.lock.None?
    ensures var s := Run(START, actions);
            var r := s.callers[i].request;
            var t := Run(s, SoloActions(late, r, env));
            late in t.callers && t.callers[late].phase == s.callers[i].phase && t.ran == s.ran && t.records == s.records
  {
    RunKeepsInv(START, actions);
    var s := Run(START, actions);
    assert CallerOk(s, i);
    SoloRun(s, late, s.callers[i].request, env);
    assert s.ran + [] == s.ran;
  }
}
