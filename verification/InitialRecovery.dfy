/** The first activation of a contract that crashes is finished by calling it again. */
module InitialRecovery {
  import opened Wrappers
  import opened Durability
  import opened Lifecycle
  import SwitchRecovery

  /** The gates have passed, and the pointer is missing or already the right one. */
  ghost predicate Admitted(p: Project, a: Activation, pointer: Pointer) {
    && a.key.version == 1 && PreparePointer(p, a, []) == Success(pointer)
    && ReadPointer(p, a.key.contractId) in {Success(None), Success(Some(pointer))}
  }

  lemma AdmittedActivates(p: Project, a: Activation, pointer: Pointer)
    requires Admitted(p, a, pointer)
    ensures a.key in p.items && ActivateInitial(p, a) == PlaceInitial(p, a, pointer)
  {
  }

  lemma PlacedAnswersPointer(p: Project, a: Activation, pointer: Pointer)
    requires a.key in p.items
    ensures var answer := PlaceInitial(p, a, pointer).answer; answer.Success? ==> answer.value == pointer
  {
  }

  lemma SuccessIsAdmitted(p: Project, a: Activation)
    requires ActivateInitial(p, a).answer.Success?
    ensures Admitted(p, a, ActivateInitial(p, a).answer.value)
  {
    var pointer := PreparePointer(p, a, []).value;
    PlacedAnswersPointer(p, a, pointer);
  }

  /** The project with the version active, and with the pointer in place if `placed`. */
  function StateAt(p: Project, a: Activation, pointer: Pointer, placed: bool): Project
    requires a.key in p.items
  {
    var item := p.items[a.key];
    var active := WithStatus(p, a.key, if item.status.Candidate? then Activated(item, a.actor) else item);
    if placed then WithPointer(active, a.key.contractId, pointer) else active
  }

  lemma StepsOf(p: Project, a: Activation, pointer: Pointer)
    requires StoredDecisionError(p, a).None? && pointer.key == a.key && pointer.contentHash == a.contentHash
    ensures var placed := StateAt(p, a, pointer, true);
            PlaceInitial(p, a, pointer) ==
            Operation(if p.items[a.key].status.Candidate? then [StateAt(p, a, pointer, false), placed] else [placed],
                      Success(pointer))
  {
    if !p.items[a.key].status.Candidate? {
      assert StateAt(p, a, pointer, false) == p;
    }
  }

  lemma StoredStays(p: Project, a: Activation, pointer: Pointer, placed: bool)
    requires StoredDecisionError(p, a).None?
    ensures var q := StateAt(p, a, pointer, placed);
            StoredDecisionError(q, a).None? && StateAt(q, a, pointer, true) == StateAt(p, a, pointer, true)
  {
  }

  lemma PointerStays(p: Project, a: Activation, pointer: Pointer, placed: bool)
    requires StoredDecisionError(p, a).None? && pointer.key == a.key && pointer.contentHash == a.contentHash
    requires ReadPointer(p, a.key.contractId) in {Success(None), Success(Some(pointer))}
    ensures ReadPointer(StateAt(p, a, pointer, placed), a.key.contractId) in {Success(None), Success(Some(pointer))}
  {
  }

  /** A half-done activation is still admitted, and its end is the same. */
  lemma StaysAdmitted(p: Project, a: Activation, pointer: Pointer, placed: bool)
    requires Admitted(p, a, pointer)
    ensures a.key in p.items
    ensures var q := StateAt(p, a, pointer, placed);
            && Admitted(q, a, pointer) && StateAt(q, a, pointer, true) == StateAt(p, a, pointer, true)
  {
    SwitchRecovery.PreparedPointerFits(p, a, []);
    StoredStays(p, a, pointer, placed);
    PointerStays(p, a, pointer, placed);
    SwitchRecovery.SamePreparation(p, StateAt(p, a, pointer, placed), a, []);
  }

  ghost function Retried(p: Project, a: Activation, crashes: seq<nat>): Project
    decreases |crashes|
  {
    if crashes == [] then p else Retried(After(p, ActivateInitial(p, a).steps, crashes[0]), a, crashes[1..])
  }

  lemma CrashStaysAdmitted(p: Project, a: Activation, pointer: Pointer, k: nat)
    requires Admitted(p, a, pointer)
    ensures a.key in p.items
    ensures var q := After(p, ActivateInitial(p, a).steps, k);
            && Admitted(q, a, pointer) && a.key in q.items
            && StateAt(q, a, pointer, true) == StateAt(p, a, pointer, true)
  {
    AdmittedActivates(p, a, pointer);
    SwitchRecovery.PreparedPointerFits(p, a, []);
    StepsOf(p, a, pointer);
    StaysAdmitted(p, a, pointer, false);
    StaysAdmitted(p, a, pointer, true);
  }

  lemma {:induction false} RetriesStayAdmitted(p: Project, a: Activation, pointer: Pointer, crashes: seq<nat>)
    requires Admitted(p, a, pointer)
    ensures a.key in p.items
    ensures var q := Retried(p, a, crashes);
            && Admitted(q, a, pointer) && a.key in q.items
            && StateAt(q, a, pointer, true) == StateAt(p, a, pointer, true)
    decreases |crashes|
  {
    AdmittedActivates(p, a, pointer);
    if crashes != [] {
      CrashStaysAdmitted(p, a, pointer, crashes[0]);
      RetriesStayAdmitted(After(p, ActivateInitial(p, a).steps, crashes[0]), a, pointer, crashes[1..]);
    }
  }

  lemma EndOfActivation(p: Project, a: Activation, pointer: Pointer)
    requires Admitted(p, a, pointer)
    ensures a.key in p.items
    ensures ActivateInitial(p, a).answer == Success(pointer)
    ensures End(p, ActivateInitial(p, a).steps) == StateAt(p, a, pointer, true)
  {
    AdmittedActivates(p, a, pointer);
    SwitchRecovery.PreparedPointerFits(p, a, []);
    StepsOf(p, a, pointer);
  }

  /** However often the first activation crashed, one more call answers and leaves what an uninterrupted call does. */
  lemma RetriesFinishTheActivation(p: Project, a: Activation, crashes: seq<nat>)
    requires ActivateInitial(p, a).answer.Success?
    ensures var q := Retried(p, a, crashes);
            && ActivateInitial(q, a).answer == ActivateInitial(p, a).answer
            && End(q, ActivateInitial(q, a).steps) == End(p, ActivateInitial(p, a).steps)
  {
    var pointer := ActivateInitial(p, a).answer.value;
    SuccessIsAdmitted(p, a);
    EndOfActivation(p, a, pointer);
    RetriesStayAdmitted(p, a, pointer, crashes);
    EndOfActivation(Retried(p, a, crashes), a, pointer);
  }
}
