/** The orchestrator's steps: read the current checkpoint of a chapter, then append its advances. */
module ChapterOrchestrator {
  import opened Wrappers
  import opened Durability
  import opened Checkpoints
  import opened CheckpointRuns
  import opened CheckpointStore

  // ----- Advancing the current checkpoint -----

  lemma CurrentIsLast(d: Disk, projectId: string, chapter: nat)
    requires Inv(d) && Current(d, projectId, chapter).Success?
    ensures var path := Chapter(Records(d.lines), projectId, chapter);
            var current := Current(d, projectId, chapter).value;
            && IsPath(path, projectId, chapter) && path != [] && current == path[|path| - 1]
            && current.projectId == projectId && current.chapter == chapter && current.sequence == |path|
            && current in Records(d.lines)
  {
    var path := Chapter(Records(d.lines), projectId, chapter);
    assert PathOk(Records(d.lines), projectId, chapter);
    PathCounts(path, projectId, chapter, |path| - 1);
    ChapterMembers(Records(d.lines), projectId, chapter);
  }

  /** A key that the path has not reached yet is not in the log. */
  lemma NextKeyIsNew(d: Disk, projectId: string, chapter: nat, item: Checkpoint)
    requires Inv(d)
    requires item.key == IdempotencyKey(projectId, chapter, |Chapter(Records(d.lines), projectId, chapter)| + 1)
    ensures FindKey(Records(d.lines), item.key).None?
  {
    var records := Records(d.lines);
    if FindKey(records, item.key).Some? {
      var stored := FindKey(records, item.key).value;
      assert PathOk(records, stored.projectId, stored.chapter);
      var i := Position(records, stored);
      KeyInjective(stored.projectId, stored.chapter, stored.sequence, projectId, chapter,
                   |Chapter(records, projectId, chapter)| + 1);
    }
  }

  /**
   An advance of the current checkpoint is always answered with success; it becomes current exactly if the log
   is usable and the advance stays one line, and otherwise the log does not read back any more.
   */
  lemma AdvanceOfCurrentIsAppended(d: Disk, projectId: string, chapter: nat, state: State, refs: seq<string>, cut: Cut)
    requires Inv(d) && Current(d, projectId, chapter).Success?
    requires Advance(Current(d, projectId, chapter).value, state, refs).Success?
    ensures var item := Advance(Current(d, projectId, chapter).value, state, refs).value;
            var op := Append(d, item, cut);
            && op.answer == Success(item)
            && Current(End(d, op.steps), projectId, chapter) ==
               (if Usable(d) && OneLine(item) then Success(item) else Failure(Tampered))
            && (Usable(d) && OneLine(item) ==> End(d, op.steps).ending.Whole?)
  {
    var item := Advance(Current(d, projectId, chapter).value, state, refs).value;
    CurrentIsLast(d, projectId, chapter);
    NextKeyIsNew(d, projectId, chapter, item);
    BecomesCurrent(d, item, cut);
  }

  /** One of U+0085, U+2028 and U+2029, at which a log is split when it is read. */
  predicate Separates(ch: char) {
    ch == '\U{85}' || ch == '\U{2028}' || ch == '\U{2029}'
  }

  /**
   On a usable log an advance becomes current exactly if neither the project name nor any of its references holds
   a separator; otherwise it is answered with success too, and the log does not read back any more.
   */
  lemma SeparatorsSpoil(d: Disk, projectId: string, chapter: nat, state: State, refs: seq<string>, cut: Cut)
    requires Inv(d) && Usable(d) && Current(d, projectId, chapter).Success?
    requires Advance(Current(d, projectId, chapter).value, state, refs).Success?
    ensures var item := Advance(Current(d, projectId, chapter).value, state, refs).value;
            var after := End(d, Append(d, item, cut).steps);
            && Append(d, item, cut).answer == Success(item)
            && (Current(after, projectId, chapter) == Success(item) <==>
                (forall ch <- projectId :: !Separates(ch)) && forall r <- refs, ch <- r :: !Separates(ch))
            && (Current(after, projectId, chapter) != Success(item) ==>
                  Current(after, projectId, chapter) == Failure(Tampered))
  {
    var item := Advance(Current(d, projectId, chapter).value, state, refs).value;
    AdvanceOfCurrentIsAppended(d, projectId, chapter, state, refs, cut);
    CurrentIsLast(d, projectId, chapter);
    OneLineIff(item);
    assert forall ch: char :: Separates(ch) <==> BreaksLine(ch);
  }

  lemma InitialIsAppended(d: Disk, projectId: string, chapter: nat, cut: Cut)
    requires Inv(d) && Current(d, projectId, chapter) == Failure(NoCheckpoint) && Initial(projectId, chapter).Success?
    ensures var item := Initial(projectId, chapter).value;
            var op := Append(d, item, cut);
            && (if d.ending.Empty? then op == Operation([], Failure(Unreadable)) else op.answer == Success(item))
            && (!d.ending.Empty? ==> Current(End(d, op.steps), projectId, chapter) ==
                                     if Usable(d) && OneLine(item) then Success(item) else Failure(Tampered))
            && (Usable(d) && OneLine(item) ==> End(d, op.steps).ending.Whole?)
  {
    var item := Initial(projectId, chapter).value;
    NextKeyIsNew(d, projectId, chapter, item);
    BecomesCurrent(d, item, cut);
  }

  lemma LastIsCurrent(d: Disk, item: Checkpoint, q: Disk)
    requires Recover(d.lines) == Success(Records(d.lines))
    requires q.lines == d.lines + [NextEntry(d.lines, item)] && q.ending.Whole?
    ensures Current(q, item.projectId, item.chapter) == Success(item)
  {
    RecoverSnoc(d.lines, item);
    ChapterSnoc(Records(d.lines), item, item.projectId, item.chapter);
  }

  lemma WholeBecomesCurrent(d: Disk, item: Checkpoint, cut: Cut)
    requires Inv(d) && d.ending.Whole? && Accepts(d, item)
    ensures var op := Append(d, item, cut);
            && op.answer == Success(item)
            && Current(End(d, op.steps), item.projectId, item.chapter) ==
               (if OneLine(item) then Success(item) else Failure(Tampered))
            && (OneLine(item) ==> End(d, op.steps).ending.Whole?)
  {
    WholeLogGrows(d, item, cut);
    if OneLine(item) {
      LastIsCurrent(d, item, End(d, Append(d, item, cut).steps));
    }
  }

  lemma BecomesCurrent(d: Disk, item: Checkpoint, cut: Cut)
    requires Inv(d) && !d.ending.Torn? && Accepts(d, item)
    ensures var op := Append(d, item, cut);
            if d.ending.Empty? then op == Operation([], Failure(Unreadable)) && !Usable(d)
            else
              && op.answer == Success(item)
              && Current(End(d, op.steps), item.projectId, item.chapter) ==
                 (if Usable(d) && OneLine(item) then Success(item) else Failure(Tampered))
              && (Usable(d) && OneLine(item) ==> End(d, op.steps).ending.Whole?)
  {
    WholeIffUsable(d);
    if d.ending.Whole? {
      WholeBecomesCurrent(d, item, cut);
    } else if d.ending.Unended? {
      assert Append(d, item, cut) == Operation(Writes(d, item, cut), Success(item));
    }
  }

  /** An append makes at most four durable writes. */
  lemma FewWrites(d: Disk, item: Checkpoint, cut: Cut)
    ensures |Append(d, item, cut).steps| <= 4
  {
  }

  // ----- The orchestrator -----

  datatype View = View(projectId: string, chapter: nat, state: State, hash: Digest, refs: seq<string>)

  function ViewOf(c: Checkpoint): View {
    View(c.projectId, c.chapter, c.state, c.hash, c.refs)
  }

  datatype Ended = Died | Refused(error: CheckpointError) | Shown(view: View)

  /** A log that ends in whole lines is exactly one that can be used, by `WholeIffUsable`. */
  class ChapterProductionOrchestrator {
    const checkpoints: ChapterRunCheckpointStore

    constructor (checkpoints: ChapterRunCheckpointStore)
      ensures this.checkpoints == checkpoints
    {
      this.checkpoints := checkpoints;
    }

    /** Appends an advance of `current`, which is the chapter's current checkpoint unless the log is torn. */
    method Proceed(current: Checkpoint, state: State, refs: seq<string>, crashAfter: nat, cut: Cut)
      returns (outcome: Outcome<Checkpoint>, left: nat, ghost step: Step)
      requires Inv(checkpoints.View()) && IsCurrent(current)
      modifies checkpoints
      ensures step.Proceed? && checkpoints.View() == Perform(old(checkpoints.View()), step) && Inv(checkpoints.View())
      ensures outcome.Returned? && !old(checkpoints.ending.Torn?) ==> outcome.answer == Advance(current, state, refs)
      ensures outcome.Returned? && old(checkpoints.ending.Torn?) ==> outcome.answer.Failure?
      ensures outcome.Returned? && outcome.answer.Success? ==> IsCurrent(outcome.answer.value)
      ensures crashAfter >= 4 ==> outcome.Returned? && left >= crashAfter - 4
      ensures outcome.Returned? && old(checkpoints.ending.Whole?) && OneLineText(current.projectId)
              && OneLineRefs(refs) ==>
                checkpoints.ending.Whole?
    {
      left := crashAfter;
      ghost var d := checkpoints.View();
      step := StepFor(d, current, state, refs, crashAfter, cut);
      var next := Advance(current, state, refs);
      if next.Failure? {
        return Returned(Failure(next.error)), left, step;
      }
      FewWrites(d, next.value, cut);
      outcome, left := checkpoints.AppendCheckpoint(next.value, crashAfter, cut);
    }

    /** Appends the chapter's first checkpoint. */
    method Open(projectId: string, chapter: nat, crashAfter: nat, cut: Cut)
      returns (outcome: Outcome<Checkpoint>, left: nat, ghost step: Step)
      requires Inv(checkpoints.View()) && Current(checkpoints.View(), projectId, chapter) == Failure(NoCheckpoint)
      modifies checkpoints
      ensures step == Begin(projectId, chapter, crashAfter, cut)
      ensures checkpoints.View() == Perform(old(checkpoints.View()), step) && Inv(checkpoints.View())
      ensures outcome.Returned? ==>
                outcome.answer == if Initial(projectId, chapter).Success? && old(checkpoints.ending.Empty?)
                                  then Failure(Unreadable) else Initial(projectId, chapter)
      ensures outcome.Returned? && outcome.answer.Success? ==> IsCurrent(outcome.answer.value)
      ensures crashAfter >= 4 ==> outcome.Returned? && left >= crashAfter - 4
      ensures outcome.Returned? && old(checkpoints.ending.Whole?) && OneLineText(projectId) ==>
                checkpoints.ending.Whole?
    {
      left := crashAfter;
      ghost var d := checkpoints.View();
      step := Begin(projectId, chapter, crashAfter, cut);
      StepKeeps(d, step);
      var first := Initial(projectId, chapter);
      if first.Failure? {
        return Returned(Failure(first.error)), left, step;
      }
      InitialIsAppended(d, projectId, chapter, cut);
      OneLineIff(first.value);
      WholeIffUsable(d);
      FewWrites(d, first.value, cut);
      outcome, left := checkpoints.AppendCheckpoint(first.value, crashAfter, cut);
      PerformsAppend(d, step, first.value);
    }

    /** The chapter's current checkpoint, as long as the log still reads back. */
    predicate IsCurrent(c: Checkpoint)
      reads checkpoints
    {
      checkpoints.ending.Torn? || Current(checkpoints.View(), c.projectId, c.chapter) == Success(c)
    }

    /** What the log says about the chapter. */
    function CurrentOf(projectId: string, chapter: nat): Result<Checkpoint, CheckpointError>
      reads checkpoints
    {
      Current(checkpoints.View(), projectId, chapter)
    }

    /** The chapter has no checkpoint yet, or waits for its readiness to be approved. */
    predicate AtStart(projectId: string, chapter: nat)
      reads checkpoints
    {
      || CurrentOf(projectId, chapter) == Failure(NoCheckpoint)
      || (CurrentOf(projectId, chapter).Success?
          && CurrentOf(projectId, chapter).value.state == AwaitingReadinessApproval)
    }

    /** The answer shows the chapter's current checkpoint. */
    predicate ShowsCurrent(projectId: string, chapter: nat, ended: Ended)
      reads checkpoints
    {
      ended.Shown? && !checkpoints.ending.Torn? ==>
        Current(checkpoints.View(), projectId, chapter).Success?
        && ended.view == ViewOf(Current(checkpoints.View(), projectId, chapter).value)
    }

    /** The chapter's current checkpoint, created if there is none. */
    method CurrentOrFirst(projectId: string, chapter: nat, crashAfter: nat, cut: Cut)
      returns (outcome: Outcome<Checkpoint>, left: nat, ghost steps: seq<Step>)
      requires Inv(checkpoints.View())
      modifies checkpoints
      ensures checkpoints.View() == Run(old(checkpoints.View()), steps) && Inv(checkpoints.View())
      ensures outcome.Returned? && outcome.answer.Success? ==>
                && IsCurrent(outcome.answer.value)
                && outcome.answer.value.projectId == projectId && outcome.answer.value.chapter == chapter
      ensures old(CurrentOf(projectId, chapter)) != Failure(NoCheckpoint) ==>
                && outcome == Returned(old(CurrentOf(projectId, chapter))) && steps == []
                && checkpoints.View() == old(checkpoints.View())
      ensures old(CurrentOf(projectId, chapter)) == Failure(NoCheckpoint) ==>
                && steps == [Begin(projectId, chapter, crashAfter, cut)]
                && (outcome.Returned? ==> outcome.answer in {Initial(projectId, chapter), Failure(Unreadable)})
                && (outcome.Returned? && old(checkpoints.ending.Whole?) ==>
                    outcome.answer == Initial(projectId, chapter))
      ensures crashAfter >= 4 ==> outcome.Returned? && left >= crashAfter - 4
      ensures outcome.Returned? && old(checkpoints.ending.Whole?) && OneLineText(projectId) ==>
                checkpoints.ending.Whole?
    {
      steps := [];
      var found := checkpoints.CurrentCheckpoint(projectId, chapter);
      if found != Failure(NoCheckpoint) {
        if found.Success? {
          CurrentIsLast(checkpoints.View(), projectId, chapter);
        }
        return Returned(found), crashAfter, steps;
      }
      ghost var step;
      outcome, left, step := Open(projectId, chapter, crashAfter, cut);
      steps := [step];
      RunOne(old(checkpoints.View()), step);
    }

    /** Advances a chapter whose readiness is approved, as far as there is a projection. */
    method ApproveReadiness(current: Checkpoint, projection: Option<string>, crashAfter: nat, cut: Cut)
      returns (ended: Ended, ghost steps: seq<Step>)
      requires Inv(checkpoints.View()) && IsCurrent(current)
      modifies checkpoints
      ensures checkpoints.View() == Run(old(checkpoints.View()), steps) && Inv(checkpoints.View())
      ensures ShowsCurrent(current.projectId, current.chapter, ended)
      ensures ended.Shown? && projection.None? ==>
                ended.view.state == ReadinessApproved && ended.view.refs == ["readiness"]
      ensures ended.Shown? && projection.Some? ==>
                ended.view.state == DirectorProposed && ended.view.refs == [projection.value]
      ensures crashAfter >= 8 ==> !ended.Died?
      ensures !ended.Died? && old(checkpoints.ending.Whole?) && OneLineText(current.projectId)
              && current.state == AwaitingReadinessApproval ==>
                ended.Shown?
      ensures !ended.Died? && old(checkpoints.ending.Whole?) && OneLineText(current.projectId)
              && OneLineRefs(ProjectionRefs(projection)) ==>
                checkpoints.ending.Whole?
    {
      var outcome, left;
      ghost var step;
      ReadinessIsOneLine();
      outcome, left, step := Proceed(current, ReadinessApproved, ["readiness"], crashAfter, cut);
      steps := [step];
      RunOne(old(checkpoints.View()), step);
      if outcome.Crashed? {
        return Died, steps;
      }
      if outcome.answer.Failure? {
        return Refused(outcome.answer.error), steps;
      }
      AdvanceKeepsIdentity(current, ReadinessApproved, ["readiness"]);
      var approved := outcome.answer.value;
      if projection.None? {
        return Shown(ViewOf(approved)), steps;
      }
      outcome, left, step := Proceed(approved, DirectorProposed, ProjectionRefs(projection), left, cut);
      RunSnoc(old(checkpoints.View()), steps, step);
      steps := steps + [step];
      if outcome.Crashed? {
        return Died, steps;
      }
      if outcome.answer.Failure? {
        return Refused(outcome.answer.error), steps;
      }
      AdvanceKeepsIdentity(approved, DirectorProposed, ProjectionRefs(projection));
      return Shown(ViewOf(outcome.answer.value)), steps;
    }

    /**
     `ready` is the readiness audit's answer, `projection` the hash of the engagement projection if there is one.
     A chapter at its start goes as far as these two let it; one further on is shown as it is; without readiness
     nothing is written but a first checkpoint.
     */
    method Start(projectId: string, chapter: nat, ready: bool, projection: Option<string>, crashAfter: nat, cut: Cut)
      returns (ended: Ended, ghost steps: seq<Step>)
      requires Inv(checkpoints.View())
      modifies checkpoints
      ensures checkpoints.View() == Run(old(checkpoints.View()), steps) && Inv(checkpoints.View())
      ensures ShowsCurrent(projectId, chapter, ended)
      ensures ended.Shown? && old(AtStart(projectId, chapter)) && !ready ==>
                ended.view.state == AwaitingReadinessApproval
      ensures ended.Shown? && old(AtStart(projectId, chapter)) && ready && projection.None? ==>
                ended.view.state == ReadinessApproved && ended.view.refs == ["readiness"]
      ensures ended.Shown? && old(AtStart(projectId, chapter)) && ready && projection.Some? ==>
                ended.view.state == DirectorProposed && ended.view.refs == [projection.value]
      ensures !old(AtStart(projectId, chapter)) ==>
                var found := old(CurrentOf(projectId, chapter));
                && checkpoints.View() == old(checkpoints.View()) && steps == []
                && ended == if found.Success? then Shown(ViewOf(found.value)) else Refused(found.error)
      ensures crashAfter >= 12 ==> !ended.Died?
      ensures !ended.Died? && old(AtStart(projectId, chapter)) && old(checkpoints.ending.Whole?)
              && OneLineText(projectId) && projectId != "" && chapter != 0 ==>
                ended.Shown?
      ensures !ready ==> |steps| <= 1 && forall step <- steps :: step == Begin(projectId, chapter, crashAfter, cut)
      ensures old(CurrentOf(projectId, chapter)).Success? && !ready ==> steps == []
      ensures !ended.Died? && old(checkpoints.ending.Whole?) && OneLineText(projectId)
              && OneLineRefs(ProjectionRefs(projection)) ==>
                checkpoints.ending.Whole?
    {
      var outcome: Outcome<Checkpoint>;
      var left: nat;
      outcome, left, steps := CurrentOrFirst(projectId, chapter, crashAfter, cut);
      if outcome.Crashed? {
        return Died, steps;
      }
      if outcome.answer.Failure? {
        return Refused(outcome.answer.error), steps;
      }
      var current := outcome.answer.value;
      if current.state != AwaitingReadinessApproval || !ready {
        return Shown(ViewOf(current)), steps;
      }
      ghost var more;
      ended, more := ApproveReadiness(current, projection, left, cut);
      RunConcat(old(checkpoints.View()), steps, more);
      steps := steps + more;
    }

    /** `record` and `context` are the stored review's hash and the artifact's context fingerprint. */
    method RecordEngagementReview(projectId: string, chapter: nat, record: string, context: string,
                                  crashAfter: nat, cut: Cut)
      returns (ended: Ended, ghost steps: seq<Step>)
      requires Inv(checkpoints.View())
      modifies checkpoints
      ensures checkpoints.View() == Run(old(checkpoints.View()), steps) && Inv(checkpoints.View())
      ensures ShowsCurrent(projectId, chapter, ended)
      ensures var found := old(CurrentOf(projectId, chapter));
              if found.Failure? then ended == Refused(found.error) && checkpoints.View() == old(checkpoints.View())
              else if found.value.state != DirectorProposed then
                ended == Refused(InvalidTransition) && checkpoints.View() == old(checkpoints.View())
              else
                ended.Died? || (ended.Shown? && ended.view.state == EngagementReviewed
                                && ended.view.refs == [record, context])
      ensures crashAfter >= 4 ==> !ended.Died?
      ensures !ended.Died? && old(checkpoints.ending.Whole?) && OneLineText(projectId) && OneLineText(record)
              && OneLineText(context) ==>
                checkpoints.ending.Whole?
    {
      steps := [];
      var found := checkpoints.CurrentCheckpoint(projectId, chapter);
      if found.Failure? {
        return Refused(found.error), steps;
      }
      CurrentIsLast(checkpoints.View(), projectId, chapter);
      if found.value.state != DirectorProposed {
        return Refused(InvalidTransition), steps;
      }
      ghost var step;
      var advanced: Outcome<Checkpoint>;
      var left: nat;
      MayReview(found.value, [record, context]);
      advanced, left, step := Proceed(found.value, EngagementReviewed, [record, context], crashAfter, cut);
      steps := [step];
      RunOne(old(checkpoints.View()), step);
      return if advanced.Crashed? then Died else Shown(ViewOf(advanced.answer.value)), steps;
    }

    /** `complete` is the evaluator's verdict about the chapter's fulfillment. */
    method RecordFulfillment(projectId: string, chapter: nat, contractHash: string, artifactHash: string,
                             complete: bool, crashAfter: nat, cut: Cut)
      returns (ended: Ended, ghost steps: seq<Step>)
      requires Inv(checkpoints.View())
      modifies checkpoints
      ensures checkpoints.View() == Run(old(checkpoints.View()), steps) && Inv(checkpoints.View())
      ensures ShowsCurrent(projectId, chapter, ended)
      ensures var found := old(CurrentOf(projectId, chapter));
              if found.Failure? then ended == Refused(found.error) && checkpoints.View() == old(checkpoints.View())
              else if found.value.state == FulfillmentRecorded then
                ended == Shown(ViewOf(found.value)) && checkpoints.View() == old(checkpoints.View())
              else if found.value.state != EngagementReviewed then
                ended == Refused(InvalidTransition) && checkpoints.View() == old(checkpoints.View())
              else
                ended.Died? || (ended.Shown?
                                && ended.view.state == (if complete then FulfillmentRecorded else FulfillmentIncomplete)
                                && ended.view.refs == if complete then [contractHash, artifactHash] else [artifactHash])
      ensures crashAfter >= 4 ==> !ended.Died?
      ensures !ended.Died? && old(checkpoints.ending.Whole?) && OneLineText(projectId) && OneLineText(contractHash)
              && OneLineText(artifactHash) ==>
                checkpoints.ending.Whole?
    {
      steps := [];
      var found := checkpoints.CurrentCheckpoint(projectId, chapter);
      if found.Failure? {
        return Refused(found.error), steps;
      }
      CurrentIsLast(checkpoints.View(), projectId, chapter);
      if found.value.state == FulfillmentRecorded {
        return Shown(ViewOf(found.value)), steps;
      }
      if found.value.state != EngagementReviewed {
        return Refused(InvalidTransition), steps;
      }
      ghost var step;
      var advanced: Outcome<Checkpoint>;
      var left: nat;
      var next := if complete then FulfillmentRecorded else FulfillmentIncomplete;
      var refs := if complete then [contractHash, artifactHash] else [artifactHash];
      MayFulfill(found.value, next, refs);
      advanced, left, step := Proceed(found.value, next, refs, crashAfter, cut);
      steps := [step];
      RunOne(old(checkpoints.View()), step);
      return if advanced.Crashed? then Died else Shown(ViewOf(advanced.answer.value)), steps;
    }
  }

  function ProjectionRefs(projection: Option<string>): seq<string> {
    if projection.Some? then [projection.value] else []
  }

  lemma ReadinessIsOneLine()
    ensures OneLineRefs(["readiness"])
  {
  }

  lemma AdvanceKeepsIdentity(c: Checkpoint, state: State, refs: seq<string>)
    requires Advance(c, state, refs).Success?
    ensures var next := Advance(c, state, refs).value;
            && next.projectId == c.projectId && next.chapter == c.chapter && next.state == state && next.refs == refs
            && next.sequence == c.sequence + 1 && next.previous == c.hash
  {
  }

  lemma MayReview(c: Checkpoint, refs: seq<string>)
    requires c.state == DirectorProposed
    ensures Advance(c, EngagementReviewed, refs).Success?
    ensures var next := Advance(c, EngagementReviewed, refs).value;
            && next.projectId == c.projectId && next.chapter == c.chapter
            && next.state == EngagementReviewed && next.refs == refs
  {
  }

  lemma MayFulfill(c: Checkpoint, next: State, refs: seq<string>)
    requires c.state == EngagementReviewed && (next == FulfillmentRecorded || next == FulfillmentIncomplete)
    ensures Advance(c, next, refs).Success? && Advance(c, next, refs).value.state == next
    ensures Advance(c, next, refs).value.refs == refs
  {
  }

  // ----- Steps of a run -----

  /** The run step that appends an advance of the current checkpoint, and what the append then does. */
  lemma StepFor(d: Disk, current: Checkpoint, state: State, refs: seq<string>, crashAfter: nat, cut: Cut)
    returns (step: Step)
    requires Inv(d) && (d.ending.Torn? || Current(d, current.projectId, current.chapter) == Success(current))
    ensures step.Proceed? && Inv(Perform(d, step))
    ensures var next := Advance(current, state, refs);
            if next.Failure? then Perform(d, step) == d
            else
              var op := Append(d, next.value, cut);
              && Perform(d, step) == After(d, op.steps, crashAfter)
              && (if d.ending.Torn? then op.answer.Failure? && op.steps == [] else op.answer == next)
              && (!d.ending.Torn? ==>
                    Current(End(d, op.steps), current.projectId, current.chapter) in {next, Failure(Tampered)})
              && (d.ending.Whole? && OneLineText(current.projectId) && OneLineRefs(refs) ==>
                  End(d, op.steps).ending.Whole?)
              && next.value.projectId == current.projectId && next.value.chapter == current.chapter
  {
    var seen := 0;
    if !d.ending.Torn? {
      seen := SeenAt(d, current);
    }
    step := Step.Proceed(seen, state, refs, crashAfter, cut);
    StepKeeps(d, step);
    TornStays(d, step);
    var next := Advance(current, state, refs);
    if next.Success? && !d.ending.Torn? {
      AdvanceOfCurrentIsAppended(d, current.projectId, current.chapter, state, refs, cut);
      CurrentIsLast(d, current.projectId, current.chapter);
      OneLineIff(next.value);
      WholeIffUsable(d);
      PerformsAppend(d, step, next.value);
    }
  }

  lemma SeenAt(d: Disk, current: Checkpoint) returns (seen: nat)
    requires Inv(d) && Current(d, current.projectId, current.chapter) == Success(current)
    ensures seen < |d.lines| && d.lines[seen].record == current
  {
    CurrentIsLast(d, current.projectId, current.chapter);
    seen :| seen < |Records(d.lines)| && Records(d.lines)[seen] == current;
  }

  lemma PerformsAppend(d: Disk, step: Step, item: Checkpoint)
    requires Item(d, step) == Success(item)
    ensures Perform(d, step) == After(d, Append(d, item, step.cut).steps, step.crashAfter)
  {
  }

  lemma TornStays(d: Disk, step: Step)
    ensures d.ending.Torn? ==> Perform(d, step) == d
  {
  }

  lemma RunOne(d: Disk, step: Step)
    ensures Run(d, [step]) == Perform(d, step)
  {
    assert Run(Perform(d, step), [step][1..]) == Perform(d, step);
  }

  lemma {:induction false} RunSnoc(d: Disk, steps: seq<Step>, step: Step)
    ensures Run(d, steps + [step]) == Perform(Run(d, steps), step)
    decreases |steps|
  {
    if steps == [] {
      RunOne(d, step);
      assert [] + [step] == [step];
    } else {
      assert (steps + [step])[1..] == steps[1..] + [step];
      RunSnoc(Perform(d, steps[0]), steps[1..], step);
    }
  }

  lemma {:induction false} RunConcat(d: Disk, a: seq<Step>, b: seq<Step>)
    ensures Run(d, a + b) == Run(Run(d, a), b)
    decreases |a|
  {
    if a == [] {
      assert a + b == b;
    } else {
      assert (a + b)[1..] == a[1..] + b;
      RunConcat(Perform(d, a[0]), a[1..], b);
    }
  }
}
