/** Interleaved chapter runs over the shared checkpoint log. */
module CheckpointRuns {
  import opened Wrappers
  import opened Durability
  import opened Checkpoints

  /** What a run may append: a first checkpoint, or an advance of one that is in the log, however old its reading. */
  datatype Step =
    | Begin(projectId: string, chapter: nat, crashAfter: nat, cut: Cut)
    | Proceed(seen: nat, state: State, refs: seq<string>, crashAfter: nat, cut: Cut)

  function Item(d: Disk, step: Step): Result<Checkpoint, CheckpointError> {
    match step
    case Begin(projectId, chapter, _, _) => Initial(projectId, chapter)
    case Proceed(seen, state, refs, _, _) =>
      if seen < |d.lines| then Advance(d.lines[seen].record, state, refs) else Failure(NoCheckpoint)
  }

  function Perform(d: Disk, step: Step): Disk {
    match Item(d, step)
    case Failure(_) => d
    case Success(item) => After(d, Append(d, item, step.cut).steps, step.crashAfter)
  }

  function Run(d: Disk, steps: seq<Step>): Disk
    decreases |steps|
  {
    if steps == [] then d else Run(Perform(d, steps[0]), steps[1..])
  }

  function Records(lines: seq<Entry>): (r: seq<Checkpoint>)
    ensures |r| == |lines| && forall i :: 0 <= i < |r| ==> r[i] == lines[i].record
  {
    seq(|lines|, i requires 0 <= i < |lines| => lines[i].record)
  }

  ghost predicate PathOk(records: seq<Checkpoint>, projectId: string, chapter: nat) {
    IsPath(Chapter(records, projectId, chapter), projectId, chapter)
  }

  /** The lines are accepted and every chapter in them is one unforked path. */
  ghost predicate Inv(d: Disk) {
    && (d.ending.Empty? ==> d.lines == []) && (d.ending.Unended? ==> d.lines != [])
    && Recover(d.lines) == Success(Records(d.lines))
    && forall projectId, chapter :: PathOk(Records(d.lines), projectId, chapter)
  }

  lemma {:induction false} ChapterMembers(records: seq<Checkpoint>, projectId: string, chapter: nat)
    ensures forall c :: c in Chapter(records, projectId, chapter) <==>
              c in records && c.projectId == projectId && c.chapter == chapter
  {
    if records != [] {
      var n := |records| - 1;
      ChapterMembers(records[..n], projectId, chapter);
      assert records == records[..n] + [records[n]];
    }
  }

  lemma ChapterSnoc(records: seq<Checkpoint>, item: Checkpoint, projectId: string, chapter: nat)
    ensures Chapter(records + [item], projectId, chapter) ==
            Chapter(records, projectId, chapter)
            + if item.projectId == projectId && item.chapter == chapter then [item] else []
  {
    assert (records + [item])[..|records|] == records;
  }

  /** Where a stored checkpoint of a chapter stands on that chapter's path. */
  lemma Position(records: seq<Checkpoint>, c: Checkpoint) returns (i: nat)
    requires c in records && PathOk(records, c.projectId, c.chapter)
    ensures var path := Chapter(records, c.projectId, c.chapter);
            && i < |path| && path[i] == c && c.sequence == i + 1
            && c.key == IdempotencyKey(c.projectId, c.chapter, c.sequence)
  {
    var path := Chapter(records, c.projectId, c.chapter);
    ChapterMembers(records, c.projectId, c.chapter);
    i :| 0 <= i < |path| && path[i] == c;
    PathCounts(path, c.projectId, c.chapter, i);
  }

  lemma FirstKeyIsKnown(records: seq<Checkpoint>, projectId: string, chapter: nat)
    requires PathOk(records, projectId, chapter) && Chapter(records, projectId, chapter) != []
    ensures FindKey(records, IdempotencyKey(projectId, chapter, 1)).Some?
  {
    var path := Chapter(records, projectId, chapter);
    PathCounts(path, projectId, chapter, 0);
    ChapterMembers(records, projectId, chapter);
    assert path[0] in records;
  }

  /** An advance that continues the sequence of a path advances its last checkpoint. */
  lemma AdvanceExtends(path: seq<Checkpoint>, projectId: string, chapter: nat, i: nat, item: Checkpoint)
    requires IsPath(path, projectId, chapter) && i < |path| && Follows(path[i], item)
    requires item.sequence == path[|path| - 1].sequence + 1
    ensures IsPath(path + [item], projectId, chapter)
  {
    PathCounts(path, projectId, chapter, i);
    PathCounts(path, projectId, chapter, |path| - 1);
    assert i == |path| - 1;
    forall k | 0 < k < |path + [item]|
      ensures Follows((path + [item])[k - 1], (path + [item])[k])
    {
      assert k < |path| ==> Follows(path[k - 1], path[k]);
    }
  }

  predicate Accepts(d: Disk, item: Checkpoint) {
    FindKey(Records(d.lines), item.key).None? && AppendError(Records(d.lines), item).None?
  }

  /** An accepted item is the first checkpoint of its chapter, or advances the last one. */
  lemma ItemExtendsPath(d: Disk, step: Step, item: Checkpoint)
    requires Inv(d) && Item(d, step) == Success(item) && Accepts(d, item)
    ensures IsPath(Chapter(Records(d.lines), item.projectId, item.chapter) + [item], item.projectId, item.chapter)
  {
    var records := Records(d.lines);
    var path := Chapter(records, item.projectId, item.chapter);
    assert PathOk(records, item.projectId, item.chapter);
    match step
    case Begin(projectId, chapter, _, _) =>
      if path != [] {
        FirstKeyIsKnown(records, projectId, chapter);
      }
    case Proceed(seen, state, refs, _, _) =>
      var current := records[seen];
      assert current in records && PathOk(records, current.projectId, current.chapter);
      var i := Position(records, current);
      AdvanceExtends(path, item.projectId, item.chapter, i, item);
  }

  lemma RecoverSnoc(lines: seq<Entry>, item: Checkpoint)
    requires Recover(lines) == Success(Records(lines))
    ensures Recover(lines + [NextEntry(lines, item)]) == Success(Records(lines) + [item])
    ensures Records(lines + [NextEntry(lines, item)]) == Records(lines) + [item]
  {
    assert (lines + [NextEntry(lines, item)])[..|lines|] == lines;
  }

  lemma AppendKeepsPaths(d: Disk, step: Step, item: Checkpoint, ending: Ending, head: Option<Head>)
    requires Inv(d) && Item(d, step) == Success(item) && Accepts(d, item) && !ending.Empty?
    ensures Inv(Disk(d.lines + [NextEntry(d.lines, item)], ending, head))
  {
    var records := Records(d.lines);
    RecoverSnoc(d.lines, item);
    ItemExtendsPath(d, step, item);
    forall projectId, chapter
      ensures PathOk(records + [item], projectId, chapter)
    {
      assert PathOk(records, projectId, chapter);
      ChapterSnoc(records, item, projectId, chapter);
    }
  }

  lemma PrefixOfPath(path: seq<Checkpoint>, last: seq<Checkpoint>, projectId: string, chapter: nat)
    requires IsPath(path + last, projectId, chapter)
    ensures IsPath(path, projectId, chapter)
  {
    assert path != [] ==> (path + last)[0] == path[0];
    forall i | 0 < i < |path|
      ensures Follows(path[i - 1], path[i])
    {
      assert Follows((path + last)[i - 1], (path + last)[i]);
    }
  }

  /** Losing the last line keeps what is before it. */
  lemma DroppingLastKeepsPaths(d: Disk, head: Option<Head>)
    requires Inv(d) && d.lines != []
    ensures Inv(Disk(d.lines[..|d.lines| - 1], Torn, head))
  {
    var n := |d.lines| - 1;
    var records := Records(d.lines);
    assert Records(d.lines[..n]) == records[..n];
    forall projectId, chapter
      ensures PathOk(records[..n], projectId, chapter)
    {
      assert PathOk(records, projectId, chapter);
      var last := if records[n].projectId == projectId && records[n].chapter == chapter then [records[n]] else [];
      PrefixOfPath(Chapter(records[..n], projectId, chapter), last, projectId, chapter);
    }
  }

  /** What a crash anywhere inside an append can leave. */
  lemma AppendCases(d: Disk, item: Checkpoint, cut: Cut, n: nat)
    requires Recover(d.lines) == Success(Records(d.lines))
    ensures var after := After(d, Append(d, item, cut).steps, n);
            || after == d
            || (&& Accepts(d, item) && !d.ending.Torn? && !d.ending.Empty?
                && (|| (after.lines == d.lines && after.ending.Torn?)
                    || (after.lines == d.lines == [] && after.ending.Empty?)
                    || (after.lines == d.lines + [NextEntry(d.lines, item)] && !after.ending.Empty?)
                    || (d.lines != [] && after.lines == d.lines[..|d.lines| - 1] && after.ending.Torn?)))
  {
    if ReadLog(d).Success? && Accepts(d, item) && !d.ending.Empty? {
      WritesCases(d, item, cut, n);
    }
  }

  lemma WritesCases(d: Disk, item: Checkpoint, cut: Cut, n: nat)
    ensures var after := After(d, Writes(d, item, cut), n);
            || after == d
            || (after.lines == d.lines && after.ending.Torn?)
            || (after.lines == d.lines == [] && after.ending.Empty?)
            || (after.lines == d.lines + [NextEntry(d.lines, item)] && !after.ending.Empty?)
            || (d.lines != [] && after.lines == d.lines[..|d.lines| - 1] && after.ending.Torn?)
  {
  }

  /** Nothing is lost, unless the log does not read back any more. */
  predicate Extends(d: Disk, q: Disk) {
    q.ending.Torn? || d.lines <= q.lines
  }

  /** One step of any run, crashed or not, keeps every chapter a path and only adds to a log that still reads back. */
  lemma StepKeeps(d: Disk, step: Step)
    requires Inv(d)
    ensures Inv(Perform(d, step)) && Extends(d, Perform(d, step))
  {
    var item := Item(d, step);
    if item.Success? {
      AppendCases(d, item.value, step.cut, step.crashAfter);
      var after := After(d, Append(d, item.value, step.cut).steps, step.crashAfter);
      if after.lines == d.lines + [NextEntry(d.lines, item.value)] {
        AppendKeepsPaths(d, step, item.value, after.ending, after.head);
        assert after == Disk(d.lines + [NextEntry(d.lines, item.value)], after.ending, after.head);
      } else if after != d && after.lines != d.lines {
        DroppingLastKeepsPaths(d, after.head);
      }
    }
  }

  // ----- What a crash can do to the log -----

  /** A log that is torn, or created but empty, is never written again. */
  predicate Dead(d: Disk) {
    d.ending.Torn? || d.ending.Empty?
  }

  lemma DeadRefuses(d: Disk, item: Checkpoint, cut: Cut)
    requires Inv(d) && Dead(d)
    ensures Append(d, item, cut) == Operation([], Failure(if d.ending.Torn? then Tampered else Unreadable))
  {
  }

  /** Every later step of every run is refused and changes nothing. */
  lemma {:induction false} DeadForever(d: Disk, steps: seq<Step>)
    requires Inv(d) && Dead(d)
    ensures Run(d, steps) == d
    ensures forall item, cut :: Append(Run(d, steps), item, cut).answer.Failure?
    decreases |steps|
  {
    forall item, cut
      ensures Append(d, item, cut) == Operation([], Failure(if d.ending.Torn? then Tampered else Unreadable))
    {
      DeadRefuses(d, item, cut);
    }
    if steps != [] {
      assert Perform(d, steps[0]) == d;
      DeadForever(d, steps[1..]);
    }
  }

  lemma EmptyLogIsFine()
    ensures Inv(EMPTY)
  {
  }

  lemma WholeLogGrows(d: Disk, item: Checkpoint, cut: Cut)
    requires Inv(d) && d.ending.Whole? && Accepts(d, item)
    ensures var op := Append(d, item, cut);
            var q := End(d, op.steps);
            && op == Operation(Writes(d, item, cut), Success(item))
            && (if OneLine(item) then q.ending.Whole? && q.lines == d.lines + [NextEntry(d.lines, item)]
                else q.ending.Torn? && q.lines == d.lines)
  {
    assert Append(d, item, cut) == Operation(Writes(d, item, cut), Success(item));
  }

  // ----- When a log can still be used -----

  /** The checkpoint can be appended and is read back behind all others. */
  predicate Takes(d: Disk, item: Checkpoint, cut: Cut) {
    var op := Append(d, item, cut);
    op.answer == Success(item) && ReadLog(End(d, op.steps)) == Success(Records(d.lines) + [item])
  }

  /** The log reads back and takes every accepted checkpoint that stays one line. */
  ghost predicate Usable(d: Disk) {
    ReadLog(d).Success? && forall item, cut | Accepts(d, item) && OneLine(item) :: Takes(d, item, cut)
  }

  function LongestName(records: seq<Checkpoint>): (n: nat)
    ensures forall r <- records :: |r.projectId| <= n
  {
    if records == [] then 0
    else
      var n := LongestName(records[1..]);
      if |records[0].projectId| > n then |records[0].projectId| else n
  }

  /** Some new chapter can always be begun. */
  lemma FreshChapter(d: Disk) returns (item: Checkpoint)
    requires Inv(d)
    ensures Accepts(d, item) && OneLine(item)
  {
    var records := Records(d.lines);
    var name := seq(LongestName(records) + 1, _ => 'x');
    item := Initial(name, 1).value;
    OneLineIff(item);
    ChapterMembers(records, name, 1);
    assert forall c <- records :: c.projectId != name;
    assert forall c :: c !in Chapter(records, name, 1);
    if FindKey(records, item.key).Some? {
      var stored := FindKey(records, item.key).value;
      assert PathOk(records, stored.projectId, stored.chapter);
      var i := Position(records, stored);
      KeyInjective(stored.projectId, stored.chapter, stored.sequence, name, 1, 1);
    }
  }

  lemma WholeIffUsable(d: Disk)
    requires Inv(d)
    ensures d.ending.Whole? <==> Usable(d)
  {
    if d.ending.Whole? {
      forall item, cut | Accepts(d, item) && OneLine(item)
        ensures Takes(d, item, cut)
      {
        WholeLogGrows(d, item, cut);
        RecoverSnoc(d.lines, item);
      }
    } else {
      var item := FreshChapter(d);
      assert !Takes(d, item, InLine);
    }
  }

  lemma CrashInWrites(d: Disk, item: Checkpoint, cut: Cut, k: nat)
    requires d.ending.Whole?
    ensures var steps := Writes(d, item, cut);
            && |steps| == (if d.lines == [] then 4 else 3)
            && (After(d, steps, k).ending.Whole? <==> k == 0 || (OneLine(item) && k >= |steps| - 1))
  {
  }

  /**
   A run step that appends to a usable log leaves it usable exactly if it dies before it opens the file, or if
   the checkpoint stays one line and the step dies, if at all, after that line with its newline is there.
   */
  lemma StepSparesLogIff(d: Disk, step: Step)
    requires Inv(d) && Usable(d) && Item(d, step).Success? && Accepts(d, Item(d, step).value)
    ensures var item, k := Item(d, step).value, step.crashAfter;
            && Append(d, item, step.cut).answer == Success(item)
            && |Append(d, item, step.cut).steps| == (if d.lines == [] then 4 else 3)
            && (Usable(Perform(d, step)) <==> k == 0 || (OneLine(item) && k >= |Append(d, item, step.cut).steps| - 1))
  {
    var item := Item(d, step).value;
    WholeIffUsable(d);
    WholeLogGrows(d, item, step.cut);
    CrashInWrites(d, item, step.cut, step.crashAfter);
    StepKeeps(d, step);
    WholeIffUsable(Perform(d, step));
  }

  /** A checkpoint whose line breaks is answered with success, and from then on the log never reads back. */
  lemma BrokenLineSpoils(d: Disk, item: Checkpoint, cut: Cut, steps: seq<Step>)
    requires Inv(d) && Usable(d) && Accepts(d, item) && !OneLine(item)
    ensures Append(d, item, cut).answer == Success(item)
    ensures var q := Run(End(d, Append(d, item, cut).steps), steps);
            ReadLog(q) == Failure(Tampered) && q.lines == d.lines
  {
    WholeIffUsable(d);
    WholeLogGrows(d, item, cut);
    var q := End(d, Append(d, item, cut).steps);
    assert Inv(q);
    DeadForever(q, steps);
  }

  /** Such a checkpoint is the very first one of a project whose name holds a line separator. */
  lemma SeparatorInNameSpoils(cut: Cut, steps: seq<Step>)
    ensures var first := Initial("p\U{2028}q", 1);
            && first.Success? && Append(EMPTY, first.value, cut).answer == first
            && ReadLog(Run(End(EMPTY, Append(EMPTY, first.value, cut).steps), steps)) == Failure(Tampered)
  {
    var item := Initial("p\U{2028}q", 1).value;
    assert item.projectId[1] == '\U{2028}' && BreaksLine(item.projectId[1]);
    EmptyLogIsFine();
    WholeIffUsable(EMPTY);
    BrokenLineSpoils(EMPTY, item, cut, steps);
  }

  /**
   If only the newline of a line is missing the log still reads back, and the next append is answered with
   success; but it loses that line and its own, and the log never reads back again.
   */
  lemma NextAppendSpoils(d: Disk, item: Checkpoint, cut: Cut, steps: seq<Step>)
    requires Inv(d) && d.ending.Unended? && Accepts(d, item)
    ensures ReadLog(d) == Success(Records(d.lines)) && Append(d, item, cut).answer == Success(item)
    ensures var q := Run(End(d, Append(d, item, cut).steps), steps);
            q.ending.Torn? && q.lines == d.lines[..|d.lines| - 1] && ReadLog(q) == Failure(Tampered)
  {
    var spoiled := End(d, Append(d, item, cut).steps);
    DroppingLastKeepsPaths(d, spoiled.head);
    DeadForever(spoiled, steps);
  }

  /** One path from the initial state, in order, linked, and the only way to its last state. */
  ghost predicate IsOneRun(path: seq<Checkpoint>, projectId: string, chapter: nat) {
    && IsPath(path, projectId, chapter) && |path| <= 10
    && (path != [] ==> IsWayTo(States(path), path[|path| - 1].state))
    && forall i :: 0 <= i < |path| ==>
         path[i].sequence == i + 1 && path[i].previous == if i == 0 then Zeros else path[i - 1].hash
  }

  lemma PathIsOneRun(path: seq<Checkpoint>, projectId: string, chapter: nat)
    requires IsPath(path, projectId, chapter)
    ensures IsOneRun(path, projectId, chapter)
  {
    PathIsShort(path, projectId, chapter);
    if path != [] {
      OnlyOneWay(path, projectId, chapter);
    }
    forall i | 0 <= i < |path|
      ensures path[i].sequence == i + 1 && path[i].previous == if i == 0 then Zeros else path[i - 1].hash
    {
      PathCounts(path, projectId, chapter, i);
    }
  }

  lemma {:induction false} RunsExtend(steps: seq<Step>, d: Disk)
    requires Inv(d)
    ensures Inv(Run(d, steps)) && Extends(d, Run(d, steps))
    decreases |steps|
  {
    if steps != [] {
      StepKeeps(d, steps[0]);
      RunsExtend(steps[1..], Perform(d, steps[0]));
      if Perform(d, steps[0]).ending.Torn? {
        DeadForever(Perform(d, steps[0]), steps[1..]);
      }
    }
  }

  /**
   Under any interleaving of runs over many chapters, with stale readings and crashes, every chapter's
   checkpoints form one path from its initial state, in order, with linked hashes and at most ten long; it has
   come to its current state in the only way that leads there. A log that still reads back has lost nothing.
   */
  lemma EveryChapterIsOnePath(steps: seq<Step>, d: Disk, projectId: string, chapter: nat)
    requires Inv(d)
    ensures IsOneRun(Chapter(Records(Run(d, steps).lines), projectId, chapter), projectId, chapter)
    ensures Inv(Run(d, steps)) && Extends(d, Run(d, steps))
  {
    RunsExtend(steps, d);
    var path := Chapter(Records(Run(d, steps).lines), projectId, chapter);
    assert PathOk(Records(Run(d, steps).lines), projectId, chapter);
    PathIsOneRun(path, projectId, chapter);
  }

  lemma AcceptedTwice(d: Disk, item: Checkpoint, cut: Cut, again: Cut)
    requires Inv(d) && d.ending.Whole? && Accepts(d, item) && OneLine(item)
    ensures var once := End(d, Append(d, item, cut).steps);
            ReadLog(once).Success? && Append(once, item, again) == Operation([], Success(item))
  {
    WholeLogGrows(d, item, cut);
    RecoverSnoc(d.lines, item);
    FindLast(Records(d.lines), item);
  }

  /**
   Appending the same checkpoint twice is appending it once, unless the first append spoils the log: exactly
   behind a line that lacks its newline, or with a line that breaks.
   */
  lemma AppendTwice(d: Disk, item: Checkpoint, cut: Cut, again: Cut)
    requires Inv(d) && Append(d, item, cut).answer.Success?
    ensures var once := End(d, Append(d, item, cut).steps);
            && (ReadLog(once).Failure? <==> Accepts(d, item) && (d.ending.Unended? || !OneLine(item)))
            && (ReadLog(once).Success? ==> Append(once, item, again) == Operation([], Success(item)))
  {
    if Accepts(d, item) {
      if d.ending.Whole? {
        WholeLogGrows(d, item, cut);
        if OneLine(item) {
          AcceptedTwice(d, item, cut, again);
        }
      } else {
        assert Append(d, item, cut) == Operation(Writes(d, item, cut), Success(item));
      }
    } else {
      assert Append(d, item, cut).steps == [];
    }
  }

  lemma FindLast(records: seq<Checkpoint>, item: Checkpoint)
    requires FindKey(records, item.key).None?
    ensures FindKey(records + [item], item.key) == Some(item)
  {
    if records != [] {
      assert (records + [item])[1..] == records[1..] + [item];
      assert records[0] in records;
      FindLast(records[1..], item);
    }
  }
}
