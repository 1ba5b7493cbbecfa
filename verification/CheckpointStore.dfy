/** The checkpoint store and the orchestrator steps that drive it, one durable write at a time. */
module CheckpointStore {
  import opened Wrappers
  import opened Durability
  import opened Checkpoints

  datatype Outcome<+T> = Crashed | Returned(answer: Result<T, CheckpointError>)

  class ChapterRunCheckpointStore {
    var lines: seq<Entry>
    var ending: Ending
    var head: Option<Head>

    constructor ()
      ensures View() == EMPTY
    {
      lines, ending, head := [], Whole, None;
    }

    function View(): Disk
      reads this
    {
      Disk(lines, ending, head)
    }

    /** Reads the log line by line with a running previous hash. */
    method RecoverAll() returns (r: Result<seq<Checkpoint>, CheckpointError>)
      ensures r == ReadLog(View())
    {
      if ending.Torn? {
        return Failure(Tampered);
      }
      var out: seq<Checkpoint> := [];
      var previous := NoEntry;
      for i := 0 to |lines|
        invariant Recover(lines[..i]) == Success(out) && |out| == i && previous == LastHash(lines[..i])
      {
        assert lines[..i + 1][..i] == lines[..i];
        var e := lines[i];
        if e.sequence != |out| + 1 || e.previous != previous || e.hash != EntryHash(e.sequence, e.previous, e.record) {
          FailureSticks(lines, i + 1);
          return Failure(Tampered);
        }
        out := out + [e.record];
        previous := e.hash;
      }
      assert lines[..|lines|] == lines;
      return Success(out);
    }

    /** `cut` says where the line is cut if the process dies while writing it; `left` writes remain otherwise. */
    method AppendCheckpoint(item: Checkpoint, crashAfter: nat, cut: Cut)
        returns (outcome: Outcome<Checkpoint>, left: nat)
      modifies this
      ensures var op := Append(old(View()), item, cut);
              && View() == After(old(View()), op.steps, crashAfter)
              && outcome == (if crashAfter < |op.steps| then Crashed else Returned(op.answer))
              && (outcome.Returned? ==> left == crashAfter - |op.steps|)
    {
      left := crashAfter;
      var recovered := RecoverAll();
      if recovered.Failure? {
        return Returned(Failure(recovered.error)), left;
      }
      var records := recovered.value;
      var existing := FindKey(records, item.key);
      if existing.Some? {
        return Returned(if existing.value == item then Success(item) else Failure(AppendConflict)), left;
      }
      var error := AppendError(records, item);
      if error.Some? {
        return Returned(Failure(error.value)), left;
      }
      if ending.Empty? {
        return Returned(Failure(Unreadable)), left;
      }
      outcome, left := WriteLine(item, crashAfter, cut);
    }

    /** Opens the file for appending, writes the line and then the head. */
    method WriteLine(item: Checkpoint, crashAfter: nat, cut: Cut) returns (outcome: Outcome<Checkpoint>, left: nat)
      modifies this
      ensures var steps := Writes(old(View()), item, cut);
              && View() == After(old(View()), steps, crashAfter)
              && outcome == (if crashAfter < |steps| then Crashed else Returned(Success(item)))
              && (outcome.Returned? ==> left == crashAfter - |steps|)
    {
      left := crashAfter;
      var entry := NextEntry(lines, item);
      if left == 0 { return Crashed, 0; }
      if ending.Unended? && lines != [] {
        lines, ending := lines[..|lines| - 1], Torn;
        left := left - 1;
      } else {
        if lines == [] {
          ending := Empty;
          left := left - 1;
          if left == 0 { return Crashed, 0; }
        }
        if left == 1 {
          if cut.InLine? || !OneLine(item) {
            ending := Torn;
          } else {
            lines, ending := lines + [entry], Unended;
          }
          return Crashed, 0;
        }
        if OneLine(item) {
          lines, ending := lines + [entry], Whole;
        } else {
          ending := Torn;
        }
        left := left - 2;
      }
      if left == 0 { return Crashed, 0; }
      head := Some(Head(entry.sequence, entry.hash));
      return Returned(Success(item)), left - 1;
    }

    method CurrentCheckpoint(projectId: string, chapter: nat) returns (r: Result<Checkpoint, CheckpointError>)
      ensures r == Current(View(), projectId, chapter)
    {
      var recovered := RecoverAll();
      if recovered.Failure? {
        return Failure(recovered.error);
      }
      var scoped := Chapter(recovered.value, projectId, chapter);
      return if scoped == [] then Failure(NoCheckpoint) else Success(scoped[|scoped| - 1]);
    }
  }

  lemma {:induction false} FailureSticks(lines: seq<Entry>, n: nat)
    requires n <= |lines| && Recover(lines[..n]).Failure?
    ensures Recover(lines).Failure? && Recover(lines).error == Recover(lines[..n]).error
    decreases |lines| - n
  {
    if n == |lines| {
      assert lines[..n] == lines;
    } else {
      assert lines[..n + 1][..n] == lines[..n];
      FailureSticks(lines, n + 1);
    }
  }
}
