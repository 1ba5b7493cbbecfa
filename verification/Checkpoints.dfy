/** Checkpoints of chapter runs, and the one hash-chained log that all chapters share. */
module Checkpoints {
  import opened Wrappers
  import opened Text

  datatype State =
    | AwaitingReadinessApproval | ReadinessApproved | DirectorProposed | ContractApproved | Admitted | WriterPrepared
    | WriterCompleted | QualityReviewed | ChapterCommitted | EngagementReviewed | EngagementReviewBlocked
    | FulfillmentIncomplete | FulfillmentRecorded | Blocked | Paused

  /** The transition table; a state without an entry cannot be advanced at all. */
  function Next(s: State): Option<set<State>> {
    match s
    case AwaitingReadinessApproval => Some({ReadinessApproved, Blocked, Paused})
    case ReadinessApproved => Some({DirectorProposed, Blocked, Paused})
    case DirectorProposed => Some({ContractApproved, EngagementReviewed, EngagementReviewBlocked, Blocked, Paused})
    case ContractApproved => Some({Admitted, Blocked, Paused})
    case Admitted => Some({WriterPrepared, Blocked, Paused})
    case WriterPrepared => Some({WriterCompleted, Blocked, Paused})
    case WriterCompleted => Some({QualityReviewed, Blocked, Paused})
    case QualityReviewed => Some({ChapterCommitted, Blocked, Paused})
    case EngagementReviewed => Some({FulfillmentIncomplete, FulfillmentRecorded, Blocked, Paused})
    case Blocked => Some({Paused})
    case Paused => Some({})
    case ChapterCommitted => Some({})
    case _ => None
  }

  /** SHA-256 over canonical JSON. */
  datatype Digest =
    | Zeros
    | CheckpointDigest(projectId: string, chapter: nat, state: State, sequence: nat, previous: Digest, key: string,
                       refs: seq<string>)

  datatype Checkpoint = Checkpoint(
    projectId: string, chapter: nat, state: State, sequence: nat, previous: Digest, hash: Digest, key: string,
      refs: seq<string>)

  datatype CheckpointError = InvalidIdentity | InvalidTransition | UnknownState | AppendConflict | Tampered
    | Unreadable | NoCheckpoint

  function IdempotencyKey(projectId: string, chapter: nat, sequence: nat): string {
    projectId + ":" + Decimal(chapter) + ":" + Decimal(sequence)
  }

  function Initial(projectId: string, chapter: nat): Result<Checkpoint, CheckpointError> {
    if projectId == "" || chapter == 0 then Failure(InvalidIdentity)
    else Success(Checkpoint(projectId, chapter, AwaitingReadinessApproval, 1, Zeros, Zeros,
                            IdempotencyKey(projectId, chapter, 1), []))
  }

  function Advance(c: Checkpoint, state: State, refs: seq<string>): Result<Checkpoint, CheckpointError> {
    match Next(c.state)
    case None => Failure(UnknownState)
    case Some(allowed) =>
      if state !in allowed then Failure(InvalidTransition)
      else
        var key := IdempotencyKey(c.projectId, c.chapter, c.sequence + 1);
        var hash := CheckpointDigest(c.projectId, c.chapter, state, c.sequence + 1, c.hash, key, refs);
        Success(c.(state := state, sequence := c.sequence + 1, previous := c.hash, hash := hash, key := key,
                   refs := refs))
  }

  // ----- What stays one line -----

  /** Canonical JSON leaves these characters as they are, and splitting text into lines breaks at each of them. */
  predicate BreaksLine(c: char) {
    c in {'\U{85}', '\U{2028}', '\U{2029}'}
  }

  predicate OneLineText(s: string) {
    forall c <- s :: !BreaksLine(c)
  }

  predicate OneLineRefs(refs: seq<string>) {
    forall r <- refs :: OneLineText(r)
  }

  /** Written out, the checkpoint is read back as one line. */
  predicate OneLine(c: Checkpoint) {
    OneLineText(c.projectId) && OneLineText(c.key) && OneLineRefs(c.refs)
  }

  /** For a checkpoint with its own key this is a matter of the project name and the references. */
  lemma OneLineIff(c: Checkpoint)
    requires c.key == IdempotencyKey(c.projectId, c.chapter, c.sequence)
    ensures OneLine(c) <==> OneLineText(c.projectId) && OneLineRefs(c.refs)
  {
    DecimalDigits(c.chapter);
    DecimalDigits(c.sequence);
    forall ch <- c.key
      ensures ch in c.projectId || !BreaksLine(ch)
    {
    }
  }

  // ----- The log -----

  datatype EntryHash = NoEntry | EntryHash(sequence: nat, previous: EntryHash, record: Checkpoint)

  datatype Entry = Entry(sequence: nat, previous: EntryHash, record: Checkpoint, hash: EntryHash)

  datatype Head = Head(count: nat, hash: EntryHash)

  /**
   How the log file ends: after whole lines (or there is no file yet), created but still empty, after a line
   that lacks its newline, or inside something that is no line.
   */
  datatype Ending = Whole | Empty | Unended | Torn

  /** `lines` are the lines before any torn piece. The head file is written after every append and read by nobody. */
  datatype Disk = Disk(lines: seq<Entry>, ending: Ending, head: Option<Head>)

  const EMPTY := Disk([], Whole, None)

  /** Where a crash may cut the line that is being written. */
  datatype Cut = InLine | BeforeNewline

  datatype Operation<+T> = Operation(steps: seq<Disk>, answer: Result<T, CheckpointError>)

  function LastHash(lines: seq<Entry>): EntryHash {
    if lines == [] then NoEntry else lines[|lines| - 1].hash
  }

  predicate Continues(before: seq<Entry>, e: Entry) {
    && e.sequence == |before| + 1 && e.previous == LastHash(before)
    && e.hash == EntryHash(e.sequence, e.previous, e.record)
  }

  function Recover(lines: seq<Entry>): Result<seq<Checkpoint>, CheckpointError> {
    if lines == [] then Success([])
    else
      var before, line := lines[..|lines| - 1], lines[|lines| - 1];
      var records :- Recover(before);
      if Continues(before, line) then Success(records + [line.record]) else Failure(Tampered)
  }

  function FindKey(records: seq<Checkpoint>, key: string): (r: Option<Checkpoint>)
    ensures r.Some? ==> r.value in records && r.value.key == key
    ensures r.None? ==> forall x <- records :: x.key != key
  {
    if records == [] then None else if records[0].key == key then Some(records[0]) else FindKey(records[1..], key)
  }

  /** The records of one chapter, in log order. */
  function Chapter(records: seq<Checkpoint>, projectId: string, chapter: nat): seq<Checkpoint> {
    if records == [] then []
    else
      var last := records[|records| - 1];
      Chapter(records[..|records| - 1], projectId, chapter)
      + if last.projectId == projectId && last.chapter == chapter then [last] else []
  }

  function AppendError(records: seq<Checkpoint>, item: Checkpoint): Option<CheckpointError> {
    var scoped := Chapter(records, item.projectId, item.chapter);
    if scoped != [] && (item.sequence != scoped[|scoped| - 1].sequence + 1
                        || item.previous != scoped[|scoped| - 1].hash)
    then Some(AppendConflict)
    else None
  }

  function NextEntry(lines: seq<Entry>, item: Checkpoint): Entry {
    Entry(|lines| + 1, LastHash(lines), item, EntryHash(|lines| + 1, LastHash(lines), item))
  }

  /** A torn log does not read back at all. */
  function ReadLog(d: Disk): Result<seq<Checkpoint>, CheckpointError> {
    if d.ending.Torn? then Failure(Tampered) else Recover(d.lines)
  }

  /** A repeated append of a stored checkpoint succeeds without writing. */
  function Append(d: Disk, item: Checkpoint, cut: Cut): Operation<Checkpoint> {
    match ReadLog(d)
    case Failure(e) => Operation([], Failure(e))
    case Success(records) =>
      match FindKey(records, item.key)
      case Some(existing) => Operation([], if existing == item then Success(existing) else Failure(AppendConflict))
      case None =>
        match AppendError(records, item)
        case Some(e) => Operation([], Failure(e))
        case None =>
          if d.ending.Empty? then Operation([], Failure(Unreadable)) else Operation(Writes(d, item, cut), Success(item))
  }

  /**
   The file is created, then the line is written, then the head. A crash may fall inside the line; behind a
   line that lacks its newline the new line only spoils that one, and a line that breaks reads back as pieces.
   */
  function Writes(d: Disk, item: Checkpoint, cut: Cut): seq<Disk> {
    var entry := NextEntry(d.lines, item);
    var head := Some(Head(entry.sequence, entry.hash));
    if d.ending.Unended? && d.lines != [] then
      var spoiled := d.(lines := d.lines[..|d.lines| - 1], ending := Torn);
      [spoiled, spoiled.(head := head)]
    else
      var created := if d.lines == [] then [d.(ending := Empty)] else [];
      created + [Partial(d, entry, cut), Appended(d, entry), Appended(d, entry).(head := head)]
  }

  function Partial(d: Disk, entry: Entry, cut: Cut): Disk {
    if cut.InLine? || !OneLine(entry.record) then d.(ending := Torn)
    else d.(lines := d.lines + [entry], ending := Unended)
  }

  function Appended(d: Disk, entry: Entry): Disk {
    if OneLine(entry.record) then d.(lines := d.lines + [entry], ending := Whole) else d.(ending := Torn)
  }

  function Current(d: Disk, projectId: string, chapter: nat): Result<Checkpoint, CheckpointError> {
    var records :- ReadLog(d);
    var scoped := Chapter(records, projectId, chapter);
    if scoped == [] then Failure(NoCheckpoint) else Success(scoped[|scoped| - 1])
  }

  /** The checkpoint goes on from the last one of its chapter, if there is one. */
  predicate GoesOn(records: seq<Checkpoint>, item: Checkpoint) {
    var scoped := Chapter(records, item.projectId, item.chapter);
    scoped == [] || (item.sequence == scoped[|scoped| - 1].sequence + 1
                     && item.previous == scoped[|scoped| - 1].hash)
  }

  /**
   Appending to a log that reads back: a stored checkpoint is answered again, another one under its key or one
   that does not go on from its chapter is a conflict, and only what goes on is written.
   */
  lemma AppendAnswers(d: Disk, item: Checkpoint, cut: Cut)
    requires ReadLog(d).Success?
    ensures var records, op := ReadLog(d).value, Append(d, item, cut);
            && (item in records && FindKey(records, item.key) == Some(item) ==> op == Operation([], Success(item)))
            && ((exists x <- records :: x.key == item.key) && FindKey(records, item.key) != Some(item) ==>
                  op == Operation([], Failure(AppendConflict)))
            && ((forall x <- records :: x.key != item.key) && !GoesOn(records, item) ==>
                  op == Operation([], Failure(AppendConflict)))
            && (op.steps != [] ==> GoesOn(records, item) && forall x <- records :: x.key != item.key)
  {
  }

  // ----- Keys -----

  lemma DecimalEnds(prefix: string, a: nat, other: string, b: nat)
    requires prefix + ":" + Decimal(a) == other + ":" + Decimal(b)
    ensures prefix == other && a == b
  {
    DecimalDigits(a);
    DecimalDigits(b);
    var s, t := prefix + ":" + Decimal(a), other + ":" + Decimal(b);
    NoShorter(prefix, Decimal(a), other, Decimal(b));
    NoShorter(other, Decimal(b), prefix, Decimal(a));
    assert s[..|prefix|] == prefix && t[..|other|] == other;
    assert s[|prefix| + 1..] == Decimal(a) && t[|other| + 1..] == Decimal(b);
    DecimalInjective(a, b);
  }

  lemma NoShorter(prefix: string, digits: string, other: string, otherDigits: string)
    requires prefix + ":" + digits == other + ":" + otherDigits && forall c <- digits :: IsDigit(c)
    ensures |other| <= |prefix|
  {
    var s := prefix + ":" + digits;
    assert s[|other|] == (other + ":" + otherDigits)[|other|] == ':';
    if |other| > |prefix| {
      AfterColon(prefix, digits, |other|);
    }
  }

  lemma AfterColon(prefix: string, digits: string, i: nat)
    requires |prefix| < i < |prefix + ":" + digits| && forall c <- digits :: IsDigit(c)
    ensures IsDigit((prefix + ":" + digits)[i])
  {
    assert (prefix + ":" + digits)[i] == digits[i - |prefix| - 1];
  }

  /** A key names its project, chapter and sequence, even when the project name itself contains colons. */
  lemma KeyInjective(p: string, c: nat, n: nat, q: string, d: nat, m: nat)
    requires IdempotencyKey(p, c, n) == IdempotencyKey(q, d, m)
    ensures p == q && c == d && n == m
  {
    DecimalEnds(p + ":" + Decimal(c), n, q + ":" + Decimal(d), m);
    DecimalEnds(p, c, q, d);
  }

  // ----- Every chapter is one path -----

  /** Each checkpoint advances the one before it, starting from the initial one. */
  ghost predicate IsPath(path: seq<Checkpoint>, projectId: string, chapter: nat) {
    && (path != [] ==> Initial(projectId, chapter) == Success(path[0]))
    && forall i :: 0 < i < |path| ==> Follows(path[i - 1], path[i])
  }

  predicate Follows(a: Checkpoint, b: Checkpoint) {
    Advance(a, b.state, b.refs) == Success(b)
  }

  /** How far a state lies from the start at most. */
  function Depth(s: State): nat {
    match s
    case AwaitingReadinessApproval => 1
    case ReadinessApproved => 2
    case DirectorProposed => 3
    case ContractApproved | EngagementReviewed | EngagementReviewBlocked => 4
    case Admitted | FulfillmentIncomplete | FulfillmentRecorded => 5
    case WriterPrepared => 6
    case WriterCompleted => 7
    case QualityReviewed => 8
    case ChapterCommitted | Blocked => 9
    case Paused => 10
  }

  /** Along a path the sequence counts up from 1, every hash is linked, and keys follow the sequence. */
  lemma {:induction false} PathCounts(path: seq<Checkpoint>, projectId: string, chapter: nat, i: nat)
    requires IsPath(path, projectId, chapter) && i < |path|
    ensures var c := path[i];
            && c.projectId == projectId && c.chapter == chapter && c.sequence == i + 1
            && c.previous == (if i == 0 then Zeros else path[i - 1].hash)
            && c.key == IdempotencyKey(projectId, chapter, i + 1)
            && i + 1 <= Depth(c.state)
    ensures projectId != "" && chapter != 0 && path[0].state == AwaitingReadinessApproval && path[0].refs == []
    decreases i
  {
    if i > 0 {
      PathCounts(path, projectId, chapter, i - 1);
      assert Follows(path[i - 1], path[i]);
    }
  }

  /** No chapter run has more than ten checkpoints. */
  lemma PathIsShort(path: seq<Checkpoint>, projectId: string, chapter: nat)
    requires IsPath(path, projectId, chapter)
    ensures |path| <= 10
  {
    if path != [] {
      PathCounts(path, projectId, chapter, |path| - 1);
    }
  }

  function States(path: seq<Checkpoint>): (states: seq<State>)
    ensures |states| == |path| && forall i :: 0 <= i < |path| ==> states[i] == path[i].state
  {
    seq(|path|, i requires 0 <= i < |path| => path[i].state)
  }

  const REVIEW_WAY: seq<State> := [AwaitingReadinessApproval, ReadinessApproved, DirectorProposed, EngagementReviewed]

  const WRITING_WAY: seq<State> :=
    [AwaitingReadinessApproval, ReadinessApproved, DirectorProposed, ContractApproved, Admitted, WriterPrepared,
     WriterCompleted, QualityReviewed, ChapterCommitted]

  /** The only way to a state; a chapter can be blocked or paused on any way. */
  predicate IsWayTo(states: seq<State>, s: State) {
    match s
    case EngagementReviewed => states == REVIEW_WAY
    case EngagementReviewBlocked => states == REVIEW_WAY[..3] + [s]
    case FulfillmentIncomplete => states == REVIEW_WAY + [s]
    case FulfillmentRecorded => states == REVIEW_WAY + [s]
    case Blocked => true
    case Paused => true
    case _ => 1 <= |states| <= 9 && states == WRITING_WAY[..|states|] && states[|states| - 1] == s
  }

  lemma WayGoesOn(before: seq<State>, a: Checkpoint, b: Checkpoint)
    requires IsWayTo(before, a.state) && Follows(a, b)
    ensures IsWayTo(before + [b.state], b.state)
  {
    if a.state != Blocked && b.state != Blocked && b.state != Paused {
      assert before == REVIEW_WAY[..3] || before == REVIEW_WAY || |before| < 9;
      assert a.state == DirectorProposed ==> before == WRITING_WAY[..3] == REVIEW_WAY[..3];
      assert REVIEW_WAY[..3] + [REVIEW_WAY[3]] == REVIEW_WAY;
      if |before| < 9 {
        assert WRITING_WAY[..|before| + 1] == WRITING_WAY[..|before|] + [WRITING_WAY[|before|]];
      }
    }
  }

  /** A chapter has come to its state in the one way that leads there: nothing was skipped. */
  lemma {:induction false} OnlyOneWay(path: seq<Checkpoint>, projectId: string, chapter: nat)
    requires IsPath(path, projectId, chapter) && path != []
    ensures IsWayTo(States(path), path[|path| - 1].state)
    decreases |path|
  {
    var n := |path| - 1;
    if n == 0 {
      assert States(path) == WRITING_WAY[..1];
    } else {
      OnlyOneWay(path[..n], projectId, chapter);
      assert Follows(path[n - 1], path[n]);
      WayGoesOn(States(path[..n]), path[n - 1], path[n]);
      assert States(path) == States(path[..n]) + [path[n].state];
    }
  }
}
