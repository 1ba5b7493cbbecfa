/**
 The append-only store of approval-time records: one journal and one record file per record, each
 replaced atomically, and references from human dispositions to reviewer results.
 */
module RecordStore {
  import opened Wrappers
  import opened Durability
  import opened Decisions
  import opened Review
  import Approval
  import Baseline
  import ReviewGate

  datatype Record =
    | BaselineOf(contractId: string, contractVersion: nat, manifest: Baseline.Manifest)
    | ApprovalOf(approval: Approval.ApprovalRecord)
    | ReviewOf(result: ReviewerResult)
    | DispositionOf(disposition: Disposition)

  /** SHA-256 of a disposition's canonical payload. */
  datatype PayloadHash = PayloadHash(disposition: Disposition)

  /** The parts that make up a record's file name. */
  datatype RecordId =
    | BaselineId(contractId: string, contractVersion: nat, baseline: Baseline.Fingerprint)
    | ApprovalId(contractId: string, contractVersion: nat, contractHash: ContentHash, baseline: Baseline.Fingerprint)
    | ReviewId(contractId: string, contractVersion: nat, resultHash: ResultHash)
    | DispositionId(resultId: string, issueId: string, issueHash: IssueHash, payload: PayloadHash)

  function IdOf(r: Record): RecordId {
    match r
    case BaselineOf(id, version, manifest) => BaselineId(id, version, manifest.fingerprint)
    case ApprovalOf(a) => ApprovalId(a.contractId, a.contractVersion, a.contractHash, a.baseline.fingerprint)
    case ReviewOf(result) => ReviewId(result.body.contractId, result.body.contractVersion, result.hash)
    case DispositionOf(d) => DispositionId(d.resultId, d.issueId, d.issueHash, PayloadHash(d))
  }

  /** What decoding a payload checks about digests and decisions. */
  predicate Decodes(r: Record) {
    match r
    case BaselineOf(_, _, manifest) => Baseline.Construct(manifest.entries, manifest.fingerprint).Success?
    case ApprovalOf(a) => Baseline.Construct(a.baseline.entries, a.baseline.fingerprint).Success? && a.Coherent()
    case ReviewOf(result) => result.hash == ResultHash(result.body)
    case DispositionOf(d) => ReviewGate.DispositionValid(d)
  }

  datatype Journal = Journal(committed: bool, record: Record)

  /**
   Both kinds of file, by record. A file that does not parse counts as
   one whose content does not belong to its name.
   */
  datatype Disk = Disk(journals: map<RecordId, Journal>, records: map<RecordId, Record>)

  const EMPTY := Disk(map[], map[])

  datatype StoreError = Malformed | Conflict | MissingRecord | OrphanRecord | BrokenReview | UnboundDisposition
    | Ambiguous

  datatype Operation<+T> = Operation(steps: seq<Disk>, answer: Result<T, StoreError>)

  function Following<T>(done: seq<Disk>, rest: Operation<T>): Operation<T> {
    Operation(done + rest.steps, rest.answer)
  }

  // ----- Reading -----

  predicate JournalBelongs(d: Disk, id: RecordId)
    requires id in d.journals
  {
    Decodes(d.journals[id].record) && IdOf(d.journals[id].record) == id
  }

  predicate RecordBelongs(d: Disk, id: RecordId)
    requires id in d.records
  {
    Decodes(d.records[id]) && IdOf(d.records[id]) == id
  }

  /** Why the record file `id` has no authority, if it has none. */
  function FileError(d: Disk, id: RecordId): Option<StoreError>
    requires id in d.records
  {
    if !RecordBelongs(d, id) then Some(Malformed)
    else if id !in d.journals then Some(OrphanRecord)
    else if !JournalBelongs(d, id) then Some(Malformed)
    else if !d.journals[id].committed || d.journals[id].record != d.records[id] then Some(Conflict)
    else None
  }

  predicate AboutIssue(d: Disposition, issue: Issue) {
    && d.issueId == issue.id && d.issueHash == issue.hash && d.issueCode == issue.code
    && d.fieldPath == issue.fieldPath && d.evidenceHash == issue.evidenceHash
  }

  function ReviewsNamed(d: Disk, resultId: string, hash: ResultHash): set<RecordId> {
    set id | id in d.records && d.records[id].ReviewOf?
             && d.records[id].result.body.resultId == resultId && d.records[id].result.hash == hash
  }

  /** The disposition must decide an issue of exactly one stored reviewer result. */
  function BindingError(d: Disk, disposition: Disposition): Option<StoreError> {
    var reviews := ReviewsNamed(d, disposition.resultId, disposition.resultHash);
    if exists id <- d.records :: id.ReviewId? && FileError(d, id).Some? then Some(BrokenReview)
    else if |reviews| != 1 then Some(UnboundDisposition)
    else if exists id <- reviews, issue <- d.records[id].result.body.issues :: AboutIssue(disposition, issue) then None
    else Some(UnboundDisposition)
  }

  function RecordBindingError(d: Disk, record: Record): Option<StoreError> {
    if record.DispositionOf? then BindingError(d, record.disposition) else None
  }

  function LoadIfPresent(d: Disk, id: RecordId): Result<Option<Record>, StoreError> {
    if id !in d.records then Success(None)
    else
      match FileError(d, id)
      case Some(e) => Failure(e)
      case None =>
        match RecordBindingError(d, d.records[id])
        case Some(e) => Failure(e)
        case None => Success(Some(d.records[id]))
  }

  // ----- Recovery -----

  function WriteRecord(d: Disk, id: RecordId, record: Record): Disk {
    d.(records := d.records[id := record])
  }

  function WriteJournal(d: Disk, id: RecordId, journal: Journal): Disk {
    d.(journals := d.journals[id := journal])
  }

  /** Finishes what the journal `id` announced. */
  function RecoverOne(d: Disk, id: RecordId): Operation<()>
    requires id in d.journals
  {
    var journal := d.journals[id];
    var written := WriteRecord(d, id, journal.record);
    var committed := Journal(true, journal.record);
    match RecordBindingError(d, journal.record)
    case Some(e) => Operation([], Failure(e))
    case None =>
      if id in d.records then
        if !RecordBelongs(d, id) then Operation([], Failure(Malformed))
        else if d.records[id] != journal.record then Operation([], Failure(Conflict))
        else if journal.committed then Operation([], Success(()))
        else Operation([WriteJournal(d, id, committed)], Success(()))
      else if journal.committed then Operation([], Failure(MissingRecord))
      else Operation([written, WriteJournal(written, id, committed)], Success(()))
  }

  /** Each phase passes over the journals of the other one. */
  function RecoverListed(d: Disk, id: RecordId, dispositions: bool): Operation<()> {
    if id !in d.journals || d.journals[id].record.DispositionOf? != dispositions then Operation([], Success(()))
    else RecoverOne(d, id)
  }

  /** One phase: the journals of dispositions, or all the others, in listing order. */
  function RecoverPhase(d: Disk, names: seq<RecordId>, dispositions: bool): Operation<()>
    decreases |names|
  {
    if names == [] then Operation([], Success(()))
    else
      var one := RecoverListed(d, names[0], dispositions);
      if one.answer.Failure? then one
      else Following(one.steps, RecoverPhase(End(d, one.steps), names[1..], dispositions))
  }

  /** The closing pass over the record files. */
  function CheckRecords(d: Disk, names: seq<RecordId>): Option<StoreError> {
    if names == [] then None
    else if names[0] !in d.records then CheckRecords(d, names[1..])
    else if names[0] !in d.journals then Some(OrphanRecord)
    else if LoadIfPresent(d, names[0]).Failure? then Some(LoadIfPresent(d, names[0]).error)
    else CheckRecords(d, names[1..])
  }

  predicate JournalsBelong(d: Disk, names: seq<RecordId>) {
    forall id <- names :: id in d.journals ==> JournalBelongs(d, id)
  }

  /** Reviewer results and other records first, dispositions after them. */
  function BothPhases(d: Disk, names: seq<RecordId>): Operation<()> {
    var first := RecoverPhase(d, names, false);
    if first.answer.Failure? then first
    else Following(first.steps, RecoverPhase(End(d, first.steps), names, true))
  }

  /** Reads every journal, finishes the two phases, and closes with a check of every record file. */
  function Recover(d: Disk, names: seq<RecordId>): Operation<()> {
    if !JournalsBelong(d, names) then Operation([], Failure(Malformed))
    else
      var both := BothPhases(d, names);
      if both.answer.Failure? then both
      else
        match CheckRecords(End(d, both.steps), names)
        case Some(e) => Operation(both.steps, Failure(e))
        case None => Operation(both.steps, Success(()))
  }

  // ----- Saving -----

  function Save(d: Disk, names: seq<RecordId>, record: Record): Operation<RecordId> {
    if !Decodes(record) then Operation([], Failure(Malformed))
    else
      var recovery := Recover(d, names);
      match recovery.answer
      case Failure(e) => Operation(recovery.steps, Failure(e))
      case Success(_) => Following(recovery.steps, SaveRecovered(End(d, recovery.steps), record))
  }

  function SaveRecovered(d: Disk, record: Record): Operation<RecordId> {
    var id := IdOf(record);
    match RecordBindingError(d, record)
    case Some(e) => Operation([], Failure(e))
    case None =>
      match LoadIfPresent(d, id)
      case Failure(e) => Operation([], Failure(e))
      case Success(Some(existing)) =>
        Operation([], if existing == record then Success(id) else Failure(Conflict))
      case Success(None) => WriteNew(d, id, record)
  }

  /** Prepared journal, record file, committed journal; a journal that is already there must agree. */
  function WriteNew(d: Disk, id: RecordId, record: Record): Operation<RecordId> {
    if id in d.journals then
      if !JournalBelongs(d, id) then Operation([], Failure(Malformed))
      else if d.journals[id].record != record then Operation([], Failure(Conflict))
      else
        var written := WriteRecord(d, id, record);
        Operation([written, WriteJournal(written, id, Journal(true, record))], Success(id))
    else
      var announced := WriteJournal(d, id, Journal(false, record));
      var written := WriteRecord(announced, id, record);
      Operation([announced, written, WriteJournal(written, id, Journal(true, record))], Success(id))
  }

  // ----- The exact records of one contract -----

  datatype Exact = Exact(
    baselineId: RecordId, baseline: Baseline.Manifest, approvalId: RecordId, approval: Approval.ApprovalRecord,
    reviewId: RecordId, review: ReviewerResult, dispositions: seq<(RecordId, Disposition)>)

  datatype Query = Query(
    contractId: string, contractVersion: nat, contractHash: ContentHash, baseline: Baseline.Fingerprint,
      ruleset: string)

  function ReviewsFor(d: Disk, q: Query): set<RecordId> {
    set id | id in d.records && d.records[id].ReviewOf? &&
      var body := d.records[id].result.body;
      && body.contractId == q.contractId && body.contractVersion == q.contractVersion
      && body.contractHash == q.contractHash && body.baseline == q.baseline && body.ruleset == q.ruleset
  }

  predicate DispositionFor(d: Disk, id: RecordId, review: ReviewerResult) {
    && id in d.records && d.records[id].DispositionOf?
    && var x := d.records[id].disposition;
       && x.resultId == review.body.resultId && x.resultHash == review.hash
       && exists issue <- review.body.issues :: AboutIssue(x, issue)
  }

  function Select(d: Disk, names: seq<RecordId>, review: ReviewerResult): seq<(RecordId, Disposition)> {
    if names == [] then []
    else
      (if DispositionFor(d, names[0], review) then [(names[0], d.records[names[0]].disposition)] else [])
      + Select(d, names[1..], review)
  }

  /** Looks up the baseline, the approval, the only matching reviewer result and its dispositions. */
  function FindExact(d: Disk, names: seq<RecordId>, q: Query): Result<Option<Exact>, StoreError> {
    var baselineId := BaselineId(q.contractId, q.contractVersion, q.baseline);
    var approvalId := ApprovalId(q.contractId, q.contractVersion, q.contractHash, q.baseline);
    var baseline :- LoadIfPresent(d, baselineId);
    var approval :- LoadIfPresent(d, approvalId);
    if baseline.None? || approval.None? then Success(None)
    else if !baseline.value.BaselineOf? || !approval.value.ApprovalOf? then Failure(Malformed)
    else if approval.value.approval.baseline != baseline.value.manifest then Failure(Conflict)
    else if exists id <- d.records :: id.ReviewId? && FileError(d, id).Some? then Failure(BrokenReview)
    else
      var reviews := ReviewsFor(d, q);
      if reviews == {} then Success(None)
      else if |reviews| != 1 then Failure(Ambiguous)
      else if exists id <- d.records :: id.DispositionId? && LoadIfPresent(d, id).Failure? then Failure(Malformed)
      else
        OnlyOne(reviews);
        var reviewId :| reviewId in reviews;
        var review := d.records[reviewId].result;
        Success(Some(Exact(baselineId, baseline.value.manifest, approvalId, approval.value.approval,
                           reviewId, review, Select(d, names, review))))
  }

  lemma OnlyOne<T>(s: set<T>)
    requires |s| == 1
    ensures exists x :: x in s
    ensures forall x, y :: x in s && y in s ==> x == y
  {
    var x :| x in s;
    assert |s - {x}| == 0;
  }
}
