/**
 Contract versions and the one current pointer of each contract: what is on disk, and what every
 operation of the coordinator writes, one atomic replacement after the other.
 */
module Lifecycle {
  import opened Wrappers
  import opened Durability
  import opened Text
  import opened Decisions
  import Approval
  import Baseline
  import Diffs
  import RecordStore
  import Review
  import ReviewGate
  import Revision

  /** The physical key of a contract version. */
  datatype Key = Key(contractId: string, version: nat)

  datatype ItemStatus = Candidate | Active | Archived

  /** A stored version. Its content never changes, its status does. */
  datatype Item = Item(decision: NarrativeDecision, evidence: seq<string>, status: ItemStatus,
                       approvedBy: Option<string>)

  datatype ApprovalHash = ApprovalHash(approval: Approval.ApprovalRecord)

  datatype DispositionSetHash = DispositionSetHash(entries: set<(RecordStore.RecordId, RecordStore.PayloadHash)>)

  /** What is current, and the digests of everything it was activated against. */
  datatype Pointer = Pointer(
    key: Key, contentHash: ContentHash, baseline: Baseline.Fingerprint, approvalId: RecordStore.RecordId,
    approval: ApprovalHash, reviewId: RecordStore.RecordId, review: Review.ResultHash, ruleset: string,
    assets: seq<Review.Asset>, dispositions: DispositionSetHash)

  datatype Stage = Prepared | NewActive | PointerSwitched | OldArchived | Committed

  datatype SwitchJournal = SwitchJournal(stage: Stage, actor: string, oldPointer: Pointer, newPointer: Pointer)

  /** A leaf change as the authority file digests it: path, presence and text of both sides. */
  datatype ChangeText = ChangeText(path: string, oldPresent: bool, oldText: string, newPresent: bool, newText: string)

  datatype BindingHash = BindingHash(changes: seq<ChangeText>, causal: seq<string>,
                                     requests: seq<Revision.ChangeRequest>)

  datatype RevisionAuthority = RevisionAuthority(
    key: Key, contentHash: ContentHash, baseVersion: nat, baseHash: ContentHash,
    baseBaseline: Baseline.Fingerprint, replacementBaseline: Baseline.Fingerprint,
    binding: BindingHash, required: seq<Approval.Item>)

  datatype PrepareStage = PreparePrepared | AuthorityWritten | PrepareCommitted

  /** The request is kept as canonical JSON writes it, with every enumeration as its text. */
  datatype PrepareHash = PrepareHash(
    request: Revision.Request, causal: seq<string>, requests: seq<Revision.ChangeRequest>, evidence: seq<string>)

  datatype PrepareJournal = PrepareJournal(stage: PrepareStage, contentHash: ContentHash, binding: PrepareHash)

  /** `staged` holds the versions whose authority file exists only under its temporary name. */
  datatype Project = Project(
    items: map<Key, Item>, pointers: map<string, Pointer>, switches: map<Key, SwitchJournal>,
    authorities: map<Key, RevisionAuthority>, staged: set<Key>, prepares: map<Key, PrepareJournal>)

  const EMPTY := Project(map[], map[], map[], map[], {}, map[])

  datatype Error =
    | InvalidKey | InvalidDecision | InitialVersionMustBeOne | ImmutableConflict | InvalidStatus | ItemMismatch
    | MissingItem | MissingPointerTarget | PointerTargetNotActive | PointerHashMismatch | MissingCurrent
    | MissingRecords | RecordsFailed(RecordStore.StoreError) | NotApproved | MissingRequiredApproval | ActorMismatch
    | GateBlocked | SourcesUnresolved | HashMismatch | PreflightBlocked | InitialPointerConflict
    | InvalidAuthority | BaselineMismatch | BaseMismatch | SwitchConflict | NotContiguous | AuthorityDrift
    | NotSafelyCurrent | InvalidOldStatus
    | RevisionRejected(Revision.RevisionError) | RequestMismatch | PrepareConflict | AuthorityConflict
      | StagedFileExists

  datatype Operation<+T> = Operation(steps: seq<Project>, answer: Result<T, Error>)

  function Following<T>(done: seq<Project>, rest: Operation<T>): Operation<T> {
    Operation(done + rest.steps, rest.answer)
  }

  function Fail<T>(e: Error): Operation<T> {
    Operation([], Failure(e))
  }

  predicate ContractIdIsValid(contractId: string) {
    exists n: nat | 1 <= n <= 999 :: contractId == "narrative-chapter-" + Padded(n, 3)
  }

  predicate KeyIsValid(k: Key) {
    ContractIdIsValid(k.contractId) && 1 <= k.version <= 9999
  }

  // ----- Reading items and the pointer -----

  predicate ItemBelongs(item: Item, k: Key) {
    item.decision.contractId == k.contractId && item.decision.contractVersion == k.version
  }

  /** Why `pointer` may not be the current pointer of the contract, if it may not. */
  function TargetError(p: Project, contractId: string, pointer: Pointer): Option<Error> {
    if pointer.key !in p.items then Some(MissingPointerTarget)
    else
      var item := p.items[pointer.key];
      if !item.status.Active? then Some(PointerTargetNotActive)
      else if !ItemBelongs(item, pointer.key) || pointer.key.contractId != contractId then Some(ItemMismatch)
      else if ContentHash(item.decision) != pointer.contentHash then Some(PointerHashMismatch)
      else None
  }

  function ReadPointer(p: Project, contractId: string): Result<Option<Pointer>, Error> {
    if contractId !in p.pointers then Success(None)
    else
      match TargetError(p, contractId, p.pointers[contractId])
      case Some(e) => Failure(e)
      case None => Success(Some(p.pointers[contractId]))
  }

  // ----- The gates in front of a pointer -----

  /**
   What the other authorities say at the time of a call: the record store as its recovery leaves it, its
   directory listing, whether the baseline sources resolve, and which decisions are ready for a contract, that
   is resolved by causal analysis and passed by preflight (see PreflightVerdict).
   */
  datatype Sources = Sources(
    records: RecordStore.Disk, names: seq<RecordStore.RecordId>, hex: Review.IssueHash -> string, resolve: bool,
    ready: NarrativeDecision -> bool)

  datatype Activation = Activation(
    key: Key, contentHash: ContentHash, baseline: Baseline.Fingerprint, actor: string, ruleset: string,
      sources: Sources)

  predicate NothingRejected(a: Approval.ApprovalRecord) {
    a.full.status.Approved? && forall item <- Approval.ITEMS :: !a.Of(item).status.Rejected?
  }

  function DispositionsOf(e: RecordStore.Exact): (r: seq<Review.Disposition>)
    ensures |r| == |e.dispositions| && forall i :: 0 <= i < |r| ==> r[i] == e.dispositions[i].1
  {
    seq(|e.dispositions|, i requires 0 <= i < |e.dispositions| => e.dispositions[i].1)
  }

  function Expected(a: Activation, e: RecordStore.Exact): ReviewGate.Expected {
    ReviewGate.Expected(a.key.contractId, a.key.version, a.contentHash, a.baseline, a.ruleset, e.review.body.assets)
  }

  ghost predicate GateReady(a: Activation, e: RecordStore.Exact) {
    ReviewGate.Current(e.review, Expected(a, e), a.sources.hex) && ReviewGate.Passes(e.review, DispositionsOf(e))
  }

  function PointerFor(a: Activation, e: RecordStore.Exact): Pointer {
    Pointer(a.key, a.contentHash, a.baseline, e.approvalId, ApprovalHash(e.approval), e.reviewId, e.review.hash,
            a.ruleset, e.review.body.assets,
            DispositionSetHash(set x <- e.dispositions :: (x.0, RecordStore.PayloadHash(x.1))))
  }

  function ExactRecords(a: Activation): Result<Option<RecordStore.Exact>, RecordStore.StoreError> {
    RecordStore.FindExact(a.sources.records, a.sources.names,
                          RecordStore.Query(a.key.contractId, a.key.version, a.contentHash, a.baseline, a.ruleset))
  }

  /** The pointer that may become current, after every approval, review, source and preflight gate. */
  ghost function PreparePointer(p: Project, a: Activation, required: seq<Approval.Item>): Result<Pointer, Error> {
    match ExactRecords(a)
    case Failure(e) => Failure(RecordsFailed(e))
    case Success(None) => Failure(MissingRecords)
    case Success(Some(exact)) =>
      if !NothingRejected(exact.approval) then Failure(NotApproved)
      else if exists item <- required :: !exact.approval.Approves(item) then Failure(MissingRequiredApproval)
      else if a.actor != exact.approval.full.approvedBy then Failure(ActorMismatch)
      else if !GateReady(a, exact) then Failure(GateBlocked)
      else if !a.sources.resolve then Failure(SourcesUnresolved)
      else
        match StoredDecisionError(p, a)
        case Some(e) => Failure(e)
        case None => Success(PointerFor(a, exact))
  }

  ghost function StoredDecisionError(p: Project, a: Activation): Option<Error> {
    if a.key !in p.items then Some(MissingItem)
    else
      var item := p.items[a.key];
      if item.status.Archived? then Some(InvalidStatus)
      else if !ItemBelongs(item, a.key) then Some(ItemMismatch)
      else if ContentHash(item.decision) != a.contentHash then Some(HashMismatch)
      else if !a.sources.ready(item.decision) then Some(PreflightBlocked)
      else None
  }

  // ----- The first version -----

  function WithStatus(p: Project, k: Key, item: Item): Project {
    p.(items := p.items[k := item])
  }

  function Activated(item: Item, actor: string): Item {
    item.(status := Active, approvedBy := Some(actor))
  }

  function CreateInitial(p: Project, decision: NarrativeDecision, evidence: seq<string>): Operation<Item> {
    var k := Key(decision.contractId, decision.contractVersion);
    if !decision.Valid() then Fail(InvalidDecision)
    else if decision.contractVersion != 1 then Fail(InitialVersionMustBeOne)
    else if !KeyIsValid(k) then Fail(InvalidKey)
    else if k in p.items then
      if !p.items[k].status.Candidate? then Fail(InvalidStatus)
      else if !ItemBelongs(p.items[k], k) then Fail(ItemMismatch)
      else if p.items[k].decision != decision then Fail(ImmutableConflict)
      else Operation([], Success(p.items[k]))
    else
      var item := Item(decision, evidence, Candidate, None);
      Operation([WithStatus(p, k, item)], Success(item))
  }

  ghost function ActivateInitial(p: Project, a: Activation): Operation<Pointer> {
    if a.key.version != 1 then Fail(InitialVersionMustBeOne)
    else
      match PreparePointer(p, a, [])
      case Failure(e) => Fail(e)
      case Success(pointer) =>
        match ReadPointer(p, a.key.contractId)
        case Failure(e) => Fail(e)
        case Success(existing) =>
          if existing.Some? && existing.value != pointer then Fail(InitialPointerConflict)
          else PlaceInitial(p, a, pointer)
  }

  /** Activates the candidate if that is still to be done, then writes the pointer. */
  function PlaceInitial(p: Project, a: Activation, pointer: Pointer): Operation<Pointer>
    requires a.key in p.items
  {
    var item := p.items[a.key];
    var active := WithStatus(p, a.key, Activated(item, a.actor));
    if item.status.Candidate? then Following([active], PlacePointer(active, a.key.contractId, pointer))
    else PlacePointer(p, a.key.contractId, pointer)
  }

  function WithPointer(p: Project, contractId: string, pointer: Pointer): Project {
    p.(pointers := p.pointers[contractId := pointer])
  }

  function PlacePointer(p: Project, contractId: string, pointer: Pointer): Operation<Pointer> {
    match TargetError(p, contractId, pointer)
    case Some(e) => Fail(e)
    case None => Operation([WithPointer(p, contractId, pointer)], Success(pointer))
  }

  // ----- Switching to the next version -----

  datatype Switch = Switch(activation: Activation, expected: Pointer)

  /** Reading the revision authority checks its own bindings. */
  predicate AuthorityIsValid(authority: RevisionAuthority, k: Key, hash: ContentHash) {
    && authority.key == k && authority.contentHash == hash
    && authority.baseVersion >= 1 && k.version == authority.baseVersion + 1
    && authority.required == Approval.Ordered(set item <- authority.required)
    && Approval.FullContract in authority.required && Approval.PostFreezeRevision in authority.required
  }

  /** Why the stored revision authority does not bind this switch, if it does not. */
  function AuthorityError(p: Project, s: Switch): Option<Error> {
    var a, k := s.activation, s.activation.key;
    if !KeyIsValid(k) then Some(InvalidKey)
    else if k !in p.authorities || !AuthorityIsValid(p.authorities[k], k, a.contentHash) then Some(InvalidAuthority)
    else
      var authority := p.authorities[k];
      if authority.replacementBaseline != a.baseline then Some(BaselineMismatch)
      else if authority.baseVersion != s.expected.key.version || authority.baseHash != s.expected.contentHash
              || authority.baseBaseline != s.expected.baseline
      then Some(BaseMismatch)
      else None
  }

  ghost function SwitchReplacement(p: Project, s: Switch): Operation<Pointer> {
    var k := s.activation.key;
    match AuthorityError(p, s)
    case Some(e) => Fail(e)
    case None =>
      match ReadPointer(p, k.contractId)
      case Failure(e) => Fail(e)
      case Success(current) =>
        if k !in p.switches then BeginSwitch(p, s, current) else ContinueSwitch(p, s, p.switches[k])
  }

  /** The first call compares the pointer and writes the journal. */
  ghost function BeginSwitch(p: Project, s: Switch, current: Option<Pointer>): Operation<Pointer>
    requires s.activation.key in p.authorities
  {
    var a, k := s.activation, s.activation.key;
    if current != Some(s.expected) then Fail(SwitchConflict)
    else if k.version != s.expected.key.version + 1 then Fail(NotContiguous)
    else
      match PreparePointer(p, a, p.authorities[k].required)
      case Failure(e) => Fail(e)
      case Success(pointer) =>
        var journal := SwitchJournal(Prepared, a.actor, s.expected, pointer);
        var announced := Journaled(p, k, journal);
        Following([announced], Advance(announced, s, journal))
  }

  /** A repeated call checks that the journal and the gates still say the same. */
  ghost function ContinueSwitch(p: Project, s: Switch, journal: SwitchJournal): Operation<Pointer>
    requires s.activation.key in p.authorities
  {
    var a, k := s.activation, s.activation.key;
    if journal.oldPointer != s.expected then Fail(SwitchConflict)
    else if journal.newPointer.key.version != k.version || journal.newPointer.contentHash != a.contentHash
    then Fail(SwitchConflict)
    else
      match PreparePointer(p, a, p.authorities[k].required)
      case Failure(e) => Fail(e)
      case Success(pointer) =>
        if pointer != journal.newPointer then Fail(AuthorityDrift) else Advance(p, s, journal)
  }

  function Journaled(p: Project, k: Key, journal: SwitchJournal): Project {
    p.(switches := p.switches[k := journal])
  }

  /** Activates the new version unless a previous attempt already did. */
  function Advance(p: Project, s: Switch, journal: SwitchJournal): Operation<Pointer> {
    var k, newKey, oldKey := s.activation.key, journal.newPointer.key, s.expected.key;
    if newKey !in p.items || oldKey !in p.items then Fail(MissingItem)
    else
      match p.items[newKey].status
      case Candidate =>
        var active := WithStatus(p, newKey, Activated(p.items[newKey], s.activation.actor));
        var next := journal.(stage := NewActive);
        var recorded := Journaled(active, k, next);
        Following([active, recorded], MovePointer(recorded, s, next))
      case Active => MovePointer(p, s, journal)
      case Archived => Fail(InvalidStatus)
  }

  /** Moves the pointer unless a previous attempt already did. */
  function MovePointer(p: Project, s: Switch, journal: SwitchJournal): Operation<Pointer> {
    var k := s.activation.key;
    match ReadPointer(p, k.contractId)
    case Failure(e) => Fail(e)
    case Success(current) =>
      if current == Some(s.expected) then
        match TargetError(p, k.contractId, journal.newPointer)
        case Some(e) => Fail(e)
        case None =>
          var moved := WithPointer(p, k.contractId, journal.newPointer);
          var next := journal.(stage := PointerSwitched);
          var recorded := Journaled(moved, k, next);
          Following([moved, recorded], ArchiveOld(recorded, s, next))
      else if current != Some(journal.newPointer) then Fail(SwitchConflict)
      else ArchiveOld(p, s, journal)
  }

  /** Archives the old version once the new one is safely current. */
  function ArchiveOld(p: Project, s: Switch, journal: SwitchJournal): Operation<Pointer> {
    var k, newKey, oldKey := s.activation.key, journal.newPointer.key, s.expected.key;
    if newKey !in p.items || oldKey !in p.items then Fail(MissingItem)
    else if !p.items[newKey].status.Active? || ReadPointer(p, k.contractId) != Success(Some(journal.newPointer))
    then Fail(NotSafelyCurrent)
    else
      match p.items[oldKey].status
      case Active =>
        var archived := WithStatus(p, oldKey, p.items[oldKey].(status := Archived));
        var next := journal.(stage := OldArchived);
        var recorded := Journaled(archived, k, next);
        Following([archived, recorded], Commit(recorded, s, next))
      case Archived => Commit(p, s, journal)
      case Candidate => Fail(InvalidOldStatus)
  }

  function Commit(p: Project, s: Switch, journal: SwitchJournal): Operation<Pointer> {
    var k := s.activation.key;
    var committed := Journaled(p, k, journal.(stage := Committed));
    var steps := if journal.stage.Committed? then [] else [committed];
    Operation(steps,
              if ReadPointer(End(p, steps), k.contractId) != Success(Some(journal.newPointer))
                then Failure(SwitchConflict)
              else Success(journal.newPointer))
  }

  // ----- A candidate for the next version -----

  datatype Replacement = Replacement(
    decision: NarrativeDecision, request: Revision.Request, causal: seq<string>,
    requests: seq<Revision.ChangeRequest>, evidence: seq<string>)

  function KeyOf(r: Replacement): Key {
    Key(r.decision.contractId, r.decision.contractVersion)
  }

  /** The human approvals that the revision needs, from the paths it changes and affects. */
  function RequiredBy(r: Replacement): seq<Approval.Item> {
    Approval.Ordered(Approval.RevisionItems(Diffs.PathsOf(r.request.changes) + r.request.causal))
  }

  function TextOf(c: Diffs.Change): ChangeText {
    ChangeText(c.path, c.oldPresent, c.oldValue.AsText(), c.newPresent, c.newValue.AsText())
  }

  function ChangeTexts(changes: seq<Diffs.Change>): (r: seq<ChangeText>)
    ensures |r| == |changes| && forall i :: 0 <= i < |r| ==> r[i] == TextOf(changes[i])
  {
    seq(|changes|, i requires 0 <= i < |changes| => TextOf(changes[i]))
  }

  function AuthorityFor(r: Replacement): RevisionAuthority {
    RevisionAuthority(KeyOf(r), ContentHash(r.decision), r.request.baseVersion, r.request.baseHash,
                      r.request.baseBaseline, r.request.replacementBaseline,
                      BindingHash(ChangeTexts(r.request.changes), r.causal, r.requests), RequiredBy(r))
  }

  /** A change as canonical JSON writes it. */
  function Encoded(c: Diffs.Change): Diffs.Change {
    c.(oldValue := c.oldValue.Encoded(), newValue := c.newValue.Encoded())
  }

  function EncodedChanges(changes: seq<Diffs.Change>): (r: seq<Diffs.Change>)
    ensures |r| == |changes| && forall i :: 0 <= i < |r| ==> r[i] == Encoded(changes[i])
  {
    seq(|changes|, i requires 0 <= i < |changes| => Encoded(changes[i]))
  }

  function PrepareAt(r: Replacement, stage: PrepareStage): PrepareJournal {
    var request := r.request.(changes := EncodedChanges(r.request.changes));
    PrepareJournal(stage, ContentHash(r.decision), PrepareHash(request, r.causal, r.requests, r.evidence))
  }

  function WithPrepare(p: Project, k: Key, journal: PrepareJournal): Project {
    p.(prepares := p.prepares[k := journal])
  }

  /** Writes the prepare journal; one that is already committed stays as it is. */
  function WritePrepare(p: Project, k: Key, journal: PrepareJournal): Operation<()> {
    if k in p.prepares && p.prepares[k].(stage := journal.stage) != journal then Fail(PrepareConflict)
    else if k in p.prepares && p.prepares[k].stage.PrepareCommitted? then Operation([], Success(()))
    else Operation([WithPrepare(p, k, journal)], Success(()))
  }

  /** The temporary file is created exclusively, so one that a crash left behind stops every later attempt. */
  function WriteAuthority(p: Project, authority: RevisionAuthority): Operation<()> {
    var k := authority.key;
    if k in p.authorities then
      if p.authorities[k] == authority then Operation([], Success(())) else Fail(AuthorityConflict)
    else if k in p.staged then Fail(StagedFileExists)
    else
      Operation([p.(staged := p.staged + {k}), p.(authorities := p.authorities[k := authority])], Success(()))
  }

  /** Why the revision may not become a candidate, if it may not. */
  function RevisionRefusal(p: Project, r: Replacement, pointer: Pointer): Option<Error>
    requires pointer.key in p.items
  {
    var k := KeyOf(r);
    match Revision.Verify(r.request, p.items[pointer.key].decision, r.decision, r.causal, r.requests)
    case Failure(e) => Some(RevisionRejected(e))
    case Success(_) =>
      if k.version != pointer.key.version + 1 then Some(NotContiguous)
      else if r.request.contractId != k.contractId || r.request.replacementVersion != k.version
              || r.request.replacementHash != ContentHash(r.decision)
      then Some(RequestMismatch)
      else if !KeyIsValid(k) then Some(InvalidKey)
      else None
  }

  function CreateReplacement(p: Project, r: Replacement): Operation<Item> {
    if !ContractIdIsValid(KeyOf(r).contractId) then Fail(InvalidKey)
    else
      match ReadPointer(p, KeyOf(r).contractId)
      case Failure(e) => Fail(e)
      case Success(None) => Fail(MissingCurrent)
      case Success(Some(pointer)) =>
        match RevisionRefusal(p, r, pointer)
        case Some(e) => Fail(e)
        case None => PrepareCandidate(p, r)
  }

  function PrepareCandidate(p: Project, r: Replacement): Operation<Item> {
    var prepared := WritePrepare(p, KeyOf(r), PrepareAt(r, PreparePrepared));
    if prepared.answer.Failure? then Fail(prepared.answer.error)
    else Following(prepared.steps, StoreAuthority(End(p, prepared.steps), r))
  }

  function StoreAuthority(p: Project, r: Replacement): Operation<Item> {
    var written := WriteAuthority(p, AuthorityFor(r));
    if written.answer.Failure? then Fail(written.answer.error)
    else Following(written.steps, RecordAuthority(End(p, written.steps), r))
  }

  function RecordAuthority(p: Project, r: Replacement): Operation<Item> {
    var recorded := WritePrepare(p, KeyOf(r), PrepareAt(r, AuthorityWritten));
    if recorded.answer.Failure? then Fail(recorded.answer.error)
    else Following(recorded.steps, StoreCandidate(End(p, recorded.steps), r))
  }

  function CandidateFor(r: Replacement): Item {
    Item(r.decision, r.evidence, Candidate, None)
  }

  function StoreCandidate(p: Project, r: Replacement): Operation<Item> {
    var k := KeyOf(r);
    if k !in p.items then
      var stored := WithStatus(p, k, CandidateFor(r));
      Following([stored], CommitCandidate(stored, r))
    else if p.items[k] != CandidateFor(r) then Fail(ImmutableConflict)
    else CommitCandidate(p, r)
  }

  function CommitCandidate(p: Project, r: Replacement): Operation<Item>
    requires KeyOf(r) in p.items
  {
    var committed := WritePrepare(p, KeyOf(r), PrepareAt(r, PrepareCommitted));
    if committed.answer.Failure? then Fail(committed.answer.error)
    else Operation(committed.steps, Success(p.items[KeyOf(r)]))
  }
}
