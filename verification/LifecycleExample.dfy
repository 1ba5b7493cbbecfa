/** A contract that is created, activated and revised once: the lifecycle's successful calls exist. */
module LifecycleExample {
  import opened Wrappers
  import opened Durability
  import opened Text
  import opened Sorting
  import opened Decisions
  import opened Lifecycle
  import opened LifecycleRuns
  import opened SwitchRecovery
  import Approval
  import Baseline
  import CandidateRecovery
  import Diffs
  import InitialRecovery
  import Leaves
  import FieldPaths
  import Paths
  import ReadyTree
  import RecordStore
  import RetypedRevisions
  import Review
  import ReviewGate
  import Revision

  const CONTRACT := ReadyTree.CONTRACT_NAME

  const TARGET := ReadyTree.TARGET

  /**
   What the example needs besides the records: digest texts, the
   verdict of preflight, and the trees of two versions.
   */
  datatype Gates = Gates(hex: Review.IssueHash -> string, ready: NarrativeDecision -> bool, tree: nat -> Tree)

  /** Version `n` of the first chapter's contract. */
  function Version(g: Gates, n: nat): NarrativeDecision {
    NarrativeDecision(1, CONTRACT, n, ReadyTree.CHAPTER_NAME, g.tree(n))
  }

  /** Both versions are ready, and they differ in nothing but their target length. */
  ghost predicate Open(g: Gates) {
    var before, after := Leaves.LeavesOf(Version(g, 1)), Leaves.LeavesOf(Version(g, 2));
    && g.ready(Version(g, 1)) && g.ready(Version(g, 2))
    && TARGET in before && before[TARGET] == Int(1) && after == before[TARGET := Int(2)]
  }

  /** The profile was edited between the two versions, so each has a baseline of its own. */
  function Profile(n: nat): Baseline.Entry {
    Baseline.Entry(Baseline.PROFILE, "profile", if n == 1 then "1" else "2", "0")
  }

  function ManifestOf(n: nat): Baseline.Manifest {
    Baseline.Manifest([Profile(n)], Baseline.Fingerprint([Profile(n)]))
  }

  lemma BaselinesDiffer()
    ensures ManifestOf(1).fingerprint != ManifestOf(2).fingerprint
  {
    assert "1"[0] != "2"[0];
    assert Profile(1).sourceVersion != Profile(2).sourceVersion;
    assert [Profile(1)][0] != [Profile(2)][0];
  }

  const YES := Approval.Decision(Approval.Approved, "fine", "editor", "now")

  function ApprovalOf(d: NarrativeDecision): Approval.ApprovalRecord {
    Approval.ApprovalRecord(CONTRACT, d.contractVersion, ContentHash(d), ManifestOf(d.contractVersion), YES, YES, YES,
                            YES, YES, YES, YES)
  }

  const ASSETS: seq<Review.Asset> := [("style", "1")]

  function ReviewOf(d: NarrativeDecision): Review.ReviewerResult {
    var body := Review.Body("r", CONTRACT, d.contractVersion, ContentHash(d),
                            ManifestOf(d.contractVersion).fingerprint, "rules", ASSETS,
                            []);
    Review.ReviewerResult(body, Review.ResultHash(body))
  }

  function BaselineRecord(d: NarrativeDecision): RecordStore.Record {
    RecordStore.BaselineOf(CONTRACT, d.contractVersion, ManifestOf(d.contractVersion))
  }

  /** The committed records about one version: its baseline, its approval and its review. */
  function RecordsOf(d: NarrativeDecision): RecordStore.Disk {
    var b, a, r := BaselineRecord(d), RecordStore.ApprovalOf(ApprovalOf(d)), RecordStore.ReviewOf(ReviewOf(d));
    RecordStore.Disk(
      map[RecordStore.IdOf(b) := RecordStore.Journal(true, b), RecordStore.IdOf(a) := RecordStore.Journal(true, a),
          RecordStore.IdOf(r) := RecordStore.Journal(true, r)],
      map[RecordStore.IdOf(b) := b, RecordStore.IdOf(a) := a, RecordStore.IdOf(r) := r])
  }

  lemma ManifestBuilds(n: nat)
    ensures Baseline.Construct(ManifestOf(n).entries, ManifestOf(n).fingerprint).Success?
  {
    var entries := [Profile(n)];
    assert entries[..0] == [] && entries[1..] == [];
    assert Baseline.Profiles(entries) == 1;
    assert Sort(entries, Baseline.EntryKey) == entries;
  }

  lemma RecordsDecode(d: NarrativeDecision)
    ensures RecordStore.Decodes(BaselineRecord(d)) && RecordStore.Decodes(RecordStore.ApprovalOf(ApprovalOf(d)))
    ensures RecordStore.Decodes(RecordStore.ReviewOf(ReviewOf(d)))
  {
    ManifestBuilds(d.contractVersion);
  }

  function QueryFor(d: NarrativeDecision): RecordStore.Query {
    RecordStore.Query(CONTRACT, d.contractVersion, ContentHash(d), ManifestOf(d.contractVersion).fingerprint, "rules")
  }

  lemma RecordsLoad(d: NarrativeDecision, id: RecordStore.RecordId)
    ensures id in RecordsOf(d).records ==>
              RecordStore.FileError(RecordsOf(d), id).None?
              && RecordStore.LoadIfPresent(RecordsOf(d), id) == Success(Some(RecordsOf(d).records[id]))
  {
    RecordsDecode(d);
  }

  lemma OneReview(d: NarrativeDecision)
    ensures RecordStore.ReviewsFor(RecordsOf(d), QueryFor(d)) == {RecordStore.IdOf(RecordStore.ReviewOf(ReviewOf(d)))}
  {
  }

  /** The lookup finds the three records. */
  lemma RecordsFound(d: NarrativeDecision)
    ensures var found := RecordStore.FindExact(RecordsOf(d), [], QueryFor(d));
            && found.Success? && found.value.Some?
            && found.value.value.approval == ApprovalOf(d) && found.value.value.review == ReviewOf(d)
            && found.value.value.dispositions == []
  {
    var disk, q := RecordsOf(d), QueryFor(d);
    var b, a, r := BaselineRecord(d), RecordStore.ApprovalOf(ApprovalOf(d)), RecordStore.ReviewOf(ReviewOf(d));
    RecordsLoad(d, RecordStore.IdOf(b));
    RecordsLoad(d, RecordStore.IdOf(a));
    OneReview(d);
    forall id <- disk.records
      ensures RecordStore.FileError(disk, id).None? && RecordStore.LoadIfPresent(disk, id).Success?
    {
      RecordsLoad(d, id);
    }
    RecordStore.OnlyOne(RecordStore.ReviewsFor(disk, q));
  }

  // ----- Passing the gates -----

  function SourcesOf(d: NarrativeDecision, g: Gates): Sources {
    Sources(RecordsOf(d), [], g.hex, true, g.ready)
  }

  function ActivationOf(d: NarrativeDecision, g: Gates): Activation {
    Activation(Key(CONTRACT, d.contractVersion), ContentHash(d), ManifestOf(d.contractVersion).fingerprint, "editor",
               "rules",
               SourcesOf(d, g))
  }

  lemma AssetsCanonical()
    ensures Review.CanonicalAssets(ASSETS) == Success(ASSETS)
  {
    assert ASSETS[1..] == [];
    NotBlank("style");
    NotBlank("1");
    assert Sort(ASSETS, Review.AssetKey) == ASSETS;
  }

  lemma NoIssuesCanonical(g: Gates)
    ensures Review.CanonicalIssues([], g.hex) == Success([])
  {
  }

  lemma NothingOpen(result: Review.ReviewerResult)
    requires result.body.issues == []
    ensures ReviewGate.Passes(result, [])
  {
    assert ReviewGate.IsMatching([], [], [], result);
  }

  lemma NamesNotBlank()
    ensures !Blank(CONTRACT) && !Blank("rules")
  {
    assert CONTRACT[0] == "narrative-chapter-"[0] == 'n';
    NotBlank(CONTRACT);
    NotBlank("rules");
  }

  lemma ReviewIsCurrent(d: NarrativeDecision, g: Gates)
    requires d.contractVersion >= 1
    ensures ReviewGate.Current(ReviewOf(d),
              ReviewGate.Expected(CONTRACT, d.contractVersion, ContentHash(d),
                                  ManifestOf(d.contractVersion).fingerprint, "rules", ASSETS),
                g.hex)
  {
    AssetsCanonical();
    NoIssuesCanonical(g);
    NamesNotBlank();
  }

  lemma EverythingApproved(d: NarrativeDecision, item: Approval.Item)
    ensures ApprovalOf(d).Approves(item)
  {
  }

  lemma ReviewPasses(d: NarrativeDecision, g: Gates, e: RecordStore.Exact)
    requires d.contractVersion >= 1 && e.review == ReviewOf(d) && e.dispositions == []
    ensures GateReady(ActivationOf(d, g), e)
  {
    ReviewIsCurrent(d, g);
    NothingOpen(e.review);
    assert DispositionsOf(e) == [];
  }

  /** All gates pass for a stored version that is not archived, whatever items are required. */
  lemma GatesPass(p: Project, d: NarrativeDecision, g: Gates, required: seq<Approval.Item>)
    requires g.ready(d)
    requires d.contractVersion >= 1 && d.contractId == CONTRACT
    requires Key(CONTRACT, d.contractVersion) in p.items
    requires var item := p.items[Key(CONTRACT, d.contractVersion)]; item.decision == d && !item.status.Archived?
    ensures PreparePointer(p, ActivationOf(d, g), required).Success?
  {
    var a := ActivationOf(d, g);
    RecordsFound(d);
    var e := ExactRecords(a).value.value;
    ReviewPasses(d, g, e);
    forall item: Approval.Item
      ensures ApprovalOf(d).Approves(item)
    {
      EverythingApproved(d, item);
    }
    GatesLetThrough(p, a, required, e);
  }

  // ----- The first version -----

  function Candidate(g: Gates, n: nat): Item {
    Item(Version(g, n), [], ItemStatus.Candidate, None)
  }

  function Created(g: Gates): Project {
    EMPTY.(items := map[Key(CONTRACT, 1) := Candidate(g, 1)])
  }

  lemma KeysValid()
    ensures ContractIdIsValid(CONTRACT) && KeyIsValid(Key(CONTRACT, 1)) && KeyIsValid(Key(CONTRACT, 2))
  {
    assert CONTRACT == "narrative-chapter-" + Padded(1, 3);
  }

  /** The first candidate can be created. */
  lemma CreationSucceeds(g: Gates)
    ensures CreateInitial(EMPTY, Version(g, 1), []) == Operation([Created(g)], Success(Candidate(g, 1)))
  {
    KeysValid();
    assert Version(g, 1).Valid();
    assert EMPTY.items[Key(CONTRACT, 1) := Candidate(g, 1)] == Created(g).items;
  }

  /** A project whose current version is 1, with nothing under way. */
  ghost predicate FirstIsCurrent(p: Project, g: Gates) {
    && CONTRACT in p.pointers && p.pointers[CONTRACT].key == Key(CONTRACT, 1)
    && p.pointers[CONTRACT].contentHash == ContentHash(Version(g, 1))
    && p.pointers[CONTRACT].baseline == ManifestOf(1).fingerprint
    && p.items == map[Key(CONTRACT, 1) := Activated(Candidate(g, 1), "editor")]
    && p.switches == map[] && p.authorities == map[] && p.staged == {} && p.prepares == map[]
  }

  lemma FirstAdmitted(g: Gates) returns (pointer: Pointer)
    requires Open(g)
    ensures InitialRecovery.Admitted(Created(g), ActivationOf(Version(g, 1), g), pointer)
    ensures pointer.key == Key(CONTRACT, 1) && pointer.contentHash == ContentHash(Version(g, 1))
    ensures pointer.baseline == ManifestOf(1).fingerprint
  {
    var a := ActivationOf(Version(g, 1), g);
    GatesPass(Created(g), Version(g, 1), g, []);
    pointer := PreparePointer(Created(g), a, []).value;
    PreparedPointerFits(Created(g), a, []);
  }

  /** The first activation succeeds. */
  lemma ActivationSucceeds(g: Gates, a: Activation, pointer: Pointer)
    requires InitialRecovery.Admitted(Created(g), a, pointer)
    requires a.key == pointer.key == Key(CONTRACT, 1) && a.actor == "editor"
    requires pointer.contentHash == ContentHash(Version(g, 1)) && pointer.baseline == ManifestOf(1).fingerprint
    ensures ActivateInitial(Created(g), a).answer == Success(pointer)
    ensures FirstIsCurrent(End(Created(g), ActivateInitial(Created(g), a).steps), g)
  {
    InitialRecovery.EndOfActivation(Created(g), a, pointer);
    assert Created(g).items[a.key := Activated(Candidate(g, 1), "editor")] ==
           map[a.key := Activated(Candidate(g, 1), "editor")];
  }

  // ----- The second version -----

  const CHANGE := Diffs.Change(TARGET, Int(1), Int(2), true, true)

  lemma OneChange(g: Gates)
    requires Open(g)
    ensures Diffs.Diff(Leaves.LeavesOf(Version(g, 1)), Leaves.LeavesOf(Version(g, 2))) == [CHANGE]
  {
    var before, after := Leaves.LeavesOf(Version(g, 1)), Leaves.LeavesOf(Version(g, 2));
    assert Diffs.PathsOf([CHANGE]) == [TARGET];
    Diffs.DiffIsTheExactOne([CHANGE], before, after);
  }

  lemma TargetIsPath()
    ensures Paths.IsPath(TARGET)
  {
    var name := "target_chinese_chars";
    assert Paths.IsIdentifier(FieldPaths.CHAPTER) && Paths.IsIdentifier(name);
    Paths.IdentifierStartsPath(name, "");
    Paths.IdentifierStartsPath(FieldPaths.CHAPTER, name);
  }

  /** No major field is the target length or contains it. */
  lemma TargetIsMinor()
    ensures !Revision.MajorPath(TARGET)
  {
    forall prefix <- Revision.MAJOR
      ensures TARGET != prefix && !Paths.StartsWith(TARGET, prefix + ".") && !Paths.StartsWith(TARGET, prefix + "[")
    {
      assert TARGET[0] == 'c' && TARGET[17] == 't';
      assert prefix[0] != 'c' || (|prefix| > 17 && prefix[17] != 't');
    }
  }

  /** The request that takes version 1 to version 2. */
  function Request(g: Gates): Revision.Request {
    Revision.Request(
      CONTRACT, ReadyTree.CHAPTER_NAME, 1, ContentHash(Version(g, 1)), 2, ContentHash(Version(g, 2)),
      ManifestOf(1).fingerprint, ManifestOf(2).fingerprint, [CHANGE], [TARGET], "none", [])
  }

  function ReplacementOf(g: Gates): Replacement {
    Replacement(Version(g, 2), Request(g), [TARGET], [], [])
  }

  lemma RequestVerifies(g: Gates)
    requires Open(g)
    ensures Revision.Verify(Request(g), Version(g, 1), Version(g, 2), [TARGET], []).Success?
  {
    OneChange(g);
    TargetIsPath();
    TargetIsMinor();
    assert Version(g, 1).Valid() && Version(g, 2).Valid();
    assert Sort([], Revision.ReferenceKey) == [];
    assert Revision.CheckedDiff(Leaves.LeavesOf(Version(g, 1)), Leaves.LeavesOf(Version(g, 2))) == Success([CHANGE]);
    assert Revision.References([CHANGE], 1, []) == Success([]);
  }

  /** The same request with `True` written for the leaf's `1`. */
  function Retyped(g: Gates): Revision.Request {
    Request(g).(changes := [CHANGE.(oldValue := Bool(true))])
  }

  lemma RequestConstructs(g: Gates)
    ensures Revision.Construct(Request(g)).Success?
  {
    NamesNotBlank();
    TargetIsPath();
    NotBlank(Request(g).chapterId);
    NotBlank("none");
    assert Diffs.PathsOf([CHANGE]) == [TARGET];
  }

  lemma RequestIsBuilt(g: Gates)
    requires Open(g)
    ensures Revision.Build(Version(g, 1), Version(g, 2), ManifestOf(1).fingerprint, ManifestOf(2).fingerprint,
                           [TARGET], "none",
                           []) ==
            Success(Request(g))
  {
    RequestConstructs(g);
    RequestVerifies(g);
    Revision.VerifyIffBuilt(Request(g), Version(g, 1), Version(g, 2), [TARGET], []);
  }

  /**
   The type of a listed value is not checked: a constructed request verifies although building gives another
   one, and the authority it would store has another digest.
   */
  lemma RetypedRequestVerifies(g: Gates)
    requires Open(g)
    ensures Revision.Construct(Retyped(g)).Success?
    ensures Revision.Verify(Retyped(g), Version(g, 1), Version(g, 2), [TARGET], []).Success?
    ensures Revision.Build(Version(g, 1), Version(g, 2), ManifestOf(1).fingerprint, ManifestOf(2).fingerprint,
                           [TARGET], "none",
                           []) ==
            Success(Request(g)) != Success(Retyped(g))
    ensures AuthorityFor(ReplacementOf(g).(request := Retyped(g))) != AuthorityFor(ReplacementOf(g))
  {
    RequestIsBuilt(g);
    RequestVerifies(g);
    RequestConstructs(g);
    assert Diffs.SameChange(CHANGE, Retyped(g).changes[0]);
    assert Revision.SameRequest(Request(g), Retyped(g));
    Revision.ConstructSame(Request(g), Retyped(g));
    Revision.VerifiedUnique(Request(g), Retyped(g), Version(g, 1), Version(g, 2), [TARGET], []);
    RetypedRevisions.RetypedDigests(ReplacementOf(g), ReplacementOf(g).(request := Retyped(g)), PreparePrepared);
  }

  /** The candidate for version 2 can be prepared beside the current version 1. */
  lemma ReplacementSucceeds(p: Project, g: Gates)
    requires Open(g) && FirstIsCurrent(p, g)
    ensures CreateReplacement(p, ReplacementOf(g)).answer == Success(Candidate(g, 2))
    ensures var q := End(p, CreateReplacement(p, ReplacementOf(g)).steps);
            && q.pointers == p.pointers && q.switches == map[]
            && q.items == p.items[Key(CONTRACT, 2) := Candidate(g, 2)]
            && q.authorities == map[Key(CONTRACT, 2) := AuthorityFor(ReplacementOf(g))]
  {
    KeysValid();
    RequestVerifies(g);
    assert KeyOf(ReplacementOf(g)) == Key(CONTRACT, 2);
    assert RevisionRefusal(p, ReplacementOf(g), p.pointers[CONTRACT]).None?;
    CandidateRecovery.SameGates(p, p, ReplacementOf(g), p.pointers[CONTRACT]);
    CandidateRecovery.FirstWrites(p, ReplacementOf(g));
    CandidateRecovery.FinishedFrom(p, ReplacementOf(g), CandidateRecovery.FINISHED);
  }

  ghost predicate SecondIsReady(p: Project, g: Gates) {
    && CONTRACT in p.pointers && p.pointers[CONTRACT].key == Key(CONTRACT, 1)
    && p.pointers[CONTRACT].contentHash == ContentHash(Version(g, 1))
    && p.pointers[CONTRACT].baseline == ManifestOf(1).fingerprint
    && p.items == map[Key(CONTRACT, 1) := Activated(Candidate(g, 1), "editor"), Key(CONTRACT, 2) := Candidate(g, 2)]
    && p.switches == map[] && p.authorities == map[Key(CONTRACT, 2) := AuthorityFor(ReplacementOf(g))]
  }

  function SwitchFrom(p: Project, g: Gates): Switch
    requires CONTRACT in p.pointers
  {
    Switch(ActivationOf(Version(g, 2), g), p.pointers[CONTRACT])
  }

  lemma AuthorityBinds(p: Project, g: Gates)
    requires SecondIsReady(p, g)
    ensures AuthorityError(p, SwitchFrom(p, g)).None?
  {
    KeysValid();
    var k := Key(CONTRACT, 2);
    assert KeyOf(ReplacementOf(g)) == k;
    var items := Approval.RevisionItems(Diffs.PathsOf(Request(g).changes) + Request(g).causal);
    var required := RequiredBy(ReplacementOf(g));
    Approval.OrderedMembers(items);
    assert (set item <- required) == items;
  }

  lemma PreparedSwitchSucceeds(p: Project, g: Gates, s: Switch, next: Pointer)
    requires SecondIsReady(p, g) && AuthorityError(p, s).None?
    requires s.activation.key == Key(CONTRACT, 2) && s.expected == p.pointers[CONTRACT]
    requires PreparePointer(p, s.activation, p.authorities[s.activation.key].required) == Success(next)
    ensures SwitchReplacement(p, s).answer == Success(next) && next.key == Key(CONTRACT, 2)
  {
    assert TargetError(p, CONTRACT, s.expected).None?;
    PreparedPointerFits(p, s.activation, p.authorities[s.activation.key].required);
    FirstCallSucceeds(p, s, next);
  }

  lemma PreparedBaseline(p: Project, a: Activation, required: seq<Approval.Item>)
    requires PreparePointer(p, a, required).Success?
    ensures PreparePointer(p, a, required).value.baseline == a.baseline
  {
  }

  /** The switch to version 2 succeeds, and it goes from one baseline to another. */
  lemma SwitchSucceeds(p: Project, g: Gates)
    requires Open(g) && SecondIsReady(p, g)
    ensures var answer := SwitchReplacement(p, SwitchFrom(p, g)).answer;
            && answer.Success? && answer.value.key == Key(CONTRACT, 2)
            && p.pointers[CONTRACT].baseline == ManifestOf(1).fingerprint != ManifestOf(2).fingerprint
            && answer.value.baseline == ManifestOf(2).fingerprint
    ensures SwitchFrom(p, g).activation.key !in p.switches
  {
    var s := SwitchFrom(p, g);
    AuthorityBinds(p, g);
    BaselinesDiffer();
    var required := p.authorities[s.activation.key].required;
    GatesPass(p, Version(g, 2), g, required);
    PreparedBaseline(p, s.activation, required);
    PreparedSwitchSucceeds(p, g, s, PreparePointer(p, s.activation, required).value);
  }

  // ----- The whole run -----

  /** The call, if it activates or switches, is made with this verdict of preflight. */
  ghost predicate Uses(call: Call, g: Gates) {
    match call
    case Activate(a, _) => a.sources.ready == g.ready
    case SwitchTo(s, _) => s.activation.sources.ready == g.ready
    case _ => true
  }

  lemma InitialCall(g: Gates) returns (call: Call)
    ensures Perform(EMPTY, call) == Created(g) && Uses(call, g)
  {
    CreationSucceeds(g);
    call := Call.Initial(Version(g, 1), [], 1);
  }

  lemma ActivateCall(g: Gates) returns (call: Call)
    requires Open(g)
    ensures FirstIsCurrent(Perform(Created(g), call), g) && Uses(call, g)
  {
    var pointer := FirstAdmitted(g);
    var a := ActivationOf(Version(g, 1), g);
    ActivationSucceeds(g, a, pointer);
    call := Call.Activate(a, |ActivateInitial(Created(g), a).steps|);
  }

  lemma ReplaceCall(p: Project, g: Gates) returns (call: Call)
    requires Open(g) && FirstIsCurrent(p, g)
    ensures SecondIsReady(Perform(p, call), g) && Uses(call, g)
  {
    ReplacementSucceeds(p, g);
    call := Call.Replace(ReplacementOf(g), |CreateReplacement(p, ReplacementOf(g)).steps|);
  }

  ghost predicate SecondIsCurrent(p: Project) {
    && CONTRACT in p.pointers && p.pointers[CONTRACT].key == Key(CONTRACT, 2)
    && p.pointers[CONTRACT].baseline == ManifestOf(2).fingerprint != ManifestOf(1).fingerprint
    && Key(CONTRACT, 1) in p.items && p.items[Key(CONTRACT, 1)].status.Archived?
    && Key(CONTRACT, 2) in p.items && p.items[Key(CONTRACT, 2)].status.Active?
  }

  lemma DoneIsSecond(p: Project, s: Switch, next: Pointer, q: Project)
    requires SwitchDone(p, s, next, q)
    requires s.activation.key == next.key == Key(CONTRACT, 2) && s.expected.key == Key(CONTRACT, 1)
    requires next.baseline == ManifestOf(2).fingerprint
    ensures SecondIsCurrent(q)
  {
    BaselinesDiffer();
  }

  lemma SecondBecomesCurrent(p: Project, g: Gates)
    requires Open(g) && SecondIsReady(p, g)
    ensures SecondIsCurrent(End(p, SwitchReplacement(p, SwitchFrom(p, g)).steps))
  {
    var s := SwitchFrom(p, g);
    SwitchSucceeds(p, g);
    var op := SwitchReplacement(p, s);
    FinishedSwitch(p, s);
    DoneIsSecond(p, s, op.answer.value, End(p, op.steps));
  }

  lemma PerformWhole(p: Project, s: Switch)
    ensures Perform(p, Call.SwitchTo(s, |SwitchReplacement(p, s).steps|)) == End(p, SwitchReplacement(p, s).steps)
  {
  }

  lemma SwitchCall(p: Project, g: Gates) returns (call: Call)
    requires Open(g) && SecondIsReady(p, g)
    ensures SecondIsCurrent(Perform(p, call)) && Uses(call, g)
  {
    var s := SwitchFrom(p, g);
    SecondBecomesCurrent(p, g);
    PerformWhole(p, s);
    call := Call.SwitchTo(s, |SwitchReplacement(p, s).steps|);
  }

  lemma RunThenOne(p: Project, calls: seq<Call>, call: Call)
    ensures Run(p, calls + [call]) == Perform(Run(p, calls), call)
    decreases |calls|
  {
    if calls == [] {
      assert [call][1..] == [] && [] + [call] == [call];
      assert Run(Perform(p, call), []) == Perform(p, call);
    } else {
      assert (calls + [call])[1..] == calls[1..] + [call];
      RunThenOne(Perform(p, calls[0]), calls[1..], call);
    }
  }

  ghost predicate AllUse(calls: seq<Call>, g: Gates) {
    forall call <- calls :: Uses(call, g)
  }

  lemma OneMoreCall(calls: seq<Call>, call: Call, g: Gates) returns (more: seq<Call>)
    requires AllUse(calls, g) && Uses(call, g)
    ensures Run(EMPTY, more) == Perform(Run(EMPTY, calls), call) && AllUse(more, g)
  {
    more := calls + [call];
    RunThenOne(EMPTY, calls, call);
  }

  /** From an empty project some calls make version 1 current. */
  lemma FirstIsReachable(g: Gates) returns (calls: seq<Call>)
    requires Open(g)
    ensures FirstIsCurrent(Run(EMPTY, calls), g) && AllUse(calls, g)
  {
    var a := InitialCall(g);
    calls := OneMoreCall([], a, g);
    var b := ActivateCall(g);
    calls := OneMoreCall(calls, b, g);
  }

  lemma SecondIsPreparable(g: Gates) returns (calls: seq<Call>)
    requires Open(g)
    ensures SecondIsReady(Run(EMPTY, calls), g) && AllUse(calls, g)
  {
    calls := FirstIsReachable(g);
    var c := ReplaceCall(Run(EMPTY, calls), g);
    calls := OneMoreCall(calls, c, g);
  }

  /** From an empty project some calls make version 2 current, with version 1 archived. */
  lemma SecondIsReachable(g: Gates) returns (calls: seq<Call>)
    requires Open(g)
    ensures SecondIsCurrent(Run(EMPTY, calls)) && AllUse(calls, g)
  {
    calls := SecondIsPreparable(g);
    var d := SwitchCall(Run(EMPTY, calls), g);
    calls := OneMoreCall(calls, d, g);
  }
}
