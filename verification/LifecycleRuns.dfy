/** What every write of every operation keeps, over any run of calls and crashes. */
module LifecycleRuns {
  import opened Wrappers
  import opened Durability
  import opened Decisions
  import opened Lifecycle
  import Approval
  import Diffs
  import Leaves
  import RecordStore
  import Revision

  // ----- The invariant -----

  predicate ItemOk(p: Project, k: Key) {
    k in p.items ==> ItemBelongs(p.items[k], k)
  }

  /** The current pointer targets an active version with the contract, version and content it names. */
  predicate PointerOk(p: Project, c: string) {
    c in p.pointers ==> TargetError(p, c, p.pointers[c]).None? && p.pointers[c].key.version >= 1
  }

  /** A revision authority is what some verified revision between its two decisions, of one identity, demands. */
  ghost predicate Derived(authority: RevisionAuthority, r: Replacement) {
    && Revision.SameIdentity(authority.baseHash.decision, r.decision)
    && Revision.Verify(r.request, authority.baseHash.decision, r.decision, r.causal, r.requests).Success?
    && r.request.baseHash == authority.baseHash && authority == AuthorityFor(r)
  }

  ghost predicate AuthorityGood(authority: RevisionAuthority, k: Key) {
    authority.key == k && exists r :: Derived(authority, r)
  }

  ghost predicate AuthoritiesGood(authorities: map<Key, RevisionAuthority>) {
    forall k {:trigger AuthorityGood(authorities[k], k)} | k in authorities :: AuthorityGood(authorities[k], k)
  }

  predicate JournalOk(p: Project, k: Key) {
    k in p.switches ==>
      var journal := p.switches[k];
      && journal.newPointer.key == k && journal.oldPointer.key.contractId == k.contractId
      && journal.oldPointer.key.version + 1 == k.version
  }

  /** The approval record the pointer binds is about this very version and baseline. */
  predicate ApprovalFits(pointer: Pointer) {
    var a := pointer.approval.approval;
    && a.contractId == pointer.key.contractId && a.contractVersion == pointer.key.version
    && a.contractHash == pointer.contentHash && a.baseline.fingerprint == pointer.baseline
  }

  /** The pointer's approval record grants everything the revision authority of its version requires. */
  predicate Granted(authority: RevisionAuthority, pointer: Pointer) {
    && authority.contentHash == pointer.contentHash && authority.baseVersion + 1 == pointer.key.version
    && (forall item <- authority.required :: pointer.approval.approval.Approves(item))
    && ApprovalFits(pointer)
  }

  predicate RevisedOk(p: Project, c: string) {
    c in p.pointers && p.pointers[c].key.version >= 2 ==>
      var k := p.pointers[c].key;
      var base := Key(k.contractId, (k.version - 1) as nat);
      && k in p.authorities && Granted(p.authorities[k], p.pointers[c])
      && base in p.items && ContentHash(p.items[base].decision) == p.authorities[k].baseHash
  }

  ghost predicate Inv(p: Project) {
    && (forall k :: ItemOk(p, k)) && AuthoritiesGood(p.authorities) && (forall k :: JournalOk(p, k))
    && (forall c :: PointerOk(p, c)) && (forall c :: RevisedOk(p, c))
  }

  /** Pointers move only from nothing to version 1 or from one version to the next. */
  predicate PointerMove(p: Project, q: Project, c: string) {
    || (c !in p.pointers && c !in q.pointers)
    || (c in p.pointers && c in q.pointers && q.pointers[c] == p.pointers[c])
    || (c !in p.pointers && c in q.pointers && q.pointers[c].key == Key(c, 1))
    || (c in p.pointers && c in q.pointers && q.pointers[c].key == Key(c, p.pointers[c].key.version + 1))
  }

  /** Stored content and granted authorities never change. */
  ghost predicate Grows(p: Project, q: Project) {
    && (forall k <- p.items :: k in q.items && q.items[k].decision == p.items[k].decision)
    && (forall k <- p.authorities :: k in q.authorities && q.authorities[k] == p.authorities[k])
  }

  ghost predicate Moves(p: Project, q: Project) {
    Grows(p, q) && forall c :: PointerMove(p, q, c)
  }

  /** Nothing but journals and temporary files differs. */
  predicate SameContent(p: Project, q: Project) {
    q.items == p.items && q.pointers == p.pointers && q.authorities == p.authorities
  }

  lemma BookkeepingKeeps(p: Project, q: Project)
    requires Inv(p) && SameContent(p, q) && q.switches == p.switches
    ensures Inv(q) && Moves(p, q)
  {
    forall k ensures ItemOk(q, k) { assert ItemOk(p, k); }
    forall k ensures JournalOk(q, k) { assert JournalOk(p, k); }
    forall c ensures PointerOk(q, c) && RevisedOk(q, c) { assert PointerOk(p, c) && RevisedOk(p, c); }
  }

  lemma JournalKeeps(p: Project, k: Key, journal: SwitchJournal)
    requires Inv(p) && journal.newPointer.key == k && journal.oldPointer.key.contractId == k.contractId
    requires journal.oldPointer.key.version + 1 == k.version
    ensures Inv(Journaled(p, k, journal)) && Moves(p, Journaled(p, k, journal))
  {
    var q := Journaled(p, k, journal);
    forall j ensures ItemOk(q, j) { assert ItemOk(p, j); }
    forall j ensures JournalOk(q, j) { assert JournalOk(p, j); }
    forall c ensures PointerOk(q, c) && RevisedOk(q, c) { assert PointerOk(p, c) && RevisedOk(p, c); }
  }

  /** A stored item may change its status, as long as no pointer targets an item that stops being active. */
  lemma StatusKeeps(p: Project, k: Key, item: Item)
    requires Inv(p) && ItemBelongs(item, k) && (k in p.items ==> item.decision == p.items[k].decision)
    requires item.status.Active? || forall c :: c in p.pointers ==> p.pointers[c].key != k
    ensures Inv(WithStatus(p, k, item)) && Moves(p, WithStatus(p, k, item))
  {
    var q := WithStatus(p, k, item);
    forall j ensures ItemOk(q, j) { assert ItemOk(p, j); }
    forall j ensures JournalOk(q, j) { assert JournalOk(p, j); }
    forall c ensures PointerOk(q, c) && RevisedOk(q, c) { assert PointerOk(p, c) && RevisedOk(p, c); }
  }

  lemma PointerKeeps(p: Project, c: string, pointer: Pointer)
    requires Inv(p) && TargetError(p, c, pointer).None? && pointer.key.version >= 1
    requires pointer.key.version >= 2 ==>
               var k := pointer.key;
               var base := Key(k.contractId, (k.version - 1) as nat);
               && k in p.authorities && Granted(p.authorities[k], pointer)
               && base in p.items && ContentHash(p.items[base].decision) == p.authorities[k].baseHash
    requires if c in p.pointers then pointer == p.pointers[c] || pointer.key == Key(c, p.pointers[c].key.version + 1)
             else pointer.key == Key(c, 1)
    ensures Inv(WithPointer(p, c, pointer)) && Moves(p, WithPointer(p, c, pointer))
  {
    var q := WithPointer(p, c, pointer);
    forall j ensures ItemOk(q, j) { assert ItemOk(p, j); }
    forall j ensures JournalOk(q, j) { assert JournalOk(p, j); }
    forall d ensures PointerOk(q, d) && RevisedOk(q, d) { assert PointerOk(p, d) && RevisedOk(p, d); }
  }

  lemma AuthoritiesStayGood(authorities: map<Key, RevisionAuthority>, k: Key, authority: RevisionAuthority)
    requires AuthoritiesGood(authorities) && AuthorityGood(authority, k)
    ensures AuthoritiesGood(authorities[k := authority])
  {
    var after := authorities[k := authority];
    forall j | j in after
      ensures AuthorityGood(after[j], j)
    {
      if j != k {
        assert AuthorityGood(authorities[j], j);
      }
    }
  }

  lemma AuthorityKeeps(p: Project, k: Key, authority: RevisionAuthority)
    requires Inv(p) && k !in p.authorities && AuthoritiesGood(p.authorities[k := authority])
    ensures var q := p.(authorities := p.authorities[k := authority]);
            Inv(q) && Moves(p, q)
  {
    var q := p.(authorities := p.authorities[k := authority]);
    forall j ensures ItemOk(q, j) { assert ItemOk(p, j); }
    forall j ensures JournalOk(q, j) { assert JournalOk(p, j); }
    forall c ensures PointerOk(q, c) && RevisedOk(q, c) { assert PointerOk(p, c) && RevisedOk(p, c); }
  }

  // ----- Composing writes -----

  /** The pointers stay, everything else is still as it must be. */
  ghost predicate Keeps(p: Project, q: Project) {
    Inv(q) && Moves(p, q) && q.pointers == p.pointers
  }

  lemma StaysThenMoves(p: Project, mid: Project, q: Project)
    requires Moves(p, mid) && mid.pointers == p.pointers && Moves(mid, q)
    ensures Moves(p, q)
  {
    forall c ensures PointerMove(p, q, c) { assert PointerMove(mid, q, c); }
  }

  lemma MovesThenStays(p: Project, mid: Project, q: Project)
    requires Moves(p, mid) && Moves(mid, q) && q.pointers == mid.pointers
    ensures Moves(p, q)
  {
    forall c ensures PointerMove(p, q, c) { assert PointerMove(p, mid, c); }
  }

  lemma MovesReflexive(p: Project)
    ensures Moves(p, p)
  {
  }

  lemma TwoThen(p: Project, a: Project, b: Project, rest: seq<Project>, k: nat)
    ensures After(p, [a, b] + rest, k) == if k == 0 then p else if k == 1 then a else After(b, rest, k - 2)
  {
    AfterConcat(p, [a, b], rest, k);
  }

  lemma KeepsTransitive(p: Project, mid: Project, q: Project)
    requires Keeps(p, mid) && Keeps(mid, q)
    ensures Keeps(p, q)
  {
    StaysThenMoves(p, mid, q);
  }

  lemma TwoKeep(p: Project, a: Project, b: Project, rest: seq<Project>, n: nat)
    requires Inv(p) && Keeps(p, a) && Keeps(p, b)
    ensures n < 2 ==> Keeps(p, After(p, [a, b] + rest, n))
    ensures n >= 2 ==> After(p, [a, b] + rest, n) == After(b, rest, n - 2)
  {
    MovesReflexive(p);
    TwoThen(p, a, b, rest, n);
  }

  lemma OneThen(p: Project, a: Project, rest: seq<Project>, k: nat)
    ensures After(p, [a] + rest, k) == if k == 0 then p else After(a, rest, k - 1)
  {
    AfterConcat(p, [a], rest, k);
  }

  // ----- The switch -----

  /** The journal is about this switch, and its new pointer was granted by the revision authority. */
  ghost predicate Granting(p: Project, s: Switch, journal: SwitchJournal) {
    var k := s.activation.key;
    && journal.newPointer.key == k && journal.oldPointer == s.expected
    && s.expected.key.contractId == k.contractId && s.expected.key.version + 1 == k.version
    && 1 <= s.expected.key.version
    && k in p.authorities && Granted(p.authorities[k], journal.newPointer)
    && p.authorities[k].baseHash == s.expected.contentHash
  }

  lemma CommitKeeps(p: Project, s: Switch, journal: SwitchJournal, n: nat)
    requires Inv(p) && Granting(p, s, journal)
    ensures Keeps(p, After(p, Commit(p, s, journal).steps, n))
  {
    MovesReflexive(p);
    JournalKeeps(p, s.activation.key, journal.(stage := Committed));
  }

  /** The two writes that archive the old version. */
  lemma ArchivedKeeps(p: Project, s: Switch, journal: SwitchJournal)
    requires Inv(p) && Granting(p, s, journal) && s.expected.key in p.items
    requires ReadPointer(p, s.activation.key.contractId) == Success(Some(journal.newPointer))
    ensures var k, base := s.activation.key, s.expected.key;
            var archived := WithStatus(p, base, p.items[base].(status := Archived));
            var recorded := Journaled(archived, k, journal.(stage := OldArchived));
            && Inv(archived) && Moves(p, archived) && Inv(recorded) && Moves(p, recorded)
            && Granting(recorded, s, journal.(stage := OldArchived))
  {
    var k, base := s.activation.key, s.expected.key;
    var archived := WithStatus(p, base, p.items[base].(status := Archived));
    forall c | c in p.pointers
      ensures p.pointers[c].key != base
    {
      assert PointerOk(p, c);
    }
    assert ItemOk(p, base);
    StatusKeeps(p, base, p.items[base].(status := Archived));
    JournalKeeps(archived, k, journal.(stage := OldArchived));
    StaysThenMoves(p, archived, Journaled(archived, k, journal.(stage := OldArchived)));
  }

  lemma ArchivedThenCommitKeeps(p: Project, s: Switch, journal: SwitchJournal, n: nat)
    requires Inv(p) && Granting(p, s, journal) && s.expected.key in p.items
    requires ReadPointer(p, s.activation.key.contractId) == Success(Some(journal.newPointer))
    ensures var archived := WithStatus(p, s.expected.key, p.items[s.expected.key].(status := Archived));
            var next := journal.(stage := OldArchived);
            var recorded := Journaled(archived, s.activation.key, next);
            Keeps(p, After(p, [archived, recorded] + Commit(recorded, s, next).steps, n))
  {
    var archived := WithStatus(p, s.expected.key, p.items[s.expected.key].(status := Archived));
    var next := journal.(stage := OldArchived);
    var recorded := Journaled(archived, s.activation.key, next);
    ArchivedKeeps(p, s, journal);
    TwoKeep(p, archived, recorded, Commit(recorded, s, next).steps, n);
    if n >= 2 {
      CommitKeeps(recorded, s, next, n - 2);
      KeepsTransitive(p, recorded, After(recorded, Commit(recorded, s, next).steps, n - 2));
    }
  }

  lemma ArchiveKeeps(p: Project, s: Switch, journal: SwitchJournal, n: nat)
    requires Inv(p) && Granting(p, s, journal)
    ensures Keeps(p, After(p, ArchiveOld(p, s, journal).steps, n))
  {
    var k, newKey, base := s.activation.key, journal.newPointer.key, s.expected.key;
    MovesReflexive(p);
    if && newKey in p.items && base in p.items && p.items[newKey].status.Active?
       && ReadPointer(p, k.contractId) == Success(Some(journal.newPointer)) {
      if p.items[base].status.Active? {
        ArchivedThenCommitKeeps(p, s, journal, n);
      } else if p.items[base].status.Archived? {
        CommitKeeps(p, s, journal, n);
      }
    }
  }

  lemma MoveKeeps(p: Project, s: Switch, journal: SwitchJournal, n: nat)
    requires Inv(p) && Granting(p, s, journal)
    ensures var q := After(p, MovePointer(p, s, journal).steps, n); Inv(q) && Moves(p, q)
  {
    var k := s.activation.key;
    var c := k.contractId;
    MovesReflexive(p);
    var current := ReadPointer(p, c);
    if current == Success(Some(s.expected)) {
      if TargetError(p, c, journal.newPointer).None? {
        var moved := WithPointer(p, c, journal.newPointer);
        var next := journal.(stage := PointerSwitched);
        var recorded := Journaled(moved, k, next);
        assert s.expected.key == Key(c, (k.version - 1) as nat);
        PointerKeeps(p, c, journal.newPointer);
        JournalKeeps(moved, k, next);
        ArchiveKeeps(recorded, s, next, if n < 2 then 0 else n - 2);
        TwoThen(p, moved, recorded, ArchiveOld(recorded, s, next).steps, n);
        if n >= 2 {
          MovesThenStays(p, moved, recorded);
          MovesThenStays(p, recorded, After(p, MovePointer(p, s, journal).steps, n));
        }
      }
    } else if current == Success(Some(journal.newPointer)) {
      ArchiveKeeps(p, s, journal, n);
    }
  }

  lemma AdvanceKeeps(p: Project, s: Switch, journal: SwitchJournal, n: nat)
    requires Inv(p) && Granting(p, s, journal)
    ensures var q := After(p, Advance(p, s, journal).steps, n); Inv(q) && Moves(p, q)
  {
    var k := s.activation.key;
    MovesReflexive(p);
    if k in p.items && s.expected.key in p.items {
      if p.items[k].status.Candidate? {
        var item := Activated(p.items[k], s.activation.actor);
        var active := WithStatus(p, k, item);
        var next := journal.(stage := NewActive);
        var recorded := Journaled(active, k, next);
        assert ItemOk(p, k);
        StatusKeeps(p, k, item);
        JournalKeeps(active, k, next);
        MoveKeeps(recorded, s, next, if n < 2 then 0 else n - 2);
        TwoThen(p, active, recorded, MovePointer(recorded, s, next).steps, n);
        if n >= 2 {
          StaysThenMoves(p, active, recorded);
          StaysThenMoves(p, recorded, After(p, Advance(p, s, journal).steps, n));
        }
      } else if p.items[k].status.Active? {
        MoveKeeps(p, s, journal, n);
      }
    }
  }

  /** The exact records found for a contract version are about that version and baseline. */
  lemma FoundRecordsFit(d: RecordStore.Disk, names: seq<RecordStore.RecordId>, q: RecordStore.Query)
    requires RecordStore.FindExact(d, names, q).Success? && RecordStore.FindExact(d, names, q).value.Some?
    ensures var a := RecordStore.FindExact(d, names, q).value.value.approval;
            && a.contractId == q.contractId && a.contractVersion == q.contractVersion
            && a.contractHash == q.contractHash && a.baseline.fingerprint == q.baseline
  {
    var approvalId := RecordStore.ApprovalId(q.contractId, q.contractVersion, q.contractHash, q.baseline);
    assert RecordStore.LoadIfPresent(d, approvalId).Success?;
    assert RecordStore.RecordBelongs(d, approvalId);
  }

  lemma PreparedIsGranted(p: Project, a: Activation, required: seq<Approval.Item>)
    requires PreparePointer(p, a, required).Success?
    ensures var next := PreparePointer(p, a, required).value;
            && next.key == a.key && next.contentHash == a.contentHash && ApprovalFits(next)
            && (forall item <- required :: next.approval.approval.Approves(item))
            && StoredDecisionError(p, a).None?
  {
    FoundRecordsFit(a.sources.records, a.sources.names,
                    RecordStore.Query(a.key.contractId, a.key.version, a.contentHash, a.baseline, a.ruleset));
  }

  lemma FirstThenKeeps(p: Project, first: Project, rest: seq<Project>, n: nat)
    requires Inv(p) && Keeps(p, first)
    requires n > 0 ==> var q := After(first, rest, n - 1); Inv(q) && Moves(first, q)
    ensures var q := After(p, [first] + rest, n); Inv(q) && Moves(p, q)
  {
    MovesReflexive(p);
    OneThen(p, first, rest, n);
    if n > 0 {
      StaysThenMoves(p, first, After(first, rest, n - 1));
    }
  }

  lemma JournalThenAdvanceKeeps(p: Project, s: Switch, journal: SwitchJournal, n: nat)
    requires Inv(p) && Granting(p, s, journal)
    ensures var announced := Journaled(p, s.activation.key, journal);
            var q := After(p, [announced] + Advance(announced, s, journal).steps, n);
            Inv(q) && Moves(p, q)
  {
    var announced := Journaled(p, s.activation.key, journal);
    JournalKeeps(p, s.activation.key, journal);
    if n > 0 {
      AdvanceKeeps(announced, s, journal, n - 1);
    }
    FirstThenKeeps(p, announced, Advance(announced, s, journal).steps, n);
  }

  /** The journal that a first call writes. */
  ghost function BeginJournal(p: Project, s: Switch): SwitchJournal
    requires s.activation.key in p.authorities
    requires PreparePointer(p, s.activation, p.authorities[s.activation.key].required).Success?
  {
    SwitchJournal(Prepared, s.activation.actor, s.expected,
                  PreparePointer(p, s.activation, p.authorities[s.activation.key].required).value)
  }

  lemma BeginGrants(p: Project, s: Switch)
    requires AuthorityError(p, s).None? && s.activation.key.version == s.expected.key.version + 1
    requires Inv(p) && ReadPointer(p, s.activation.key.contractId) == Success(Some(s.expected))
    requires PreparePointer(p, s.activation, p.authorities[s.activation.key].required).Success?
    ensures Granting(p, s, BeginJournal(p, s))
  {
    PreparedIsGranted(p, s.activation, p.authorities[s.activation.key].required);
    assert PointerOk(p, s.activation.key.contractId);
  }

  lemma BeginKeeps(p: Project, s: Switch, n: nat)
    requires Inv(p) && AuthorityError(p, s).None? && s.activation.key !in p.switches
    requires ReadPointer(p, s.activation.key.contractId) == Success(Some(s.expected))
    requires PreparePointer(p, s.activation, p.authorities[s.activation.key].required).Success?
    ensures var q := After(p, BeginSwitch(p, s, Some(s.expected)).steps, n); Inv(q) && Moves(p, q)
  {
    if s.activation.key.version == s.expected.key.version + 1 {
      BeginGrants(p, s);
      JournalThenAdvanceKeeps(p, s, BeginJournal(p, s), n);
    }
    MovesReflexive(p);
  }

  lemma ContinueKeeps(p: Project, s: Switch, n: nat)
    requires Inv(p) && AuthorityError(p, s).None? && s.activation.key in p.switches
    ensures var q := After(p, ContinueSwitch(p, s, p.switches[s.activation.key]).steps, n); Inv(q) && Moves(p, q)
  {
    var a, k := s.activation, s.activation.key;
    MovesReflexive(p);
    var prepared := PreparePointer(p, a, p.authorities[k].required);
    if p.switches[k].oldPointer == s.expected && prepared == Success(p.switches[k].newPointer) {
      PreparedIsGranted(p, a, p.authorities[k].required);
      assert JournalOk(p, k);
      AdvanceKeeps(p, s, p.switches[k], n);
    }
  }

  lemma SwitchKeeps(p: Project, s: Switch, n: nat)
    requires Inv(p)
    ensures var q := After(p, SwitchReplacement(p, s).steps, n); Inv(q) && Moves(p, q)
  {
    MovesReflexive(p);
    var current := ReadPointer(p, s.activation.key.contractId);
    if AuthorityError(p, s).None? && current.Success? {
      if s.activation.key in p.switches {
        ContinueKeeps(p, s, n);
      } else if current.value == Some(s.expected)
                && PreparePointer(p, s.activation, p.authorities[s.activation.key].required).Success? {
        BeginKeeps(p, s, n);
      }
    }
  }

  // ----- The other operations -----

  lemma CreateInitialKeeps(p: Project, decision: NarrativeDecision, evidence: seq<string>, n: nat)
    requires Inv(p)
    ensures var q := After(p, CreateInitial(p, decision, evidence).steps, n); Inv(q) && Moves(p, q)
  {
    var k := Key(decision.contractId, decision.contractVersion);
    MovesReflexive(p);
    if k !in p.items {
      forall c | c in p.pointers
        ensures p.pointers[c].key != k
      {
        assert PointerOk(p, c);
      }
      StatusKeeps(p, k, Item(decision, evidence, Candidate, None));
    }
  }

  lemma PlacePointerKeeps(p: Project, c: string, pointer: Pointer, n: nat)
    requires Inv(p) && pointer.key == Key(c, 1) && (c in p.pointers ==> p.pointers[c] == pointer)
    ensures var q := After(p, PlacePointer(p, c, pointer).steps, n); Inv(q) && Moves(p, q)
  {
    MovesReflexive(p);
    if TargetError(p, c, pointer).None? {
      PointerKeeps(p, c, pointer);
    }
  }

  lemma PlaceInitialKeeps(p: Project, a: Activation, pointer: Pointer, n: nat)
    requires Inv(p) && a.key in p.items && a.key.version == 1 && pointer.key == a.key
    requires var c := a.key.contractId; c in p.pointers ==> p.pointers[c] == pointer
    ensures var q := After(p, PlaceInitial(p, a, pointer).steps, n); Inv(q) && Moves(p, q)
  {
    var c, item := a.key.contractId, p.items[a.key];
    MovesReflexive(p);
    if item.status.Candidate? {
      var active := WithStatus(p, a.key, Activated(item, a.actor));
      assert ItemOk(p, a.key);
      StatusKeeps(p, a.key, Activated(item, a.actor));
      PlacePointerKeeps(active, c, pointer, if n == 0 then 0 else n - 1);
      OneThen(p, active, PlacePointer(active, c, pointer).steps, n);
      if n > 0 {
        StaysThenMoves(p, active, After(active, PlacePointer(active, c, pointer).steps, n - 1));
      }
    } else {
      PlacePointerKeeps(p, c, pointer, n);
    }
  }

  lemma ActivateInitialKeeps(p: Project, a: Activation, n: nat)
    requires Inv(p)
    ensures var q := After(p, ActivateInitial(p, a).steps, n); Inv(q) && Moves(p, q)
  {
    MovesReflexive(p);
    if a.key.version == 1 && PreparePointer(p, a, []).Success? {
      PreparedIsGranted(p, a, []);
      var pointer := PreparePointer(p, a, []).value;
      if ReadPointer(p, a.key.contractId) in {Success(None), Success(Some(pointer))} {
        PlaceInitialKeeps(p, a, pointer, n);
      }
    }
  }

  // ----- The replacement candidate -----

  lemma KeepsThen(p: Project, first: seq<Project>, rest: seq<Project>, n: nat)
    requires forall i: nat :: Keeps(p, After(p, first, i))
    requires forall i: nat :: Keeps(End(p, first), After(End(p, first), rest, i))
    ensures Keeps(p, After(p, first + rest, n))
  {
    AfterConcat(p, first, rest, n);
    assert Keeps(p, After(p, first, |first|));
    if n > |first| {
      var q := After(End(p, first), rest, n - |first|);
      assert Keeps(End(p, first), q);
      StaysThenMoves(p, End(p, first), q);
    } else {
      assert Keeps(p, After(p, first, n));
    }
  }

  lemma PrepareKeeps(p: Project, k: Key, journal: PrepareJournal, n: nat)
    requires Inv(p)
    ensures Keeps(p, After(p, WritePrepare(p, k, journal).steps, n))
  {
    MovesReflexive(p);
    BookkeepingKeeps(p, WithPrepare(p, k, journal));
  }

  lemma CommitCandidateKeeps(p: Project, r: Replacement, n: nat)
    requires Inv(p) && KeyOf(r) in p.items
    ensures Keeps(p, After(p, CommitCandidate(p, r).steps, n))
  {
    MovesReflexive(p);
    PrepareKeeps(p, KeyOf(r), PrepareAt(r, PrepareCommitted), n);
  }

  lemma StoreCandidateKeeps(p: Project, r: Replacement, n: nat)
    requires Inv(p)
    ensures Keeps(p, After(p, StoreCandidate(p, r).steps, n))
  {
    var k := KeyOf(r);
    MovesReflexive(p);
    if k !in p.items {
      forall c | c in p.pointers
        ensures p.pointers[c].key != k
      {
        assert PointerOk(p, c);
      }
      StatusKeeps(p, k, CandidateFor(r));
      var stored := WithStatus(p, k, CandidateFor(r));
      forall i: nat ensures Keeps(stored, After(stored, CommitCandidate(stored, r).steps, i)) {
        CommitCandidateKeeps(stored, r, i);
      }
      KeepsThen(p, [stored], CommitCandidate(stored, r).steps, n);
    } else if p.items[k] == CandidateFor(r) {
      CommitCandidateKeeps(p, r, n);
    }
  }

  lemma RecordAuthorityKeeps(p: Project, r: Replacement, n: nat)
    requires Inv(p)
    ensures Keeps(p, After(p, RecordAuthority(p, r).steps, n))
  {
    MovesReflexive(p);
    var recorded := WritePrepare(p, KeyOf(r), PrepareAt(r, AuthorityWritten));
    if recorded.answer.Success? {
      var mid := End(p, recorded.steps);
      forall i: nat ensures Keeps(p, After(p, recorded.steps, i)) {
        PrepareKeeps(p, KeyOf(r), PrepareAt(r, AuthorityWritten), i);
      }
      assert Keeps(p, After(p, recorded.steps, |recorded.steps|));
      forall i: nat ensures Keeps(mid, After(mid, StoreCandidate(mid, r).steps, i)) {
        StoreCandidateKeeps(mid, r, i);
      }
      KeepsThen(p, recorded.steps, StoreCandidate(mid, r).steps, n);
    }
  }

  lemma WriteAuthorityKeeps(p: Project, r: Replacement, n: nat)
    requires Inv(p) && AuthoritiesGood(p.authorities[KeyOf(r) := AuthorityFor(r)])
    ensures Keeps(p, After(p, WriteAuthority(p, AuthorityFor(r)).steps, n))
  {
    MovesReflexive(p);
    if KeyOf(r) !in p.authorities && KeyOf(r) !in p.staged {
      BookkeepingKeeps(p, p.(staged := p.staged + {KeyOf(r)}));
      AuthorityKeeps(p, KeyOf(r), AuthorityFor(r));
    }
  }

  lemma StoreAuthorityKeeps(p: Project, r: Replacement, n: nat)
    requires Inv(p) && AuthoritiesGood(p.authorities[KeyOf(r) := AuthorityFor(r)])
    ensures Keeps(p, After(p, StoreAuthority(p, r).steps, n))
  {
    MovesReflexive(p);
    var written := WriteAuthority(p, AuthorityFor(r));
    if written.answer.Success? {
      var mid := End(p, written.steps);
      forall i: nat ensures Keeps(p, After(p, written.steps, i)) {
        WriteAuthorityKeeps(p, r, i);
      }
      assert Keeps(p, After(p, written.steps, |written.steps|));
      forall i: nat ensures Keeps(mid, After(mid, RecordAuthority(mid, r).steps, i)) {
        RecordAuthorityKeeps(mid, r, i);
      }
      KeepsThen(p, written.steps, RecordAuthority(mid, r).steps, n);
    }
  }

  lemma PrepareCandidateKeeps(p: Project, r: Replacement, n: nat)
    requires Inv(p) && AuthoritiesGood(p.authorities[KeyOf(r) := AuthorityFor(r)])
    ensures Keeps(p, After(p, PrepareCandidate(p, r).steps, n))
  {
    MovesReflexive(p);
    var prepared := WritePrepare(p, KeyOf(r), PrepareAt(r, PreparePrepared));
    if prepared.answer.Success? {
      var mid := End(p, prepared.steps);
      forall i: nat ensures Keeps(p, After(p, prepared.steps, i)) {
        PrepareKeeps(p, KeyOf(r), PrepareAt(r, PreparePrepared), i);
      }
      assert Keeps(p, After(p, prepared.steps, |prepared.steps|));
      forall i: nat ensures Keeps(mid, After(mid, StoreAuthority(mid, r).steps, i)) {
        StoreAuthorityKeeps(mid, r, i);
      }
      KeepsThen(p, prepared.steps, StoreAuthority(mid, r).steps, n);
    }
  }

  lemma VerifiedIsDerived(p: Project, r: Replacement, base: Key)
    requires base in p.items && ItemOk(p, base) && base.contractId == KeyOf(r).contractId
    requires Revision.Verify(r.request, p.items[base].decision, r.decision, r.causal, r.requests).Success?
    ensures AuthorityGood(AuthorityFor(r), KeyOf(r))
  {
    Revision.ContractIdFixesIdentity(p.items[base].decision, r.decision);
    assert Derived(AuthorityFor(r), r);
  }

  /** Either a gate refuses before anything is written, or the revision is verified and its files are written. */
  lemma CreateReplacementCases(p: Project, r: Replacement)
    requires Inv(p)
    ensures || CreateReplacement(p, r).steps == []
            || (CreateReplacement(p, r).steps == PrepareCandidate(p, r).steps
                && AuthorityGood(AuthorityFor(r), KeyOf(r)))
  {
    var current := ReadPointer(p, KeyOf(r).contractId);
    if current.Success? && current.value.Some? {
      var base := current.value.value.key;
      if Revision.Verify(r.request, p.items[base].decision, r.decision, r.causal, r.requests).Success? {
        assert ItemOk(p, base);
        VerifiedIsDerived(p, r, base);
      }
    }
  }

  lemma WritesKeep(p: Project, r: Replacement, steps: seq<Project>, n: nat)
    requires Inv(p)
    requires steps == [] || (steps == PrepareCandidate(p, r).steps
                             && AuthoritiesGood(p.authorities[KeyOf(r) := AuthorityFor(r)]))
    ensures Keeps(p, After(p, steps, n))
  {
    MovesReflexive(p);
    if steps != [] {
      PrepareCandidateKeeps(p, r, n);
    }
  }

  /** Creating a candidate changes neither the pointer nor any version that is already there. */
  lemma CreateReplacementKeeps(p: Project, r: Replacement, n: nat)
    requires Inv(p)
    ensures Keeps(p, After(p, CreateReplacement(p, r).steps, n))
  {
    CreateReplacementCases(p, r);
    var steps := CreateReplacement(p, r).steps;
    if steps != [] {
      AuthoritiesStayGood(p.authorities, KeyOf(r), AuthorityFor(r));
    }
    WritesKeep(p, r, steps, n);
  }

  // ----- Whole runs -----

  /** A call of the coordinator; fresh or repeated, each dies after `crashAfter` writes if it has that many. */
  datatype Call =
    | Initial(decision: NarrativeDecision, evidence: seq<string>, crashAfter: nat)
    | Activate(activation: Activation, crashAfter: nat)
    | Replace(replacement: Replacement, crashAfter: nat)
    | SwitchTo(switch: Switch, crashAfter: nat)

  ghost function Perform(p: Project, call: Call): Project {
    match call
    case Initial(decision, evidence, n) => After(p, CreateInitial(p, decision, evidence).steps, n)
    case Activate(a, n) => After(p, ActivateInitial(p, a).steps, n)
    case Replace(r, n) => After(p, CreateReplacement(p, r).steps, n)
    case SwitchTo(s, n) => After(p, SwitchReplacement(p, s).steps, n)
  }

  ghost function Run(p: Project, calls: seq<Call>): Project
    decreases |calls|
  {
    if calls == [] then p else Run(Perform(p, calls[0]), calls[1..])
  }

  lemma CallKeeps(p: Project, call: Call)
    requires Inv(p)
    ensures Inv(Perform(p, call)) && Moves(p, Perform(p, call))
  {
    match call
    case Initial(decision, evidence, n) => CreateInitialKeeps(p, decision, evidence, n);
    case Activate(a, n) => ActivateInitialKeeps(p, a, n);
    case Replace(r, n) => CreateReplacementKeeps(p, r, n);
    case SwitchTo(s, n) => SwitchKeeps(p, s, n);
  }

  /** From an empty project, whatever is called and wherever it crashes, every call keeps the invariant. */
  lemma {:induction false} RunsKeepInv(p: Project, calls: seq<Call>)
    requires Inv(p)
    ensures Inv(Run(p, calls))
    ensures forall c :: c in p.pointers ==>
              c in Run(p, calls).pointers && p.pointers[c].key.version <= Run(p, calls).pointers[c].key.version
    decreases |calls|
  {
    if calls != [] {
      var next := Perform(p, calls[0]);
      CallKeeps(p, calls[0]);
      RunsKeepInv(next, calls[1..]);
      forall c | c in p.pointers
        ensures c in Run(p, calls).pointers && p.pointers[c].key.version <= Run(p, calls).pointers[c].key.version
      {
        assert PointerMove(p, next, c);
      }
    }
  }

  lemma EmptyKeepsInv()
    ensures Inv(EMPTY)
  {
  }

  /** In every reachable project the current pointer reads back, so `read_pointer` never fails. */
  lemma PointerAlwaysReads(calls: seq<Call>, c: string)
    ensures ReadPointer(Run(EMPTY, calls), c).Success?
  {
    EmptyKeepsInv();
    RunsKeepInv(EMPTY, calls);
    assert PointerOk(Run(EMPTY, calls), c);
  }

  // ----- Approvals -----

  /** The leaf differs between the version before `k` and `k` itself. */
  ghost predicate Changed(p: Project, k: Key, path: string)
    requires k.version >= 1
  {
    var base := Key(k.contractId, (k.version - 1) as nat);
    && base in p.items && k in p.items
    && Diffs.Differs(path, Leaves.LeavesOf(p.items[base].decision), Leaves.LeavesOf(p.items[k].decision))
  }

  /** An authority requires the full contract, the revision, and every item covering a path of its revision. */
  lemma AuthorityRequires(authority: RevisionAuthority, r: Replacement)
    requires Derived(authority, r)
    ensures Approval.FullContract in authority.required && Approval.PostFreezeRevision in authority.required
    ensures forall path <- r.request.causal, item | Approval.Covers(item, path) :: item in authority.required
    ensures r.request.causal == r.causal == authority.binding.causal
  {
    var paths := Diffs.PathsOf(r.request.changes) + r.request.causal;
    Approval.OrderedMembers(Approval.RevisionItems(paths));
    Approval.RevisionItemsMembers(paths);
    forall path, item | path in r.request.causal && Approval.Covers(item, path)
      ensures item in authority.required
    {
      assert path in paths;
      assert Approval.Touched(item, paths);
    }
  }

  lemma AuthorityRequiresChanges(authority: RevisionAuthority, r: Replacement, path: string, item: Approval.Item)
    requires Derived(authority, r) && Approval.Covers(item, path)
    requires Diffs.Differs(path, Leaves.LeavesOf(authority.baseHash.decision), Leaves.LeavesOf(r.decision))
    ensures item in authority.required
  {
    AuthorityRequires(authority, r);
    Revision.VerifiedHidesNothing(r.request, authority.baseHash.decision, r.decision, r.causal, r.requests);
  }

  ghost predicate AuthorityGoodFor(p: Project, c: string) {
    c in p.pointers && p.pointers[c].key in p.authorities ==>
      AuthorityGood(p.authorities[p.pointers[c].key], p.pointers[c].key)
  }

  /** Every item that covers a leaf changed from the version before is approved. */
  lemma ChangeIsApproved(p: Project, c: string, path: string, item: Approval.Item)
    requires c in p.pointers && p.pointers[c].key.version >= 2
    requires PointerOk(p, c) && RevisedOk(p, c) && AuthorityGoodFor(p, c)
    requires Changed(p, p.pointers[c].key, path) && Approval.Covers(item, path)
    ensures p.pointers[c].approval.approval.Approves(item)
  {
    var k := p.pointers[c].key;
    var authority := p.authorities[k];
    var r :| Derived(authority, r);
    assert r.decision == p.items[k].decision;
    AuthorityRequiresChanges(authority, r, path, item);
  }

  /** Every item that covers a declared causal impact is approved, and so are the two standing ones. */
  lemma ImpactIsApproved(p: Project, c: string)
    requires c in p.pointers && p.pointers[c].key.version >= 2
    requires RevisedOk(p, c) && AuthorityGoodFor(p, c)
    ensures p.pointers[c].key in p.authorities
    ensures var a := p.pointers[c].approval.approval;
            && a.Approves(Approval.FullContract) && a.Approves(Approval.PostFreezeRevision)
            && (forall path <- p.authorities[p.pointers[c].key].binding.causal, item | Approval.Covers(item, path) ::
                  a.Approves(item))
  {
    var authority := p.authorities[p.pointers[c].key];
    var r :| Derived(authority, r);
    AuthorityRequires(authority, r);
  }

  /**
   Whenever version 2 or later of a contract is current, the approval record its pointer binds is about
   that very version and grants the full contract, the revision itself, and every item that covers a leaf
   changed from the version before or a path that the revision declares as causally affected.
   */
  lemma CurrentRevisionIsApproved(p: Project, c: string)
    requires Inv(p) && c in p.pointers && p.pointers[c].key.version >= 2
    ensures var pointer := p.pointers[c];
            var a := pointer.approval.approval;
            && ApprovalFits(pointer) && pointer.key in p.authorities
            && a.Approves(Approval.FullContract) && a.Approves(Approval.PostFreezeRevision)
            && (forall path, item | Changed(p, pointer.key, path) && Approval.Covers(item, path) :: a.Approves(item))
            && (forall path <- p.authorities[pointer.key].binding.causal, item | Approval.Covers(item, path) ::
                  a.Approves(item))
  {
    assert RevisedOk(p, c) && PointerOk(p, c) && AuthorityGoodFor(p, c);
    ImpactIsApproved(p, c);
    forall path, item | Changed(p, p.pointers[c].key, path) && Approval.Covers(item, path)
      ensures p.pointers[c].approval.approval.Approves(item)
    {
      ChangeIsApproved(p, c, path, item);
    }
  }
}
