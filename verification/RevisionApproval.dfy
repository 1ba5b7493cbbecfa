/** What the humans approved of the current version of a contract, read off the fields of the approval record. */
module RevisionApproval {
  import opened Paths
  import opened Decisions
  import opened Leaves
  import opened TreeReading
  import opened ContentPaths
  import opened Lifecycle
  import opened LifecycleRuns
  import Approval
  import Baseline
  import Diffs
  import Revision
  import RevisionContent

  // ----- The watched fields are content -----

  lemma ArrayNames()
    ensures IsIdentifier("hook_refs") && IsIdentifier("new_fact_candidates") && IsIdentifier("fact_boundary_refs")
  {
  }

  lemma RequestNames()
    ensures IsIdentifier("change_requests")
  {
  }

  lemma ArraysAreContent(steps: seq<Step>)
    ensures [Attr("hook_refs")] <= steps || [Attr("new_fact_candidates")] <= steps ==> !IsBookkeeping(steps)
    ensures [Attr("fact_boundary_refs")] <= steps || [Attr("change_requests")] <= steps ==> !IsBookkeeping(steps)
  {
    ArrayNames();
    RequestNames();
    RevisionContent.PlainTop("hook_refs");
    RevisionContent.PlainTop("new_fact_candidates");
    RevisionContent.PlainTop("fact_boundary_refs");
    RevisionContent.PlainTop("change_requests");
  }

  lemma MajorPositions()
    ensures var tops, parts := RevisionContent.MAJOR_TOPS, RevisionContent.MAJOR_PARTS;
            && "arc_phase" in tops && "arc_goal" in tops
            && "protagonist_choice" in parts && "reader_change" in parts && "information" in parts
            && "pressure_curve" in parts && "foreshadow_actions" in parts && "ending_shift" in parts
            && "forbidden" in parts
  {
    var tops, parts := RevisionContent.MAJOR_TOPS, RevisionContent.MAJOR_PARTS;
    assert tops[0] == "arc_phase" && tops[1] == "arc_goal";
    assert parts[2] == "protagonist_choice" && parts[3] == "reader_change" && parts[4] == "information";
    assert parts[5] == "pressure_curve" && parts[6] == "foreshadow_actions" && parts[7] == "ending_shift";
    assert parts[8] == "forbidden";
  }

  lemma MajorAmong(steps: seq<Step>, name: string)
    ensures name in RevisionContent.MAJOR_TOPS && [Attr(name)] <= steps ==> RevisionContent.IsMajor(steps)
    ensures name in RevisionContent.MAJOR_PARTS && Approval.InChapter(name) <= steps ==> RevisionContent.IsMajor(steps)
  {
    assert Approval.InChapter(name) == RevisionContent.InChapter(name);
  }

  /** The fields of the plan that are watched are major ones. */
  lemma WatchedMajor(item: Approval.Item, steps: seq<Step>)
    requires Approval.Watches(item, steps)
    ensures || RevisionContent.IsMajor(steps) || [Attr("hook_refs")] <= steps || [Attr("new_fact_candidates")] <= steps
            || [Attr("fact_boundary_refs")] <= steps || [Attr("change_requests")] <= steps
  {
    MajorPositions();
    forall name
      ensures name in RevisionContent.MAJOR_TOPS && [Attr(name)] <= steps ==> RevisionContent.IsMajor(steps)
      ensures name in RevisionContent.MAJOR_PARTS && Approval.InChapter(name) <= steps ==>
                RevisionContent.IsMajor(steps)
    {
      MajorAmong(steps, name);
    }
  }

  /** No watched field is bookkeeping, so flattening lists whatever a decision has there. */
  lemma WatchedIsContent(item: Approval.Item, steps: seq<Step>)
    requires Proper(steps) && Approval.Watches(item, steps)
    ensures !IsBookkeeping(steps)
  {
    WatchedMajor(item, steps);
    ArraysAreContent(steps);
    if RevisionContent.IsMajor(steps) {
      RevisionContent.MajorIsContent(steps);
    }
  }

  // ----- What an authority requires -----

  /** The two decisions differ at the place, or the revision declares it as causally affected. */
  ghost predicate Concerned(authority: RevisionAuthority, steps: seq<Step>) {
    || Altered(authority.baseHash.decision, authority.contentHash.decision, steps)
    || PathText("", steps) in authority.binding.causal
  }

  lemma ConcernedIsDeclared(authority: RevisionAuthority, r: Replacement, item: Approval.Item, steps: seq<Step>)
    requires Derived(authority, r) && Proper(steps) && Approval.Watches(item, steps) && Concerned(authority, steps)
    requires WellNamed(authority.baseHash.decision.tree) && WellNamed(r.decision.tree)
    ensures PathText("", steps) in r.request.causal
  {
    WatchedIsContent(item, steps);
    AuthorityRequires(authority, r);
    if Altered(authority.baseHash.decision, authority.contentHash.decision, steps) {
      RevisionContent.AlteredPlacesAreAnsweredFor(r.request, authority.baseHash.decision, r.decision, r.causal,
                                                  r.requests, steps);
    }
  }

  /** An item is required for every concerned place that it watches. */
  lemma ConcernedIsRequired(authority: RevisionAuthority, r: Replacement, item: Approval.Item, steps: seq<Step>)
    requires Derived(authority, r) && Proper(steps) && Approval.Watches(item, steps) && Concerned(authority, steps)
    requires WellNamed(authority.baseHash.decision.tree) && WellNamed(r.decision.tree)
    ensures item in authority.required
  {
    ConcernedIsDeclared(authority, r, item, steps);
    AuthorityRequires(authority, r);
    Approval.CoversIffWatches(item, steps);
  }

  /** No other item is required: some declared path starts at one of its fields. */
  lemma RequiredIsConcerned(authority: RevisionAuthority, r: Replacement, item: Approval.Item)
    requires Derived(authority, r) && item in authority.required
    ensures || item == Approval.FullContract || item == Approval.PostFreezeRevision
            || Approval.ReportsStart(authority.binding.causal, item)
  {
    var changed := Diffs.PathsOf(r.request.changes);
    var paths := changed + r.request.causal;
    Approval.OrderedMembers(Approval.RevisionItems(paths));
    Approval.RevisionItemsMembers(paths);
    AuthorityRequires(authority, r);
    if item != Approval.FullContract && item != Approval.PostFreezeRevision {
      var path :| path in paths && Approval.Covers(item, path);
      Revision.VerifiedHidesNothing(r.request, authority.baseHash.decision, r.decision, r.causal, r.requests);
      assert path in r.request.causal;
      Approval.CoversStartsAtField(item, path);
    }
  }

  // ----- The current version -----

  /** Each item that watches the place has its own status `Approved`. */
  predicate ApprovedAt(a: Approval.ApprovalRecord, steps: seq<Step>) {
    && (Approval.Watches(Approval.MajorChoice, steps) ==> a.major.status == Approval.Approved)
    && (Approval.Watches(Approval.InformationReveal, steps) ==> a.information.status == Approval.Approved)
    && (Approval.Watches(Approval.ForeshadowPayoff, steps) ==> a.foreshadow.status == Approval.Approved)
    && (Approval.Watches(Approval.NewFacts, steps) ==> a.facts.status == Approval.Approved)
    && (Approval.Watches(Approval.OutlineChange, steps) ==> a.outline.status == Approval.Approved)
  }

  lemma GrantedAt(authority: RevisionAuthority, pointer: Pointer, item: Approval.Item, steps: seq<Step>)
    requires Granted(authority, pointer) && AuthorityGood(authority, pointer.key)
    requires Proper(steps) && Approval.Watches(item, steps) && Concerned(authority, steps)
    requires WellNamed(authority.baseHash.decision.tree) && WellNamed(authority.contentHash.decision.tree)
    ensures pointer.approval.approval.Of(item).status == Approval.Approved
  {
    var r :| Derived(authority, r);
    ConcernedIsRequired(authority, r, item, steps);
    assert pointer.approval.approval.Approves(item);
  }

  lemma StatusesByField(a: Approval.ApprovalRecord, steps: seq<Step>)
    requires forall item :: Approval.Watches(item, steps) ==> a.Of(item).status == Approval.Approved
    ensures ApprovedAt(a, steps)
  {
    assert a.Of(Approval.MajorChoice) == a.major && a.Of(Approval.InformationReveal) == a.information;
    assert a.Of(Approval.ForeshadowPayoff) == a.foreshadow && a.Of(Approval.NewFacts) == a.facts;
    assert a.Of(Approval.OutlineChange) == a.outline;
  }

  lemma AllGrantedAt(authority: RevisionAuthority, pointer: Pointer, steps: seq<Step>)
    requires Granted(authority, pointer) && AuthorityGood(authority, pointer.key)
    requires Proper(steps) && Concerned(authority, steps)
    requires WellNamed(authority.baseHash.decision.tree) && WellNamed(authority.contentHash.decision.tree)
    ensures ApprovedAt(pointer.approval.approval, steps)
  {
    var a := pointer.approval.approval;
    forall item
      ensures Approval.Watches(item, steps) ==> a.Of(item).status == Approval.Approved
    {
      if Approval.Watches(item, steps) {
        GrantedAt(authority, pointer, item, steps);
      }
    }
    StatusesByField(a, steps);
  }

  lemma GrantedItem(authority: RevisionAuthority, pointer: Pointer, item: Approval.Item)
    requires Granted(authority, pointer) && item in authority.required
    ensures pointer.approval.approval.Of(item).status == Approval.Approved
  {
    assert pointer.approval.approval.Approves(item);
  }

  lemma StandingItemsRequired(authority: RevisionAuthority, k: Key)
    requires AuthorityGood(authority, k)
    ensures Approval.FullContract in authority.required && Approval.PostFreezeRevision in authority.required
  {
    var r :| Derived(authority, r);
    var paths := Diffs.PathsOf(r.request.changes) + r.request.causal;
    Approval.OrderedMembers(Approval.RevisionItems(paths));
    Approval.RevisionItemsMembers(paths);
  }

  lemma StandingItemsGranted(authority: RevisionAuthority, pointer: Pointer)
    requires Granted(authority, pointer)
    requires Approval.FullContract in authority.required && Approval.PostFreezeRevision in authority.required
    ensures pointer.approval.approval.full.status == Approval.Approved
    ensures pointer.approval.approval.revision.status == Approval.Approved
  {
    GrantedItem(authority, pointer, Approval.FullContract);
    GrantedItem(authority, pointer, Approval.PostFreezeRevision);
  }

  ghost predicate NothingElseRequired(authority: RevisionAuthority) {
    forall item <- authority.required ::
      || item == Approval.FullContract || item == Approval.PostFreezeRevision
      || Approval.ReportsStart(authority.binding.causal, item)
  }

  ghost predicate ConcernsApproved(authority: RevisionAuthority, a: Approval.ApprovalRecord) {
    WellNamed(authority.baseHash.decision.tree) && WellNamed(authority.contentHash.decision.tree) ==>
      forall steps | Proper(steps) && Concerned(authority, steps) :: ApprovedAt(a, steps)
  }

  lemma AuthorityIsExact(authority: RevisionAuthority, pointer: Pointer)
    requires Granted(authority, pointer) && AuthorityGood(authority, pointer.key)
    ensures NothingElseRequired(authority) && ConcernsApproved(authority, pointer.approval.approval)
  {
    var r :| Derived(authority, r);
    forall item <- authority.required
      ensures || item == Approval.FullContract || item == Approval.PostFreezeRevision
              || Approval.ReportsStart(authority.binding.causal, item)
    {
      RequiredIsConcerned(authority, r, item);
    }
    if WellNamed(authority.baseHash.decision.tree) && WellNamed(authority.contentHash.decision.tree) {
      forall steps | Proper(steps) && Concerned(authority, steps)
        ensures ApprovedAt(pointer.approval.approval, steps)
      {
        AllGrantedAt(authority, pointer, steps);
      }
    }
  }

  /** The approval record is about this version, content and baseline. */
  predicate RecordIsAbout(a: Approval.ApprovalRecord, k: Key, content: NarrativeDecision,
                          baseline: Baseline.Fingerprint) {
    && a.contractId == k.contractId && a.contractVersion == k.version && a.contractHash.decision == content
    && a.baseline.fingerprint == baseline
  }

  /** What the revision authority of the current version has to do with the stored versions and the pointer. */
  predicate AuthorityOfCurrent(p: Project, c: string)
    requires c in p.pointers && p.pointers[c].key.version >= 2
  {
    var k := p.pointers[c].key;
    var base := Key(k.contractId, (k.version - 1) as nat);
    && k in p.items && base in p.items && k in p.authorities && Granted(p.authorities[k], p.pointers[c])
    && p.authorities[k].baseHash.decision == p.items[base].decision
    && p.authorities[k].contentHash.decision == p.items[k].decision == p.pointers[c].contentHash.decision
  }

  lemma RevisedHasAuthority(p: Project, c: string)
    requires c in p.pointers && p.pointers[c].key.version >= 2 && RevisedOk(p, c) && PointerOk(p, c)
    ensures AuthorityOfCurrent(p, c)
  {
  }

  lemma InvSays(p: Project, c: string)
    requires Inv(p)
    ensures RevisedOk(p, c) && PointerOk(p, c) && AuthoritiesGood(p.authorities)
  {
  }

  lemma CurrentHasAuthority(p: Project, c: string)
    requires Inv(p) && c in p.pointers && p.pointers[c].key.version >= 2
    ensures AuthorityOfCurrent(p, c) && AuthorityGood(p.authorities[p.pointers[c].key], p.pointers[c].key)
  {
    InvSays(p, c);
    RevisedHasAuthority(p, c);
    assert AuthorityGood(p.authorities[p.pointers[c].key], p.pointers[c].key);
  }

  lemma CurrentIsApproved(p: Project, c: string)
    requires c in p.pointers && p.pointers[c].key.version >= 2
    requires AuthorityOfCurrent(p, c) && AuthorityGood(p.authorities[p.pointers[c].key], p.pointers[c].key)
    ensures var authority, a := p.authorities[p.pointers[c].key], p.pointers[c].approval.approval;
            && a.full.status == Approval.Approved && a.revision.status == Approval.Approved
            && NothingElseRequired(authority) && ConcernsApproved(authority, a)
  {
    var k := p.pointers[c].key;
    StandingItemsRequired(p.authorities[k], k);
    StandingItemsGranted(p.authorities[k], p.pointers[c]);
    AuthorityIsExact(p.authorities[k], p.pointers[c]);
  }

  /**
   Whenever version 2 or later of a contract is current, the approval record its pointer binds is about the
   stored version, its full contract and its revision are approved, and so is every item that watches a place
   at which the stored version differs from the stored version before, or that the revision declares as
   causally affected. The revision asked for no other item.
   */
  lemma CurrentRevisionIsApproved(p: Project, c: string)
    requires Inv(p) && c in p.pointers && p.pointers[c].key.version >= 2
    ensures var pointer := p.pointers[c];
            var k := pointer.key;
            var base := Key(k.contractId, (k.version - 1) as nat);
            var a := pointer.approval.approval;
            && k in p.items && base in p.items && k in p.authorities
            && RecordIsAbout(a, k, p.items[k].decision, pointer.baseline)
            && a.full.status == Approval.Approved && a.revision.status == Approval.Approved
            && (forall item <- p.authorities[k].required ::
                  || item == Approval.FullContract || item == Approval.PostFreezeRevision
                  || Approval.ReportsStart(p.authorities[k].binding.causal, item))
            && (WellNamed(p.items[base].decision.tree) && WellNamed(p.items[k].decision.tree) ==>
                  && (forall steps | Proper(steps) && Altered(p.items[base].decision, p.items[k].decision, steps) ::
                        ApprovedAt(a, steps))
                  && (forall steps | Proper(steps) && PathText("", steps) in p.authorities[k].binding.causal ::
                        ApprovedAt(a, steps)))
  {
    CurrentHasAuthority(p, c);
    CurrentIsApproved(p, c);
  }
}
