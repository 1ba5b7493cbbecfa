/**
 Revision requests: the canonical difference of two contract versions, the change requests that
 justify its major parts, and the check that recomputes both.
 */
module Revision {
  import opened Wrappers
  import opened Text
  import opened Sorting
  import opened Paths
  import opened Decisions
  import opened Leaves
  import opened Diffs
  import Baseline

  const CHAPTER := "chapter_contract"

  /** A change below one of these paths needs an approved change request. */
  const MAJOR: seq<string> := [
    "arc_phase", "arc_goal", "inherited_pressure", "future_pressures",
    CHAPTER + "." + "functions", CHAPTER + "." + "dramatic_question",
    CHAPTER + "." + "protagonist_choice", CHAPTER + "." + "reader_change",
    CHAPTER + "." + "information", CHAPTER + "." + "pressure_curve",
    CHAPTER + "." + "foreshadow_actions", CHAPTER + "." + "ending_shift",
    CHAPTER + "." + "forbidden"]

  predicate MajorPath(path: string) {
    exists prefix <- MAJOR :: path == prefix || StartsWith(path, prefix + ".") || StartsWith(path, prefix + "[")
  }

  datatype RequestStatus = Proposed | Approved | Applied | Rejected

  datatype ChangeRequest = ChangeRequest(
    id: string, reason: string, oldPlan: string, newPlan: string, chapters: seq<int>,
    subjects: seq<string>, hooks: seq<string>, strategy: string, status: RequestStatus)
  {
    predicate Valid() {
      && !Blank(id) && !Blank(reason) && !Blank(oldPlan) && !Blank(newPlan)
      && chapters != [] && (forall c <- chapters :: c >= 1)
      && subjects != [] && (forall s <- subjects :: !Blank(s))
      && hooks != [] && (forall s <- hooks :: !Blank(s))
    }
  }

  /** SHA-256 of the request's canonical JSON. */
  datatype RequestHash = RequestHash(request: ChangeRequest)

  datatype Reference = Reference(requestId: string, hash: RequestHash, covered: seq<string>)

  datatype Request = Request(
    contractId: string, chapterId: string, baseVersion: nat, baseHash: ContentHash,
    replacementVersion: nat, replacementHash: ContentHash,
    baseBaseline: Baseline.Fingerprint, replacementBaseline: Baseline.Fingerprint,
    changes: seq<Change>, causal: seq<string>, sceneImpact: string, references: seq<Reference>)

  datatype RevisionError =
    | IdentityMismatch | VersionNotContiguous | InvalidDecision | InvalidPath | NoChange | NonCanonicalPath
    | InvalidChangeRequest | MajorNotApproved | CausalIncomplete | BindingMismatch | BlankText | NotSortedUnique
    | DuplicateRequests

  /** Constructing a change refuses a path that is not a field path. */
  function CheckedDiff(before: LeafMap, after: LeafMap): Result<seq<Change>, RevisionError> {
    var changes := Diff(before, after);
    if exists c <- changes :: !IsPath(c.path) then Failure(InvalidPath) else Success(changes)
  }

  predicate StrictlySorted(paths: seq<string>) {
    forall i :: 0 <= i < |paths| - 1 ==> StrLe(paths[i], paths[i + 1]) && paths[i] != paths[i + 1]
  }

  function CheckPaths(paths: seq<string>): Result<seq<string>, RevisionError> {
    if exists p <- paths :: !IsPath(p) then Failure(InvalidPath)
    else if !StrictlySorted(paths) then Failure(NotSortedUnique)
    else Success(paths)
  }

  // ----- Approved change requests -----

  function ChangeText(value: Scalar, present: bool): string {
    if present then value.AsText() else "<missing>"
  }

  /** The request describes this major change: same text before, same text after. */
  predicate Describes(request: ChangeRequest, c: Change) {
    && MajorPath(c.path)
    && ChangeText(c.oldValue, c.oldPresent) == request.oldPlan
    && ChangeText(c.newValue, c.newPresent) == request.newPlan
  }

  function CoveredPaths(changes: seq<Change>, request: ChangeRequest): seq<string> {
    if changes == [] then []
    else (if Describes(request, changes[0]) then [changes[0].path] else []) + CoveredPaths(changes[1..], request)
  }

  /** The reference a request contributes, if it is approved, concerns the chapter and covers some change. */
  function ReferenceOf(changes: seq<Change>, chapter: nat, request: ChangeRequest): seq<Reference> {
    var covered := CoveredPaths(changes, request);
    if request.status.Approved? && chapter in request.chapters && covered != []
    then [Reference(request.id, RequestHash(request), covered)]
    else []
  }

  function Collect(changes: seq<Change>, chapter: nat, requests: seq<ChangeRequest>)
    : Result<seq<Reference>, RevisionError>
  {
    if requests == [] then Success([])
    else if !requests[0].Valid() then Failure(InvalidChangeRequest)
    else
      var rest :- Collect(changes, chapter, requests[1..]);
      Success(ReferenceOf(changes, chapter, requests[0]) + rest)
  }

  function ReferenceKey(r: Reference): Key {
    [r.requestId]
  }

  function References(changes: seq<Change>, chapter: nat, requests: seq<ChangeRequest>)
    : Result<seq<Reference>, RevisionError>
  {
    var collected :- Collect(changes, chapter, requests);
    Success(Sort(collected, ReferenceKey))
  }

  function Prepended(found: seq<Reference>, rest: Result<seq<Reference>, RevisionError>)
    : Result<seq<Reference>, RevisionError>
  {
    if rest.Failure? then rest else Success(found + rest.value)
  }

  lemma PrependedConcat(found: seq<Reference>, more: seq<Reference>, rest: Result<seq<Reference>, RevisionError>)
    ensures Prepended(found, Prepended(more, rest)) == Prepended(found + more, rest)
    ensures Prepended([], rest) == rest && found + [] == found
  {
    if rest.Success? {
      assert found + (more + rest.value) == (found + more) + rest.value;
      assert [] + rest.value == rest.value;
    }
  }

  /** Goes through the requests once, appending a reference for each that covers something. */
  method ApprovedReferences(changes: seq<Change>, chapter: nat, requests: seq<ChangeRequest>)
    returns (r: Result<seq<Reference>, RevisionError>)
    ensures r == References(changes, chapter, requests)
  {
    var found: seq<Reference> := [];
    assert requests[0..] == requests;
    PrependedConcat([], [], Collect(changes, chapter, requests));
    for i := 0 to |requests|
      invariant Collect(changes, chapter, requests) == Prepended(found, Collect(changes, chapter, requests[i..]))
    {
      assert requests[i..][1..] == requests[i + 1..];
      if !requests[i].Valid() {
        return Failure(InvalidChangeRequest);
      }
      var covered := CoveredPaths(changes, requests[i]);
      PrependedConcat(found, ReferenceOf(changes, chapter, requests[i]), Collect(changes, chapter, requests[i + 1..]));
      if requests[i].status.Approved? && chapter in requests[i].chapters && covered != [] {
        found := found + [Reference(requests[i].id, RequestHash(requests[i]), covered)];
      }
    }
    assert found + [] == found;
    return Success(Sort(found, ReferenceKey));
  }

  predicate Covered(references: seq<Reference>, path: string) {
    exists r <- references :: path in r.covered
  }

  predicate MajorsCovered(changes: seq<Change>, references: seq<Reference>) {
    forall c <- changes :: MajorPath(c.path) ==> Covered(references, c.path)
  }

  /** Every changed path is declared as causal impact. */
  predicate CausalCovers(changes: seq<Change>, causal: seq<string>) {
    forall c <- changes :: c.path in causal
  }

  // ----- Building and verifying -----

  function RequestId(r: Reference): string { r.requestId }

  predicate ChangeIsValid(c: Change) {
    IsPath(c.path) && (c.oldPresent || c.newPresent)
  }

  predicate ReferenceIsValid(r: Reference) {
    !Blank(r.requestId) && r.covered != [] && CheckPaths(r.covered).Success?
  }

  /** The constructor. Its changes and references were themselves constructed. */
  function Construct(r: Request): Result<Request, RevisionError> {
    if Blank(r.contractId) || Blank(r.chapterId) then Failure(BlankText)
    else if r.baseVersion < 1 || r.replacementVersion != r.baseVersion + 1 then Failure(VersionNotContiguous)
    else if r.changes == [] then Failure(NoChange)
    else if exists c <- r.changes :: !ChangeIsValid(c) then Failure(InvalidPath)
    else if !StrictlySorted(PathsOf(r.changes)) then Failure(NotSortedUnique)
    else
      var _ :- CheckPaths(r.causal);
      if Blank(r.sceneImpact) then Failure(BlankText)
      else if exists x <- r.references :: !ReferenceIsValid(x) then Failure(InvalidPath)
      else if !DistinctBy(r.references, RequestId) then Failure(DuplicateRequests)
      else Success(r)
  }

  function Build(current: NarrativeDecision, replacement: NarrativeDecision,
                 baseBaseline: Baseline.Fingerprint, replacementBaseline: Baseline.Fingerprint,
                 causal: seq<string>, sceneImpact: string, requests: seq<ChangeRequest>)
    : Result<Request, RevisionError>
  {
    if current.contractId != replacement.contractId || current.chapter != replacement.chapter
    then Failure(IdentityMismatch)
    else if replacement.contractVersion != current.contractVersion + 1 then Failure(VersionNotContiguous)
    else if !current.Valid() || !replacement.Valid() then Failure(InvalidDecision)
    else
      var before, after := LeavesOf(current), LeavesOf(replacement);
      var changes :- CheckedDiff(before, after);
      if changes == [] then Failure(NoChange)
      else
        var _ :- CheckPaths(causal);
        if exists p <- causal :: p !in before && p !in after then Failure(NonCanonicalPath)
        else
          var references :- References(changes, current.chapter, requests);
          if !MajorsCovered(changes, references) then Failure(MajorNotApproved)
          else if !CausalCovers(changes, causal) then Failure(CausalIncomplete)
          else
            Construct(Request(
              current.contractId, current.chapterId, current.contractVersion, ContentHash(current),
              replacement.contractVersion, ContentHash(replacement), baseBaseline, replacementBaseline,
              changes, causal, sceneImpact, Sort(references, ReferenceKey)))
  }

  /** The request carries these identities, hashes, changes, paths and references. */
  predicate Binds(r: Request, current: NarrativeDecision, replacement: NarrativeDecision, causal: seq<string>,
                  changes: seq<Change>, references: seq<Reference>) {
    && r.contractId == current.contractId
    && r.chapterId == current.chapterId
    && r.baseVersion == current.contractVersion
    && r.replacementVersion == replacement.contractVersion
    && r.baseHash == ContentHash(current)
    && r.replacementHash == ContentHash(replacement)
    && SameChanges(r.changes, changes)
    && r.causal == causal
    && r.references == references
  }

  function Verify(r: Request, current: NarrativeDecision, replacement: NarrativeDecision,
                  causal: seq<string>, requests: seq<ChangeRequest>)
    : Result<(), RevisionError>
  {
    if !current.Valid() || !replacement.Valid() then Failure(InvalidDecision)
    else
      var before, after := LeavesOf(current), LeavesOf(replacement);
      var changes :- CheckedDiff(before, after);
      var _ :- CheckPaths(causal);
      if exists p <- causal :: p !in before && p !in after then Failure(NonCanonicalPath)
      else
        var references :- References(changes, current.chapter, requests);
        if !MajorsCovered(changes, references) then Failure(MajorNotApproved)
        else if !Binds(r, current, replacement, causal, changes, references) then Failure(BindingMismatch)
        else if !CausalCovers(r.changes, r.causal) then Failure(CausalIncomplete)
        else Success(())
  }

  // ----- What verification guarantees -----

  predicate SameIdentity(a: NarrativeDecision, b: NarrativeDecision) {
    a.contractId == b.contractId && a.chapter == b.chapter
  }

  /** The contract id is the padded chapter number, so it fixes the chapter. */
  lemma ContractIdFixesIdentity(a: NarrativeDecision, b: NarrativeDecision)
    requires a.Valid() && b.Valid() && a.contractId == b.contractId
    ensures SameIdentity(a, b) && a.chapterId == b.chapterId
  {
    var prefix := "narrative-chapter-";
    assert a.contractId[|prefix|..] == Padded(a.chapter, 3) && b.contractId[|prefix|..] == Padded(b.chapter, 3);
    PaddedInjective(a.chapter, b.chapter, 3);
  }

  /** The request that the two decisions and the authority call for. */
  function Expected(r: Request, current: NarrativeDecision, replacement: NarrativeDecision, causal: seq<string>,
                    changes: seq<Change>, references: seq<Reference>): Request {
    Request(current.contractId, current.chapterId, current.contractVersion, ContentHash(current),
            replacement.contractVersion, ContentHash(replacement), r.baseBaseline, r.replacementBaseline,
            changes, causal, r.sceneImpact, references)
  }

  predicate AuthorityHolds(current: NarrativeDecision, replacement: NarrativeDecision, causal: seq<string>,
                           changes: seq<Change>, references: seq<Reference>) {
    && current.Valid() && replacement.Valid() && CheckPaths(causal).Success?
    && (forall p <- causal :: p in LeavesOf(current) || p in LeavesOf(replacement))
    && MajorsCovered(changes, references) && CausalCovers(changes, causal)
  }

  /** Python's `==` on requests: only the values of their changes can differ, and only in type. */
  predicate SameRequest(r: Request, s: Request) {
    s == r.(changes := s.changes) && SameChanges(r.changes, s.changes)
  }

  lemma BindsIff(r: Request, current: NarrativeDecision, replacement: NarrativeDecision, causal: seq<string>,
                 changes: seq<Change>, references: seq<Reference>)
    ensures Binds(r, current, replacement, causal, changes, references) <==>
            SameRequest(Expected(r, current, replacement, causal, changes, references), r)
  {
    SameChangesEquivalence(r.changes, changes);
    SameChangesEquivalence(changes, r.changes);
  }

  lemma SamePathsCovered(a: seq<Change>, b: seq<Change>, causal: seq<string>)
    requires SameChanges(a, b)
    ensures CausalCovers(a, causal) <==> CausalCovers(b, causal)
  {
    SameChangesEquivalence(a, b);
    if CausalCovers(a, causal) {
      forall d <- b
        ensures d.path in causal
      {
        var c := Counterpart(a, b, d);
      }
    }
    if CausalCovers(b, causal) {
      forall d <- a
        ensures d.path in causal
      {
        var c := Counterpart(b, a, d);
      }
    }
  }

  lemma VerifyIff(r: Request, current: NarrativeDecision, replacement: NarrativeDecision,
                  causal: seq<string>, requests: seq<ChangeRequest>, changes: seq<Change>, references: seq<Reference>)
    requires CheckedDiff(LeavesOf(current), LeavesOf(replacement)) == Success(changes)
    requires References(changes, current.chapter, requests) == Success(references)
    ensures Verify(r, current, replacement, causal, requests).Success? <==>
            AuthorityHolds(current, replacement, causal, changes, references)
            && SameRequest(Expected(r, current, replacement, causal, changes, references), r)
  {
    BindsIff(r, current, replacement, causal, changes, references);
    if SameChanges(changes, r.changes) {
      SamePathsCovered(changes, r.changes, causal);
    }
  }

  predicate BuildHolds(current: NarrativeDecision, replacement: NarrativeDecision, causal: seq<string>,
                       changes: seq<Change>, references: seq<Reference>) {
    && SameIdentity(current, replacement) && replacement.contractVersion == current.contractVersion + 1
    && changes != [] && AuthorityHolds(current, replacement, causal, changes, references)
  }

  lemma BuildIff(r: Request, current: NarrativeDecision, replacement: NarrativeDecision,
                 causal: seq<string>, requests: seq<ChangeRequest>, changes: seq<Change>, references: seq<Reference>)
    requires CheckedDiff(LeavesOf(current), LeavesOf(replacement)) == Success(changes)
    requires References(changes, current.chapter, requests) == Success(references)
    ensures var built := Build(current, replacement, r.baseBaseline, r.replacementBaseline, causal, r.sceneImpact,
                               requests);
            var expected := Expected(r, current, replacement, causal, changes, references);
            && (built.Success? <==>
                BuildHolds(current, replacement, causal, changes, references) && Construct(expected).Success?)
            && (built.Success? ==> built.value == expected)
  {
    SortedOnce(changes, current.chapter, requests);
  }

  lemma SameChangesValid(a: seq<Change>, b: seq<Change>)
    requires SameChanges(a, b)
    ensures (forall c <- a :: ChangeIsValid(c)) <==> forall c <- b :: ChangeIsValid(c)
  {
    SameChangesEquivalence(a, b);
    if forall c <- a :: ChangeIsValid(c) {
      forall d <- b
        ensures ChangeIsValid(d)
      {
        var c := Counterpart(a, b, d);
      }
    }
    if forall c <- b :: ChangeIsValid(c) {
      forall d <- a
        ensures ChangeIsValid(d)
      {
        var c := Counterpart(b, a, d);
      }
    }
  }

  /** The constructor looks at paths and presence, not at the values of a change. */
  lemma ConstructSame(r: Request, s: Request)
    requires SameRequest(r, s)
    ensures Construct(r).Success? <==> Construct(s).Success?
    ensures Construct(r).Success? ==> r.replacementVersion == r.baseVersion + 1 && r.changes != []
  {
    SameChangesPaths(r.changes, s.changes);
    SameChangesValid(r.changes, s.changes);
  }

  /**
   A constructed request verifies, and both decisions carry one identity, exactly when building from the
   same decisions, causal paths and change requests gives a request that Python equates with it. Building
   gives this very request exactly when its values also have the types of the leaves.
   */
  lemma VerifyIffBuilt(r: Request, current: NarrativeDecision, replacement: NarrativeDecision,
                       causal: seq<string>, requests: seq<ChangeRequest>)
    ensures var built := Build(current, replacement, r.baseBaseline, r.replacementBaseline, causal, r.sceneImpact,
                               requests);
            && ((&& Construct(r).Success? && SameIdentity(current, replacement)
                 && Verify(r, current, replacement, causal, requests).Success?)
                <==> built.Success? && SameRequest(built.value, r))
            && (built.Success? && SameRequest(built.value, r) ==>
                  (built.value == r <==> LeafTypes(r.changes, LeavesOf(current), LeavesOf(replacement))))
  {
    var diff := CheckedDiff(LeavesOf(current), LeavesOf(replacement));
    if diff.Success? {
      var references := References(diff.value, current.chapter, requests);
      if references.Success? {
        var expected := Expected(r, current, replacement, causal, diff.value, references.value);
        VerifyIff(r, current, replacement, causal, requests, diff.value, references.value);
        BuildIff(r, current, replacement, causal, requests, diff.value, references.value);
        if SameRequest(expected, r) {
          ConstructSame(expected, r);
          SameAsDiffIff(r.changes, LeavesOf(current), LeavesOf(replacement));
        }
      }
    }
  }

  lemma SortedOnce(changes: seq<Change>, chapter: nat, requests: seq<ChangeRequest>)
    requires References(changes, chapter, requests).Success?
    ensures var references := References(changes, chapter, requests).value;
            Sort(references, ReferenceKey) == references
  {
    var collected := Collect(changes, chapter, requests).value;
    SortIsOrderedPermutation(collected, ReferenceKey);
    SortSorted(Sort(collected, ReferenceKey), ReferenceKey);
  }

  /** What `build` returns passes `verify` against the same decisions and authority. */
  lemma BuildVerifies(current: NarrativeDecision, replacement: NarrativeDecision,
                      baseBaseline: Baseline.Fingerprint, replacementBaseline: Baseline.Fingerprint,
                      causal: seq<string>, sceneImpact: string, requests: seq<ChangeRequest>)
    requires Build(current, replacement, baseBaseline, replacementBaseline, causal, sceneImpact, requests).Success?
    ensures var r := Build(current, replacement, baseBaseline, replacementBaseline, causal, sceneImpact,
                           requests).value;
            Verify(r, current, replacement, causal, requests).Success? && Construct(r).Success?
  {
    var r := Build(current, replacement, baseBaseline, replacementBaseline, causal, sceneImpact, requests).value;
    assert r.baseBaseline == baseBaseline && r.replacementBaseline == replacementBaseline
           && r.sceneImpact == sceneImpact;
    SameChangesEquivalence(r.changes, r.changes);
    VerifyIffBuilt(r, current, replacement, causal, requests);
  }

  /**
   Two requests that verify against the same authority differ, as Python compares them, at most in their
   baseline fingerprints and scene impact; those three fields are never compared. Apart from these they are
   identical exactly when no value of a change differs in type.
   */
  lemma VerifiedUnique(r: Request, s: Request, current: NarrativeDecision, replacement: NarrativeDecision,
                       causal: seq<string>, requests: seq<ChangeRequest>)
    requires Verify(r, current, replacement, causal, requests).Success?
    ensures var t := r.(baseBaseline := s.baseBaseline, replacementBaseline := s.replacementBaseline,
                        sceneImpact := s.sceneImpact);
            && (Verify(s, current, replacement, causal, requests).Success? <==> SameRequest(t, s))
            && (SameRequest(t, s) ==>
                  (t == s <==> forall i :: 0 <= i < |r.changes| ==> SameTypes(r.changes[i], s.changes[i])))
  {
    var changes := CheckedDiff(LeavesOf(current), LeavesOf(replacement)).value;
    var references := References(changes, current.chapter, requests).value;
    VerifyIff(r, current, replacement, causal, requests, changes, references);
    VerifyIff(s, current, replacement, causal, requests, changes, references);
    SameChangesEquivalence(changes, r.changes);
    SameChangesEquivalence(r.changes, changes);
    SameChangesEquivalence(r.changes, s.changes);
  }

  /** Some approved request in `requests` concerns the chapter and states exactly this change. */
  ghost predicate Justified(c: Change, chapter: nat, requests: seq<ChangeRequest>) {
    exists q <- requests :: q.Valid() && q.status.Approved? && chapter in q.chapters && Describes(q, c)
  }

  /**
   A verified request hides nothing: its changes are, as Python compares them, exactly the leaves that
   differ, identically so exactly when their values have the leaves' types; each of them is declared as
   causal impact, and each major one is justified by an approved change request.
   */
  lemma VerifiedHidesNothing(r: Request, current: NarrativeDecision, replacement: NarrativeDecision,
                             causal: seq<string>, requests: seq<ChangeRequest>)
    requires Verify(r, current, replacement, causal, requests).Success?
    ensures var before, after := LeavesOf(current), LeavesOf(replacement);
            && SameChanges(Diff(before, after), r.changes)
            && (Exact(r.changes, before, after) <==> LeafTypes(r.changes, before, after))
            && (forall p :: p in PathsOf(r.changes) <==> Differs(p, before, after))
            && (forall p :: Differs(p, before, after) ==> p in r.causal)
            && (forall p :: Differs(p, before, after) && MajorPath(p) ==>
                  Justified(ChangeAt(p, before, after), current.chapter, requests))
  {
    var before, after := LeavesOf(current), LeavesOf(replacement);
    var changes := CheckedDiff(before, after).value;
    var references := References(changes, current.chapter, requests).value;
    VerifyIff(r, current, replacement, causal, requests, changes, references);
    SameAsDiffIff(r.changes, before, after);
    DiffIsTheExactOne(r.changes, before, after);
    forall p | Differs(p, before, after)
      ensures p in r.causal
      ensures MajorPath(p) ==> Justified(ChangeAt(p, before, after), current.chapter, requests)
    {
      DiffNamesDiffering(before, after);
      InPathsOf(changes, p);
      if MajorPath(p) {
        MajorIsJustified(p, current, replacement, requests);
      }
    }
  }

  lemma MajorIsJustified(p: string, current: NarrativeDecision, replacement: NarrativeDecision,
                         requests: seq<ChangeRequest>)
    requires var before, after := LeavesOf(current), LeavesOf(replacement);
             && Differs(p, before, after) && MajorPath(p)
             && References(Diff(before, after), current.chapter, requests).Success?
             && MajorsCovered(Diff(before, after), References(Diff(before, after), current.chapter, requests).value)
    ensures Justified(ChangeAt(p, LeavesOf(current), LeavesOf(replacement)), current.chapter, requests)
  {
    var before, after := LeavesOf(current), LeavesOf(replacement);
    var changes := Diff(before, after);
    DiffIsTheExactOne(changes, before, after);
    InPathsOf(changes, p);
    var references := References(changes, current.chapter, requests).value;
    var collected := Collect(changes, current.chapter, requests).value;
    assert Covered(references, p);
    var x :| x in references && p in x.covered;
    SortMembers(collected, ReferenceKey, x);
    CollectedFrom(changes, current.chapter, requests, x, p);
    var q, d :| q in requests && q.Valid() && q.status.Approved? && current.chapter in q.chapters
                && d in changes && d.path == p && Describes(q, d);
    assert d == ChangeAt(p, before, after);
  }

  lemma {:induction false} CollectedFrom(changes: seq<Change>, chapter: nat, requests: seq<ChangeRequest>,
                                         x: Reference, path: string)
    requires Collect(changes, chapter, requests).Success? && x in Collect(changes, chapter, requests).value
    requires path in x.covered
    ensures exists q, d :: q in requests && q.Valid() && q.status.Approved? && chapter in q.chapters
                           && d in changes && d.path == path && Describes(q, d)
  {
    if x in ReferenceOf(changes, chapter, requests[0]) {
      CoveredFrom(changes, requests[0], path);
    } else {
      CollectedFrom(changes, chapter, requests[1..], x, path);
    }
  }

  lemma {:induction false} CoveredFrom(changes: seq<Change>, request: ChangeRequest, path: string)
    requires path in CoveredPaths(changes, request)
    ensures exists d <- changes :: d.path == path && Describes(request, d)
  {
    if Describes(request, changes[0]) && path == changes[0].path {
      assert changes[0] in changes;
    } else {
      CoveredFrom(changes[1..], request, path);
    }
  }
}
