/** Verifying a request does not compare the identities of its two decisions; the stored contracts make up for that. */
module RevisionIdentity {
  import opened Wrappers
  import opened Text
  import opened Sorting
  import opened Decisions
  import opened Leaves
  import opened Diffs
  import opened Revision
  import opened Lifecycle
  import opened LifecycleRuns
  import Baseline
  import Paths

  // ----- Two decisions of different identity -----

  function IdOf(n: nat): string { "narrative-chapter-" + Padded(n, 3) }

  function ChapterIdOf(n: nat): string { "chapter_" + Padded(n, 3) }

  /** Version `n` of the contract of chapter `n`, with its identity fields only. */
  function Identified(n: nat): NarrativeDecision {
    NarrativeDecision(n, IdOf(n), n, ChapterIdOf(n), Record([
      Field("chapter", Leaf(Int(n))), Field("contract_id", Leaf(Str(IdOf(n)))),
      Field("chapter_contract", Record([Field("chapter_id", Leaf(Str(ChapterIdOf(n))))]))]))
  }

  const CHAPTER := "chapter"

  const CHAPTER_ID := "chapter_contract" + "." + "chapter_id"

  const CONTRACT_ID := "contract_id"

  const PATHS := [CHAPTER, CHAPTER_ID, CONTRACT_ID]

  function IdentityLeaves(n: nat): LeafMap {
    map[CHAPTER := Int(n), CONTRACT_ID := Str(IdOf(n)), CHAPTER_ID := Str(ChapterIdOf(n))]
  }

  lemma FirstField(f: Field, rest: seq<Field>, path: string)
    ensures FieldLeaves([f] + rest, path) == LeafList(f.tree, FieldPath(path, f.name)) + FieldLeaves(rest, path)
  {
    assert ([f] + rest)[1..] == rest;
  }

  lemma AssignThree(a: (string, Scalar), b: (string, Scalar), c: (string, Scalar))
    ensures Assign([a, b, c], map[]) == map[a.0 := a.1, b.0 := b.1, c.0 := c.1]
  {
    assert [a, b, c][1..] == [b, c] && [b, c][1..] == [c] && [c][1..] == [];
    assert Assign([c], map[a.0 := a.1, b.0 := b.1]) == Assign([], map[a.0 := a.1, b.0 := b.1, c.0 := c.1]);
  }

  lemma LeavesOfChapterId(n: nat)
    ensures LeafList(Record([Field("chapter_id", Leaf(Str(ChapterIdOf(n))))]), "chapter_contract") ==
            [(CHAPTER_ID, Str(ChapterIdOf(n)))]
  {
    var inner, c := Field("chapter_id", Leaf(Str(ChapterIdOf(n)))), (CHAPTER_ID, Str(ChapterIdOf(n)));
    FirstField(inner, [], "chapter_contract");
    assert [inner] + [] == [inner];
    assert [c] + [] == [c];
  }

  lemma LeavesOfIdentified(n: nat)
    ensures LeavesOf(Identified(n)) == IdentityLeaves(n)
  {
    var chapter, contract := Field("chapter", Leaf(Int(n))), Field("contract_id", Leaf(Str(IdOf(n))));
    var outer := Field("chapter_contract", Record([Field("chapter_id", Leaf(Str(ChapterIdOf(n))))]));
    var a, b, c := (CHAPTER, Int(n)), (CONTRACT_ID, Str(IdOf(n))), (CHAPTER_ID, Str(ChapterIdOf(n)));
    LeavesOfChapterId(n);
    FirstField(outer, [], "");
    assert [outer] + [] == [outer] && [c] + [] == [c];
    FirstField(contract, [outer], "");
    assert [contract] + [outer] == [contract, outer] && [b] + [c] == [b, c];
    FirstField(chapter, [contract, outer], "");
    assert [chapter] + [contract, outer] == [chapter, contract, outer] && [a] + [b, c] == [a, b, c];
    assert FieldLeaves([chapter, contract, outer], "") == [a, b, c];
    AssignThree(a, b, c);
  }

  // ----- Their difference -----

  ghost predicate InOrder(a: string, b: string, c: string) {
    && StrLe(a, b) && StrLe(b, c) && StrLe(a, c) && a != b && b != c && a != c
    && Paths.IsPath(a) && Paths.IsPath(b) && Paths.IsPath(c)
  }

  lemma SortedPathsCheck(a: string, b: string, c: string)
    requires InOrder(a, b, c)
    ensures Increasing([a, b, c]) && StrictlySorted([a, b, c]) && CheckPaths([a, b, c]) == Success([a, b, c])
  {
  }

  lemma AllThreeDiffer(a: string, b: string, c: string, before: LeafMap, after: LeafMap)
    requires InOrder(a, b, c) && before.Keys == after.Keys == {a, b, c}
    requires forall p <- before :: !before[p].SameAs(after[p])
    ensures Diff(before, after) == [ChangeAt(a, before, after), ChangeAt(b, before, after), ChangeAt(c, before, after)]
    ensures CheckedDiff(before, after) == Success(Diff(before, after)) && PathsOf(Diff(before, after)) == [a, b, c]
    ensures forall change <- Diff(before, after) :: ChangeIsValid(change) && change.path in [a, b, c]
  {
    var changes := [ChangeAt(a, before, after), ChangeAt(b, before, after), ChangeAt(c, before, after)];
    assert PathsOf(changes) == [a, b, c];
    SortedPathsCheck(a, b, c);
    DiffIsTheExactOne(changes, before, after);
  }

  lemma NamesAreIdentifiers()
    ensures Paths.IsIdentifier("chapter") && Paths.IsIdentifier("contract_id")
  {
  }

  lemma InnerNamesAreIdentifiers()
    ensures Paths.IsIdentifier("chapter_contract") && Paths.IsIdentifier("chapter_id")
  {
  }

  lemma AllPaths()
    ensures Paths.IsPath(CHAPTER) && Paths.IsPath(CHAPTER_ID) && Paths.IsPath(CONTRACT_ID)
  {
    NamesAreIdentifiers();
    InnerNamesAreIdentifiers();
    Paths.IdentifierStartsPath("chapter", "");
    Paths.IdentifierStartsPath("contract_id", "");
    Paths.IdentifierStartsPath("chapter_id", "");
    Paths.IdentifierStartsPath("chapter_contract", "chapter_id");
  }

  lemma FirstBeforeSecond()
    ensures StrLe(CHAPTER, CHAPTER_ID) && |CHAPTER_ID| == 27
  {
    StrLePrefix(CHAPTER, "_contract" + "." + "chapter_id");
    assert CHAPTER_ID == CHAPTER + ("_contract" + "." + "chapter_id");
  }

  lemma BeforeLast(s: string)
    requires |s| > 1 && s[0] == 'c' && s[1] == 'h'
    ensures StrLe(s, CONTRACT_ID)
  {
    assert CONTRACT_ID[0] == 'c' && CONTRACT_ID[1..][0] == 'o' && s[1..][0] == 'h';
  }

  lemma IdentityPathsInOrder()
    ensures InOrder(CHAPTER, CHAPTER_ID, CONTRACT_ID)
  {
    AllPaths();
    FirstBeforeSecond();
    BeforeLast(CHAPTER);
    BeforeLast(CHAPTER_ID);
    assert |CHAPTER| == 7 && |CONTRACT_ID| == 11;
  }

  lemma IdentitiesDiffer()
    ensures forall p <- IdentityLeaves(1) :: !IdentityLeaves(1)[p].SameAs(IdentityLeaves(2)[p])
  {
    var id, chapter := "narrative-chapter-", "chapter_";
    if Padded(1, 3) == Padded(2, 3) {
      PaddedInjective(1, 2, 3);
    }
    assert IdOf(1)[|id|..] == Padded(1, 3) && IdOf(2)[|id|..] == Padded(2, 3);
    assert ChapterIdOf(1)[|chapter|..] == Padded(1, 3) && ChapterIdOf(2)[|chapter|..] == Padded(2, 3);
  }

  lemma MajorShape(prefix: string)
    requires prefix in MAJOR
    ensures |prefix| > 7 && (prefix[0] != 'c' || (|prefix| > 17 && prefix[1] == 'h' && prefix[17] != 'c'))
  {
  }

  lemma MinorByShape(path: string)
    requires |path| <= 7 || (path[0] == 'c' && (path[1] != 'h' || (|path| > 17 && path[17] == 'c')))
    ensures !MajorPath(path)
  {
    forall prefix <- MAJOR
      ensures !(prefix <= path)
    {
      MajorShape(prefix);
    }
  }

  lemma IdentityIsMinor()
    ensures !MajorPath(CHAPTER) && !MajorPath(CHAPTER_ID) && !MajorPath(CONTRACT_ID)
  {
    assert CHAPTER_ID[0] == 'c' && CHAPTER_ID[17] == 'c' && CONTRACT_ID[0] == 'c' && CONTRACT_ID[1] == 'o';
    MinorByShape(CHAPTER);
    MinorByShape(CHAPTER_ID);
    MinorByShape(CONTRACT_ID);
  }

  // ----- The request that verifies although it cannot be built -----

  const BASELINE := Baseline.Fingerprint([])

  /** From version 1 of chapter 1's contract to version 2 of chapter 2's. */
  function CrossRequest(changes: seq<Change>): Request {
    Request(IdOf(1), ChapterIdOf(1), 1, ContentHash(Identified(1)), 2, ContentHash(Identified(2)), BASELINE, BASELINE,
            changes, PATHS, "none", [])
  }

  lemma NothingBlank()
    ensures !Blank(IdOf(1)) && !Blank(ChapterIdOf(1)) && !Blank("none")
  {
    NotBlank(IdOf(1));
    NotBlank(ChapterIdOf(1));
    NotBlank("none");
  }

  lemma PathsCheck()
    ensures StrictlySorted(PATHS) && CheckPaths(PATHS).Success? && |PATHS| == 3
  {
    IdentityPathsInOrder();
    SortedPathsCheck(CHAPTER, CHAPTER_ID, CONTRACT_ID);
  }

  lemma CrossConstructs(changes: seq<Change>)
    requires PathsOf(changes) == PATHS && forall c <- changes :: ChangeIsValid(c)
    ensures Construct(CrossRequest(changes)).Success?
  {
    NothingBlank();
    PathsCheck();
    var r := CrossRequest(changes);
    assert r.changes != [] && r.causal == PATHS && r.references == [];
  }

  lemma CrossLeaves()
    ensures var before, after := LeavesOf(Identified(1)), LeavesOf(Identified(2));
            && before == IdentityLeaves(1) && after == IdentityLeaves(2)
            && before.Keys == after.Keys == {CHAPTER, CHAPTER_ID, CONTRACT_ID}
  {
    LeavesOfIdentified(1);
    LeavesOfIdentified(2);
  }

  lemma CrossDiff()
    ensures var before, after := LeavesOf(Identified(1)), LeavesOf(Identified(2));
            && CheckedDiff(before, after) == Success(Diff(before, after)) && PathsOf(Diff(before, after)) == PATHS
            && forall c <- Diff(before, after) :: ChangeIsValid(c) && c.path in PATHS
  {
    CrossLeaves();
    IdentityPathsInOrder();
    IdentitiesDiffer();
    AllThreeDiffer(CHAPTER, CHAPTER_ID, CONTRACT_ID, IdentityLeaves(1), IdentityLeaves(2));
  }

  lemma CrossIsMinor(changes: seq<Change>)
    requires forall c <- changes :: c.path in PATHS
    ensures MajorsCovered(changes, [])
  {
    IdentityIsMinor();
  }

  /** The missing comparison is real: a constructed request joins two contracts, verifies, and cannot be built. */
  lemma IdentityIsNotCompared()
    ensures var current, replacement := Identified(1), Identified(2);
            var r := CrossRequest(Diff(LeavesOf(current), LeavesOf(replacement)));
            && !SameIdentity(current, replacement) && Construct(r).Success?
            && Verify(r, current, replacement, PATHS, []).Success?
            && Build(current, replacement, BASELINE, BASELINE, PATHS, "none", []) == Failure(IdentityMismatch)
  {
    var current, replacement := Identified(1), Identified(2);
    var changes := Diff(LeavesOf(current), LeavesOf(replacement));
    var r := CrossRequest(changes);
    CrossLeaves();
    CrossDiff();
    CrossIsMinor(changes);
    CrossConstructs(changes);
    PathsCheck();
    assert References(changes, 1, []) == Success([]) by {
      assert Sort([], ReferenceKey) == [];
    }
    SameChangesEquivalence(changes, changes);
    PathsAreCovered(changes);
    assert AuthorityHolds(current, replacement, PATHS, changes, []);
    VerifyIff(r, current, replacement, PATHS, [], changes, []);
  }

  lemma PathsAreCovered(changes: seq<Change>)
    ensures CausalCovers(changes, PathsOf(changes))
  {
    forall c <- changes
      ensures c.path in PathsOf(changes)
    {
      InPathsOf(changes, c.path);
    }
  }

  // ----- Stored contracts -----

  /** The request behind an authority, if it was constructed, is one that building gives. */
  ghost predicate IsBuilt(authority: RevisionAuthority, r: Replacement) {
    Construct(r.request).Success? ==>
      var built := Build(authority.baseHash.decision, r.decision, r.request.baseBaseline, r.request.replacementBaseline,
                         r.causal, r.request.sceneImpact, r.requests);
      built.Success? && SameRequest(built.value, r.request)
  }

  /**
   Whatever is called and wherever it crashes, a stored revision authority joins two decisions of one
   identity, the one named by its key; a constructed request behind it is one that building gives.
   */
  lemma AuthoritiesKeepIdentity(calls: seq<Call>, k: Lifecycle.Key)
    requires k in Run(EMPTY, calls).authorities
    ensures var authority := Run(EMPTY, calls).authorities[k];
            var base, next := authority.baseHash.decision, authority.contentHash.decision;
            && SameIdentity(base, next) && base.chapterId == next.chapterId
            && k == Lifecycle.Key(next.contractId, next.contractVersion) && next.Valid()
            && exists r :: Derived(authority, r) && r.decision == next && IsBuilt(authority, r)
  {
    EmptyKeepsInv();
    RunsKeepInv(EMPTY, calls);
    var authority := Run(EMPTY, calls).authorities[k];
    assert AuthorityGood(authority, k);
    var r :| Derived(authority, r);
    var base := authority.baseHash.decision;
    assert base.Valid() && r.decision.Valid();
    ContractIdFixesIdentity(base, r.decision);
    VerifyIffBuilt(r.request, base, r.decision, r.causal, r.requests);
    assert Derived(authority, r) && r.decision == authority.contentHash.decision && IsBuilt(authority, r);
  }
}
