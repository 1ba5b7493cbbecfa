/** The gate: a current reviewer result is passed exactly by one disposition for each issue that needs one. */
module ReviewGate {
  import opened Wrappers
  import opened Text
  import opened Sorting
  import opened Decisions
  import opened Review
  import Baseline

  datatype Expected = Expected(
    contractId: string, contractVersion: int, contractHash: ContentHash, baseline: Baseline.Fingerprint,
    ruleset: string, assets: seq<Asset>)

  datatype Verdict = Ready | MissingReview | StaleReview | Unresolved

  const SYSTEM_ACTORS := {"system", "assistant", "ai", "model", "automation", "bot"}

  predicate DispositionValid(d: Disposition) {
    && !Blank(d.issueId) && !Blank(d.issueCode) && !Blank(d.fieldPath) && !Blank(d.reason)
    && !Blank(d.decidedAt) && !Blank(d.resultId)
    && d.status in {"accepted", "resolved"}
    && !Blank(d.actor) && Fold(Strip(d.actor)) !in SYSTEM_ACTORS
  }

  /** The disposition is a human decision about this very issue of this very result. */
  predicate Settles(d: Disposition, result: ReviewerResult, issue: Issue) {
    && DispositionValid(d)
    && d.issueId == issue.id && d.issueHash == issue.hash && d.issueCode == issue.code
    && d.fieldPath == issue.fieldPath && d.evidenceHash == issue.evidenceHash
    && d.resultId == result.body.resultId && d.resultHash == result.hash
  }

  predicate IssueIntact(i: Issue) {
    CanonicalChecks(i.checks) == Success(i.checks) && i.evidenceHash == EvidenceHash(i.checks)
      && i.hash == IssueDigest(i)
  }

  predicate Current(result: ReviewerResult, expected: Expected, hex: IssueHash -> string) {
    var body := result.body;
    && !Blank(expected.contractId) && !Blank(expected.ruleset) && expected.contractVersion >= 1
    && CanonicalAssets(expected.assets) == Success(body.assets)
    && CanonicalAssets(body.assets) == Success(body.assets)
    && CanonicalIssues(body.issues, hex) == Success(body.issues)
    && (forall i <- body.issues :: IssueIntact(i))
    && result.hash == ResultHash(body)
    && body.contractId == expected.contractId && body.contractVersion == expected.contractVersion
    && body.contractHash == expected.contractHash && body.baseline == expected.baseline
    && body.ruleset == expected.ruleset
  }

  predicate NeedsHuman(issue: Issue) {
    !issue.severity.High? && (issue.blocking || issue.requiresHuman)
  }

  function Required(issues: seq<Issue>): seq<Issue> {
    if issues == [] then []
    else (if NeedsHuman(issues[0]) then [issues[0]] else []) + Required(issues[1..])
  }

  /** `match[i]` is the one disposition of issue `i`, and every disposition belongs to exactly one issue. */
  ghost predicate IsMatching(match_: seq<nat>, required: seq<Issue>, dispositions: seq<Disposition>,
                             result: ReviewerResult) {
    && |match_| == |required| == |dispositions|
    && (forall i :: 0 <= i < |match_| ==> match_[i] < |dispositions|)
    && (forall i, j :: 0 <= i < j < |match_| ==> match_[i] != match_[j])
    && (forall i, k :: 0 <= i < |required| && 0 <= k < |dispositions| ==>
          (Settles(dispositions[k], result, required[i]) <==> k == match_[i]))
  }

  ghost predicate OneToOne(required: seq<Issue>, dispositions: seq<Disposition>, result: ReviewerResult) {
    exists match_ :: IsMatching(match_, required, dispositions, result)
  }

  ghost predicate Passes(result: ReviewerResult, dispositions: seq<Disposition>) {
    && (forall i <- result.body.issues :: !i.severity.High?)
    && OneToOne(Required(result.body.issues), dispositions, result)
  }

  function MatchingIndexes(issue: Issue, dispositions: seq<Disposition>, result: ReviewerResult): set<nat> {
    set k: nat | k < |dispositions| && Settles(dispositions[k], result, issue)
  }

  lemma RequiredMembers(issues: seq<Issue>)
    ensures forall i :: i in Required(issues) <==> i in issues && NeedsHuman(i)
  {
  }

  /** Filtering keeps issue ids distinct. */
  lemma {:induction false} RequiredDistinct(issues: seq<Issue>)
    requires DistinctBy(issues, IssueId)
    ensures DistinctBy(Required(issues), IssueId)
  {
    if issues != [] {
      RequiredDistinct(issues[1..]);
      RequiredMembers(issues[1..]);
      var rest, required := Required(issues[1..]), Required(issues);
      forall i, j | 0 <= i < j < |required|
        ensures IssueId(required[i]) != IssueId(required[j])
      {
        if NeedsHuman(issues[0]) && i == 0 {
          assert required[j] == rest[j - 1] && rest[j - 1] in issues[1..];
          var k :| 0 <= k < |issues[1..]| && issues[1..][k] == required[j];
          assert issues[k + 1] == required[j];
        } else if NeedsHuman(issues[0]) {
          assert required[i] == rest[i - 1] && required[j] == rest[j - 1];
        }
      }
    }
  }

  /** Each issue so far has exactly one disposition, the one recorded for it. */
  ghost predicate EachOnce(match_: seq<nat>, required: seq<Issue>, dispositions: seq<Disposition>,
                           result: ReviewerResult) {
    && |match_| <= |required|
    && forall i :: 0 <= i < |match_| ==> MatchingIndexes(required[i], dispositions, result) == {match_[i]}
  }

  function Indexes(match_: seq<nat>): set<nat> {
    set k | k in match_
  }

  lemma {:induction false} SetOfDistinct(s: seq<nat>)
    requires forall i, j :: 0 <= i < j < |s| ==> s[i] != s[j]
    ensures |Indexes(s)| == |s|
  {
    if s != [] {
      var n := |s| - 1;
      SetOfDistinct(s[..n]);
      assert s == s[..n] + [s[n]];
      assert s[n] !in s[..n];
      assert Indexes(s) == Indexes(s[..n]) + {s[n]};
    }
  }

  /** If every issue has exactly one disposition and together they use up all of them, that is a matching. */
  lemma MatchingFound(match_: seq<nat>, required: seq<Issue>, dispositions: seq<Disposition>, result: ReviewerResult)
    requires DistinctBy(required, IssueId) && EachOnce(match_, required, dispositions, result)
    requires |match_| == |required| && |Indexes(match_)| == |dispositions|
    ensures IsMatching(match_, required, dispositions, result)
  {
    forall i | 0 <= i < |match_|
      ensures match_[i] < |dispositions| && Settles(dispositions[match_[i]], result, required[i])
    {
      assert match_[i] in MatchingIndexes(required[i], dispositions, result);
    }
    forall i, j | 0 <= i < j < |match_|
      ensures match_[i] != match_[j]
    {
      assert IssueId(required[i]) != IssueId(required[j]);
    }
    SetOfDistinct(match_);
    forall i, k: nat | 0 <= i < |required| && k < |dispositions|
      ensures Settles(dispositions[k], result, required[i]) <==> k == match_[i]
    {
      assert k in MatchingIndexes(required[i], dispositions, result) <==> Settles(dispositions[k], result, required[i]);
    }
  }

  /** A matching leaves every issue exactly one disposition and no disposition over. */
  lemma MatchingIndexesOf(match_: seq<nat>, required: seq<Issue>, dispositions: seq<Disposition>,
                          result: ReviewerResult)
    requires IsMatching(match_, required, dispositions, result)
    ensures EachOnce(match_, required, dispositions, result) && |Indexes(match_)| == |dispositions|
  {
    SetOfDistinct(match_);
  }

  lemma NotOnceNoMatching(i: nat, required: seq<Issue>, dispositions: seq<Disposition>, result: ReviewerResult)
    requires i < |required| && |MatchingIndexes(required[i], dispositions, result)| != 1
    ensures !OneToOne(required, dispositions, result)
  {
    if m :| IsMatching(m, required, dispositions, result) {
      MatchingIndexesOf(m, required, dispositions, result);
    }
  }

  /** Once every issue has exactly one disposition, only the number of dispositions used is left to compare. */
  lemma MatchingIffAllUsed(match_: seq<nat>, required: seq<Issue>, dispositions: seq<Disposition>,
                           result: ReviewerResult)
    requires DistinctBy(required, IssueId) && EachOnce(match_, required, dispositions, result) && |match_| == |required|
    ensures OneToOne(required, dispositions, result) <==> |Indexes(match_)| == |dispositions|
  {
    if |Indexes(match_)| == |dispositions| {
      MatchingFound(match_, required, dispositions, result);
    }
    if m :| IsMatching(m, required, dispositions, result) {
      MatchingIndexesOf(m, required, dispositions, result);
      forall i | 0 <= i < |m|
        ensures m[i] == match_[i]
      {
        assert m[i] in MatchingIndexes(required[i], dispositions, result);
      }
      assert m == match_;
    }
  }

  lemma Singleton(matches: set<nat>, k: nat)
    requires |matches| == 1 && k in matches
    ensures matches == {k}
  {
    assert |matches - {k}| == 0;
  }

  lemma OneMore(match_: seq<nat>, k: nat, required: seq<Issue>, dispositions: seq<Disposition>, result: ReviewerResult)
    requires |match_| < |required| && EachOnce(match_, required, dispositions, result)
    requires var matches := MatchingIndexes(required[|match_|], dispositions, result); |matches| == 1 && k in matches
    ensures EachOnce(match_ + [k], required, dispositions, result)
    ensures Indexes(match_ + [k]) == Indexes(match_) + {k}
  {
    Singleton(MatchingIndexes(required[|match_|], dispositions, result), k);
  }

  method ValidateReviewerGate(
      reviewed: Option<ReviewerResult>, dispositions: seq<Disposition>, expected: Expected, hex: IssueHash -> string)
    returns (verdict: Verdict)
    ensures verdict.MissingReview? <==> reviewed.None?
    ensures verdict.StaleReview? <==> reviewed.Some? && !Current(reviewed.value, expected, hex)
    ensures verdict.Ready? <==>
            reviewed.Some? && Current(reviewed.value, expected, hex) && Passes(reviewed.value, dispositions)
  {
    if reviewed.None? {
      return MissingReview;
    }
    if !Current(reviewed.value, expected, hex) {
      return StaleReview;
    }
    DistinctAsCanonical(reviewed.value.body.issues, hex);
    var unresolved := MatchDispositions(reviewed.value, dispositions);
    return if unresolved then Unresolved else Ready;
  }

  /** One pass over the issues that need a human, collecting the indexes of the dispositions used. */
  method MatchDispositions(result: ReviewerResult, dispositions: seq<Disposition>) returns (unresolved: bool)
    requires DistinctBy(result.body.issues, IssueId)
    ensures !unresolved <==> Passes(result, dispositions)
  {
    var required := Required(result.body.issues);
    RequiredDistinct(result.body.issues);
    unresolved := exists i <- result.body.issues :: i.severity.High?;
    var matchedIndexes: set<nat> := {};
    ghost var match_: seq<nat> := [];
    for i := 0 to |required|
      invariant unresolved ==> !Passes(result, dispositions)
      invariant !unresolved ==> forall x <- result.body.issues :: !x.severity.High?
      invariant !unresolved ==>
                  |match_| == i && EachOnce(match_, required, dispositions, result) && matchedIndexes == Indexes(match_)
    {
      var matches := MatchingIndexes(required[i], dispositions, result);
      if |matches| != 1 {
        NotOnceNoMatching(i, required, dispositions, result);
        unresolved := true;
      } else {
        var k :| k in matches;
        matchedIndexes := matchedIndexes + {k};
        if !unresolved {
          OneMore(match_, k, required, dispositions, result);
          match_ := match_ + [k];
        }
      }
    }
    if !unresolved {
      MatchingIffAllUsed(match_, required, dispositions, result);
    }
    if |matchedIndexes| != |dispositions| {
      unresolved := true;
    }
  }

  lemma DistinctAsCanonical(issues: seq<Issue>, hex: IssueHash -> string)
    requires CanonicalIssues(issues, hex).Success?
    ensures DistinctBy(issues, IssueId)
  {
  }

  /** A ready gate leaves no issue open: none is high, and each one that needs a human has its own valid decision. */
  lemma PassesMeans(result: ReviewerResult, dispositions: seq<Disposition>, issue: Issue)
    requires Passes(result, dispositions) && issue in result.body.issues
    ensures !issue.severity.High?
    ensures NeedsHuman(issue) ==> exists d <- dispositions :: Settles(d, result, issue)
    ensures |dispositions| == |Required(result.body.issues)|
  {
    var required := Required(result.body.issues);
    var m :| IsMatching(m, required, dispositions, result);
    RequiredMembers(result.body.issues);
    if NeedsHuman(issue) {
      var i :| 0 <= i < |required| && required[i] == issue;
      assert Settles(dispositions[m[i]], result, required[i]);
    }
  }

  // ----- The gate, said about the fields of issues and dispositions -----

  /** Result id, result hash and the five fields that identify an issue agree. */
  predicate SpeaksAbout(d: Disposition, result: ReviewerResult, issue: Issue) {
    && d.resultId == result.body.resultId && d.resultHash == result.hash
    && d.issueId == issue.id && d.issueHash == issue.hash && d.issueCode == issue.code
    && d.fieldPath == issue.fieldPath && d.evidenceHash == issue.evidenceHash
  }

  /** Exactly one of the dispositions speaks about the issue. */
  ghost predicate DecidedOnce(issue: Issue, result: ReviewerResult, dispositions: seq<Disposition>) {
    exists k ::
      && 0 <= k < |dispositions| && SpeaksAbout(dispositions[k], result, issue)
      && forall j :: 0 <= j < |dispositions| && SpeaksAbout(dispositions[j], result, issue) ==> j == k
  }

  /** No issue is high, and each one that blocks or asks for a human is decided once. */
  ghost predicate EachDecided(result: ReviewerResult, dispositions: seq<Disposition>) {
    forall issue <- result.body.issues ::
      && issue.severity != High
      && (issue.blocking || issue.requiresHuman ==> DecidedOnce(issue, result, dispositions))
  }

  /** Every disposition speaks about an issue that blocks or asks for a human. */
  ghost predicate NoneLeftOver(result: ReviewerResult, dispositions: seq<Disposition>) {
    forall d <- dispositions :: exists issue <- result.body.issues ::
      (issue.blocking || issue.requiresHuman) && SpeaksAbout(d, result, issue)
  }

  lemma PassingDecides(result: ReviewerResult, dispositions: seq<Disposition>)
    requires Passes(result, dispositions) && forall d <- dispositions :: DispositionValid(d)
    ensures EachDecided(result, dispositions) && NoneLeftOver(result, dispositions)
  {
    var required := Required(result.body.issues);
    var m :| IsMatching(m, required, dispositions, result);
    RequiredMembers(result.body.issues);
    forall issue <- result.body.issues | issue.blocking || issue.requiresHuman
      ensures DecidedOnce(issue, result, dispositions)
    {
      var i :| 0 <= i < |required| && required[i] == issue;
      forall k | 0 <= k < |dispositions|
        ensures SpeaksAbout(dispositions[k], result, issue) <==> k == m[i]
      {
        assert dispositions[k] in dispositions;
        assert Settles(dispositions[k], result, required[i]) <==> k == m[i];
      }
      assert m[i] < |dispositions| && SpeaksAbout(dispositions[m[i]], result, issue);
    }
    MatchingIndexesOf(m, required, dispositions, result);
    forall d <- dispositions
      ensures exists issue <- result.body.issues ::
                (issue.blocking || issue.requiresHuman) && SpeaksAbout(d, result, issue)
    {
      var k: nat :| k < |dispositions| && dispositions[k] == d;
      AllIndexes(m, |dispositions|);
      assert k in m;
      var i :| 0 <= i < |m| && m[i] == k;
      assert Settles(dispositions[k], result, required[i]) && required[i] in required;
    }
  }

  function Below(n: nat): set<nat> {
    if n == 0 then {} else Below(n - 1) + {n - 1}
  }

  lemma {:induction false} BelowMembers(n: nat)
    ensures |Below(n)| == n && forall k: nat :: k in Below(n) <==> k < n
  {
    if n > 0 {
      BelowMembers(n - 1);
    }
  }

  lemma SubsetOfSameSize(a: set<nat>, b: set<nat>)
    requires a <= b && |a| == |b|
    ensures a == b
  {
    if k :| k in b && k !in a {
      SubsetSize(a, b - {k});
    }
  }

  lemma {:induction false} SubsetSize(a: set<nat>, b: set<nat>)
    requires a <= b
    ensures |a| <= |b|
  {
    if a != {} {
      var k :| k in a;
      SubsetSize(a - {k}, b - {k});
    }
  }

  lemma AllIndexes(m: seq<nat>, n: nat)
    requires |Indexes(m)| == n && forall i :: 0 <= i < |m| ==> m[i] < n
    ensures forall k: nat :: k < n ==> k in m
  {
    BelowMembers(n);
    SubsetOfSameSize(Indexes(m), Below(n));
    forall k: nat | k < n
      ensures k in m
    {
      assert k in Below(n);
    }
  }

  lemma DecidedMatches(issue: Issue, result: ReviewerResult, dispositions: seq<Disposition>) returns (k: nat)
    requires DecidedOnce(issue, result, dispositions) && forall d <- dispositions :: DispositionValid(d)
    ensures MatchingIndexes(issue, dispositions, result) == {k}
  {
    k :| k < |dispositions| && SpeaksAbout(dispositions[k], result, issue)
         && forall j :: 0 <= j < |dispositions| && SpeaksAbout(dispositions[j], result, issue) ==> j == k;
    assert dispositions[k] in dispositions;
  }

  lemma {:induction false} EachMatches(n: nat, required: seq<Issue>, result: ReviewerResult,
                                       dispositions: seq<Disposition>) returns (m: seq<nat>)
    requires n <= |required| && forall d <- dispositions :: DispositionValid(d)
    requires forall issue <- required :: DecidedOnce(issue, result, dispositions)
    ensures |m| == n && EachOnce(m, required, dispositions, result)
  {
    if n == 0 {
      m := [];
    } else {
      m := EachMatches(n - 1, required, result, dispositions);
      assert required[n - 1] in required;
      var k := DecidedMatches(required[n - 1], result, dispositions);
      m := m + [k];
    }
  }

  lemma MatchesAreIndexes(m: seq<nat>, required: seq<Issue>, result: ReviewerResult, dispositions: seq<Disposition>)
    requires EachOnce(m, required, dispositions, result)
    ensures forall k :: k in m ==> k < |dispositions|
  {
    forall k | k in m
      ensures k < |dispositions|
    {
      var i :| 0 <= i < |m| && m[i] == k;
      assert k in MatchingIndexes(required[i], dispositions, result);
    }
  }

  lemma EveryIndexMatches(m: seq<nat>, required: seq<Issue>, result: ReviewerResult, dispositions: seq<Disposition>,
                          k: nat)
    requires EachOnce(m, required, dispositions, result) && |m| == |required| && k < |dispositions|
    requires required == Required(result.body.issues) && NoneLeftOver(result, dispositions)
    requires DispositionValid(dispositions[k]) && forall i <- result.body.issues :: i.severity != High
    ensures k in m
  {
    RequiredMembers(result.body.issues);
    assert dispositions[k] in dispositions;
    var issue :| issue in result.body.issues && (issue.blocking || issue.requiresHuman)
                 && SpeaksAbout(dispositions[k], result, issue);
    assert NeedsHuman(issue);
    var i :| 0 <= i < |required| && required[i] == issue;
    assert k in MatchingIndexes(required[i], dispositions, result);
  }

  lemma DecidedPasses(result: ReviewerResult, dispositions: seq<Disposition>)
    requires DistinctBy(result.body.issues, IssueId) && forall d <- dispositions :: DispositionValid(d)
    requires EachDecided(result, dispositions) && NoneLeftOver(result, dispositions)
    ensures Passes(result, dispositions)
  {
    var required := Required(result.body.issues);
    RequiredMembers(result.body.issues);
    RequiredDistinct(result.body.issues);
    var m := EachMatches(|required|, required, result, dispositions);
    BelowMembers(|dispositions|);
    MatchesAreIndexes(m, required, result, dispositions);
    forall k: nat | k < |dispositions|
      ensures k in m
    {
      assert dispositions[k] in dispositions;
      EveryIndexMatches(m, required, result, dispositions, k);
    }
    assert Indexes(m) == Below(|dispositions|);
    MatchingIffAllUsed(m, required, dispositions, result);
  }

  /**
   Valid dispositions take a result with distinct issue ids through the gate exactly if no issue is high, each
   issue that blocks or asks for a human is decided by exactly one of them, and none of them is left over.
   */
  lemma GatePassesIff(result: ReviewerResult, dispositions: seq<Disposition>)
    requires DistinctBy(result.body.issues, IssueId) && forall d <- dispositions :: DispositionValid(d)
    ensures Passes(result, dispositions) <==>
            EachDecided(result, dispositions) && NoneLeftOver(result, dispositions)
  {
    if Passes(result, dispositions) {
      PassingDecides(result, dispositions);
    }
    if EachDecided(result, dispositions) && NoneLeftOver(result, dispositions) {
      DecidedPasses(result, dispositions);
    }
  }

  /**
   An issue that asks for a human blocks the gate, blocking itself or not, unless some disposition speaks about
   it and this result; that disposition gives a reason and comes from a named actor that is no system actor.
   */
  lemma OpenIssueBlocks(result: ReviewerResult, dispositions: seq<Disposition>, issue: Issue)
    requires issue in result.body.issues && (issue.blocking || issue.requiresHuman) && Passes(result, dispositions)
    ensures issue.severity != High
    ensures exists d <- dispositions ::
              && SpeaksAbout(d, result, issue) && (d.status == "accepted" || d.status == "resolved")
              && !Blank(d.reason) && !Blank(d.actor) && Fold(Strip(d.actor)) !in SYSTEM_ACTORS
  {
    PassesMeans(result, dispositions, issue);
    var d :| d in dispositions && Settles(d, result, issue);
  }

  /**
   A current result is about the expected contract, version, content, baseline and rule set, and its digests are
   those of what it says: none of its issues was altered after it was hashed, no issue id occurs twice.
   */
  lemma CurrentMeans(result: ReviewerResult, expected: Expected, hex: IssueHash -> string)
    requires Current(result, expected, hex)
    ensures result.body.contractId == expected.contractId && result.body.contractVersion == expected.contractVersion
    ensures result.body.contractHash == expected.contractHash && result.body.baseline == expected.baseline
    ensures result.body.ruleset == expected.ruleset && multiset(result.body.assets) == multiset(expected.assets)
    ensures result.hash.body == result.body
    ensures forall i, j :: 0 <= i < j < |result.body.issues| ==> result.body.issues[i].id != result.body.issues[j].id
    ensures forall i <- result.body.issues ::
              && i.evidenceHash.checks == i.checks && i.checks != []
              && i.hash == IssueHash(i.code, i.severity, i.blocking, i.requiresHuman, i.fieldPath, i.checks)
  {
    SortIsOrderedPermutation(expected.assets, AssetKey);
    var issues := result.body.issues;
    forall i, j | 0 <= i < j < |issues|
      ensures issues[i].id != issues[j].id
    {
      assert IssueId(issues[i]) != IssueId(issues[j]);
    }
    forall i <- issues
      ensures && i.evidenceHash.checks == i.checks && i.checks != []
              && i.hash == IssueHash(i.code, i.severity, i.blocking, i.requiresHuman, i.fieldPath, i.checks)
    {
      assert IssueIntact(i);
    }
  }
}
