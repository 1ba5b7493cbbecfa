/** Content-addressed reviewer findings, human dispositions and the gate that compares them. */
module Review {
  import opened Wrappers
  import opened Text
  import opened Sorting
  import opened Decisions
  import Baseline

  datatype Severity = High | Warning | Low

  datatype Check = Check(code: string, passed: bool, detail: string)

  /** SHA-256 digests of canonical JSON, equal exactly for equal payloads. */
  datatype EvidenceHash = EvidenceHash(checks: seq<Check>)

  datatype IssueHash = IssueHash(
    code: string, severity: Severity, blocking: bool, requiresHuman: bool, fieldPath: string, checks: seq<Check>)

  datatype Issue = Issue(
    id: string, hash: IssueHash, code: string, severity: Severity, blocking: bool, requiresHuman: bool,
    fieldPath: string, checks: seq<Check>, evidenceHash: EvidenceHash, repairHint: string)

  type Asset = (string, string)

  datatype Body = Body(
    resultId: string, contractId: string, contractVersion: nat, contractHash: ContentHash,
    baseline: Baseline.Fingerprint, ruleset: string, assets: seq<Asset>, issues: seq<Issue>)

  datatype ResultHash = ResultHash(body: Body)

  datatype ReviewerResult = ReviewerResult(body: Body, hash: ResultHash)

  datatype Disposition = Disposition(
    issueId: string, issueHash: IssueHash, issueCode: string, fieldPath: string, evidenceHash: EvidenceHash,
    status: string, reason: string, actor: string, decidedAt: string, resultId: string, resultHash: ResultHash)

  datatype ReviewError =
    | ChecksRequired | DuplicateChecks | HighMustBlock | HashMismatch | NotCanonicalOrder
    | AssetsRequired | DuplicateAssets | DuplicateIssueIds | DuplicateIssues | BlankText

  // ----- Canonical order -----

  function CheckKey(c: Check): Key {
    [c.code, if c.passed then "1" else "0", c.detail]
  }

  function AssetKey(a: Asset): Key {
    [a.0, a.1]
  }

  /** `hex` is the hexadecimal rendering of an issue's digest, which takes part in the sort key. */
  function IssueKey(hex: IssueHash -> string): Issue -> Key {
    (i: Issue) => [i.fieldPath, i.code, hex(i.hash), i.id]
  }

  function Identity<T>(x: T): T { x }

  function IssueId(i: Issue): string { i.id }

  function HashOf(i: Issue): IssueHash { i.hash }

  function AssetName(a: Asset): string { a.0 }

  function CanonicalChecks(checks: seq<Check>): Result<seq<Check>, ReviewError> {
    if checks == [] then Failure(ChecksRequired)
    else if exists c <- checks :: Blank(c.code) || Blank(c.detail) then Failure(BlankText)
    else if !DistinctBy(checks, Identity) then Failure(DuplicateChecks)
    else Success(Sort(checks, CheckKey))
  }

  function CanonicalAssets(assets: seq<Asset>): Result<seq<Asset>, ReviewError> {
    if assets == [] then Failure(AssetsRequired)
    else if exists a <- assets :: Blank(a.0) || Blank(a.1) then Failure(BlankText)
    else if !DistinctBy(assets, AssetName) then Failure(DuplicateAssets)
    else Success(Sort(assets, AssetKey))
  }

  function CanonicalIssues(issues: seq<Issue>, hex: IssueHash -> string): Result<seq<Issue>, ReviewError> {
    if !DistinctBy(issues, IssueId) then Failure(DuplicateIssueIds)
    else if !DistinctBy(issues, HashOf) then Failure(DuplicateIssues)
    else Success(Sort(issues, IssueKey(hex)))
  }

  // ----- Building and checking values -----

  function IssueDigest(i: Issue): IssueHash {
    IssueHash(i.code, i.severity, i.blocking, i.requiresHuman, i.fieldPath, i.checks)
  }

  /** The checks an issue's constructor makes. */
  function CheckIssue(i: Issue): Result<Issue, ReviewError> {
    if Blank(i.id) || Blank(i.code) || Blank(i.fieldPath) || Blank(i.repairHint) then Failure(BlankText)
    else if i.severity.High? && !i.blocking then Failure(HighMustBlock)
    else
      var canonical :- CanonicalChecks(i.checks);
      if i.checks != canonical then Failure(NotCanonicalOrder)
      else if i.evidenceHash != EvidenceHash(canonical) || i.hash != IssueDigest(i) then Failure(HashMismatch)
      else Success(i)
  }

  function BuildIssue(
      id: string, code: string, severity: Severity, blocking: bool, requiresHuman: bool, fieldPath: string,
      checks: seq<Check>, repairHint: string)
    : Result<Issue, ReviewError>
  {
    var canonical :- CanonicalChecks(checks);
    CheckIssue(Issue(id, IssueHash(code, severity, blocking, requiresHuman, fieldPath, canonical), code, severity,
                     blocking, requiresHuman, fieldPath, canonical, EvidenceHash(canonical), repairHint))
  }

  /** The constructor: canonical assets and issues, intact issues, and a digest of exactly this body. */
  function Construct(body: Body, hash: ResultHash, hex: IssueHash -> string): Result<ReviewerResult, ReviewError> {
    if Blank(body.resultId) || Blank(body.contractId) || Blank(body.ruleset) then Failure(BlankText)
    else
      var assets :- CanonicalAssets(body.assets);
      var issues :- CanonicalIssues(body.issues, hex);
      if body.assets != assets || body.issues != issues then Failure(NotCanonicalOrder)
      else if exists i <- issues :: CheckIssue(i).Failure? then Failure(HashMismatch)
      else if hash != ResultHash(body) then Failure(HashMismatch)
      else Success(ReviewerResult(body, hash))
  }

  /** Sorts assets and issues first, and digests the sorted body. */
  function Build(body: Body, hex: IssueHash -> string): Result<ReviewerResult, ReviewError> {
    var assets :- CanonicalAssets(body.assets);
    var issues :- CanonicalIssues(body.issues, hex);
    var canonical := body.(assets := assets, issues := issues);
    Construct(canonical, ResultHash(canonical), hex)
  }

  /** The same body with its lists in another order. */
  ghost predicate SameUpToOrder(a: Body, b: Body) {
    && a.(assets := [], issues := []) == b.(assets := [], issues := [])
    && multiset(a.assets) == multiset(b.assets)
    && multiset(a.issues) == multiset(b.issues)
  }

  lemma CheckKeyDistinguishes(checks: seq<Check>)
    ensures Distinguishes(CheckKey, checks)
  {
    forall x, y | x in checks && y in checks && CheckKey(x) == CheckKey(y)
      ensures x == y
    {
      assert CheckKey(x)[0] == CheckKey(y)[0] && CheckKey(x)[1] == CheckKey(y)[1] && CheckKey(x)[2] == CheckKey(y)[2];
      assert "1"[0] != "0"[0];
    }
  }

  lemma AssetKeyDistinguishes(assets: seq<Asset>)
    ensures Distinguishes(AssetKey, assets)
  {
    forall x, y | x in assets && y in assets && AssetKey(x) == AssetKey(y)
      ensures x == y
    {
      assert AssetKey(x)[0] == x.0 && AssetKey(x)[1] == x.1 && AssetKey(y)[0] == y.0 && AssetKey(y)[1] == y.1;
    }
  }

  lemma IssueKeyDistinguishes(issues: seq<Issue>, hex: IssueHash -> string)
    requires DistinctBy(issues, IssueId)
    ensures Distinguishes(IssueKey(hex), issues)
  {
    var key := IssueKey(hex);
    forall x, y | x in issues && y in issues && key(x) == key(y)
      ensures x == y
    {
      assert key(x)[3] == x.id && key(y)[3] == y.id;
      var i :| 0 <= i < |issues| && issues[i] == x;
      var j :| 0 <= j < |issues| && issues[j] == y;
      assert IssueId(issues[i]) == IssueId(issues[j]);
    }
  }

  lemma SameMembers<T>(a: seq<T>, b: seq<T>)
    requires multiset(a) == multiset(b)
    ensures forall x :: x in a <==> x in b
  {
    assert forall x :: x in a <==> x in multiset(a);
  }

  lemma DistinctBothWays<T, K>(a: seq<T>, b: seq<T>, f: T -> K)
    requires multiset(a) == multiset(b)
    ensures DistinctBy(a, f) <==> DistinctBy(b, f)
  {
    if DistinctBy(a, f) {
      DistinctByPermutation(a, b, f);
    }
    if DistinctBy(b, f) {
      DistinctByPermutation(b, a, f);
    }
  }

  /** Evidence checks have one canonical form, whatever order they are given in. */
  lemma ChecksForgetOrder(a: seq<Check>, b: seq<Check>)
    requires multiset(a) == multiset(b)
    ensures CanonicalChecks(a) == CanonicalChecks(b)
  {
    SameLength(a, b);
    SameMembers(a, b);
    DistinctBothWays(a, b, Identity);
    CheckKeyDistinguishes(a);
    SortForgetsOrder(a, b, CheckKey);
  }

  /** Reordering the evidence checks of an issue changes neither the issue nor its hashes. */
  lemma IssueForgetsOrder(
      id: string, code: string, severity: Severity, blocking: bool, requiresHuman: bool, fieldPath: string,
      a: seq<Check>, b: seq<Check>, repairHint: string)
    requires multiset(a) == multiset(b)
    ensures BuildIssue(id, code, severity, blocking, requiresHuman, fieldPath, a, repairHint) ==
            BuildIssue(id, code, severity, blocking, requiresHuman, fieldPath, b, repairHint)
  {
    ChecksForgetOrder(a, b);
  }

  lemma AssetsForgetOrder(a: seq<Asset>, b: seq<Asset>)
    requires multiset(a) == multiset(b)
    ensures CanonicalAssets(a) == CanonicalAssets(b)
  {
    SameLength(a, b);
    SameMembers(a, b);
    DistinctBothWays(a, b, AssetName);
    AssetKeyDistinguishes(a);
    SortForgetsOrder(a, b, AssetKey);
  }

  lemma IssuesForgetOrder(a: seq<Issue>, b: seq<Issue>, hex: IssueHash -> string)
    requires multiset(a) == multiset(b)
    ensures CanonicalIssues(a, hex) == CanonicalIssues(b, hex)
  {
    DistinctBothWays(a, b, IssueId);
    DistinctBothWays(a, b, HashOf);
    if DistinctBy(a, IssueId) {
      IssueKeyDistinguishes(a, hex);
      SortForgetsOrder(a, b, IssueKey(hex));
    }
  }

  /** A reviewer result does not depend on the order in which its assets and issues were given. */
  lemma BuildForgetsOrder(a: Body, b: Body, hex: IssueHash -> string)
    requires SameUpToOrder(a, b)
    ensures Build(a, hex) == Build(b, hex)
  {
    AssetsForgetOrder(a.assets, b.assets);
    IssuesForgetOrder(a.issues, b.issues, hex);
    if CanonicalAssets(a.assets).Success? && CanonicalIssues(a.issues, hex).Success? {
      var assets, issues := CanonicalAssets(a.assets).value, CanonicalIssues(a.issues, hex).value;
      assert a.(assets := assets, issues := issues) ==
             a.(assets := [], issues := []).(assets := assets, issues := issues);
      assert b.(assets := assets, issues := issues) ==
             b.(assets := [], issues := []).(assets := assets, issues := issues);
    }
  }

  lemma SortedIsCanonical(body: Body, hex: IssueHash -> string)
    requires CanonicalAssets(body.assets).Success? && CanonicalIssues(body.issues, hex).Success?
    ensures var assets, issues := CanonicalAssets(body.assets).value, CanonicalIssues(body.issues, hex).value;
            CanonicalAssets(assets) == Success(assets) && CanonicalIssues(issues, hex) == Success(issues)
  {
    var assets, issues := CanonicalAssets(body.assets).value, CanonicalIssues(body.issues, hex).value;
    SortIsOrderedPermutation(body.assets, AssetKey);
    SortIsOrderedPermutation(body.issues, IssueKey(hex));
    AssetsForgetOrder(body.assets, assets);
    IssuesForgetOrder(body.issues, issues, hex);
  }

  /**
   The constructor accepts exactly what `Build` makes of the same body; in particular `Build` of an
   already built body gives it back.
   */
  lemma ConstructIffBuild(body: Body, hash: ResultHash, hex: IssueHash -> string)
    ensures Construct(body, hash, hex).Success? <==> Build(body, hex) == Success(ReviewerResult(body, hash))
    ensures Build(body, hex).Success? ==> Build(Build(body, hex).value.body, hex) == Build(body, hex)
  {
    if CanonicalAssets(body.assets).Success? && CanonicalIssues(body.issues, hex).Success? {
      SortedIsCanonical(body, hex);
      var canonical := body.(assets := CanonicalAssets(body.assets).value,
                             issues := CanonicalIssues(body.issues, hex).value);
      assert canonical.(assets := canonical.assets, issues := canonical.issues) == canonical;
      assert body.(assets := body.assets, issues := body.issues) == body;
    }
  }

  // ----- What a constructed result is -----

  /** Named, in order of name and version, none twice. */
  ghost predicate AssetsFine(assets: seq<Asset>) {
    && assets != [] && assets == Sort(assets, AssetKey)
    && (forall i :: 0 <= i < |assets| ==> !Blank(assets[i].0) && !Blank(assets[i].1))
    && (forall i, j :: 0 <= i < j < |assets| ==> assets[i].0 != assets[j].0)
  }

  ghost predicate ChecksFine(checks: seq<Check>) {
    && checks != [] && checks == Sort(checks, CheckKey)
    && (forall i :: 0 <= i < |checks| ==> !Blank(checks[i].code) && !Blank(checks[i].detail))
    && (forall i, j :: 0 <= i < j < |checks| ==> checks[i] != checks[j])
  }

  /** A high issue blocks, and both digests are those of what the issue says. */
  ghost predicate IssueFine(i: Issue) {
    && !Blank(i.id) && !Blank(i.code) && !Blank(i.fieldPath) && !Blank(i.repairHint)
    && (i.severity == High ==> i.blocking) && ChecksFine(i.checks) && i.evidenceHash.checks == i.checks
    && i.hash == IssueHash(i.code, i.severity, i.blocking, i.requiresHuman, i.fieldPath, i.checks)
  }

  ghost predicate IssuesFine(issues: seq<Issue>, hex: IssueHash -> string) {
    && issues == Sort(issues, IssueKey(hex))
    && (forall i, j :: 0 <= i < j < |issues| ==> issues[i].id != issues[j].id && issues[i].hash != issues[j].hash)
    && (forall i :: 0 <= i < |issues| ==> IssueFine(issues[i]))
  }

  lemma EachBlank<T>(xs: seq<T>, bad: T -> bool)
    ensures (exists x <- xs :: bad(x)) <==> exists i :: 0 <= i < |xs| && bad(xs[i])
  {
    if x :| x in xs && bad(x) {
      var i :| 0 <= i < |xs| && xs[i] == x;
    }
  }

  lemma AssetsFineIff(assets: seq<Asset>)
    ensures AssetsFine(assets) <==> CanonicalAssets(assets) == Success(assets)
  {
    EachBlank(assets, (a: Asset) => Blank(a.0) || Blank(a.1));
    assert DistinctBy(assets, AssetName) <==> forall i, j :: 0 <= i < j < |assets| ==> assets[i].0 != assets[j].0 by {
      assert forall i :: 0 <= i < |assets| ==> AssetName(assets[i]) == assets[i].0;
    }
  }

  lemma ChecksFineIff(checks: seq<Check>)
    ensures ChecksFine(checks) <==> CanonicalChecks(checks) == Success(checks)
  {
    EachBlank(checks, (c: Check) => Blank(c.code) || Blank(c.detail));
    assert DistinctBy(checks, Identity) <==> forall i, j :: 0 <= i < j < |checks| ==> checks[i] != checks[j] by {
      assert forall i :: 0 <= i < |checks| ==> Identity(checks[i]) == checks[i];
    }
  }

  lemma IssueFineIff(i: Issue)
    ensures IssueFine(i) <==> CheckIssue(i).Success?
  {
    ChecksFineIff(i.checks);
  }

  lemma IssueOrderFineIff(issues: seq<Issue>, hex: IssueHash -> string)
    ensures CanonicalIssues(issues, hex) == Success(issues) <==>
            && issues == Sort(issues, IssueKey(hex))
            && forall i, j :: 0 <= i < j < |issues| ==> issues[i].id != issues[j].id && issues[i].hash != issues[j].hash
  {
    assert forall i :: 0 <= i < |issues| ==> IssueId(issues[i]) == issues[i].id && HashOf(issues[i]) == issues[i].hash;
  }

  lemma AllIssuesFine(issues: seq<Issue>)
    ensures (exists i <- issues :: CheckIssue(i).Failure?) <==>
            !forall i :: 0 <= i < |issues| ==> IssueFine(issues[i])
  {
    EachBlank(issues, (i: Issue) => CheckIssue(i).Failure?);
    forall i | 0 <= i < |issues|
      ensures IssueFine(issues[i]) <==> CheckIssue(issues[i]).Success?
    {
      IssueFineIff(issues[i]);
    }
  }

  /** The constructor accepts a result exactly if its assets and issues are in order and every digest fits. */
  lemma ConstructIffFine(body: Body, hash: ResultHash, hex: IssueHash -> string)
    ensures Construct(body, hash, hex).Success? <==>
            && !Blank(body.resultId) && !Blank(body.contractId) && !Blank(body.ruleset) && hash.body == body
            && AssetsFine(body.assets) && IssuesFine(body.issues, hex)
  {
    AssetsFineIff(body.assets);
    IssueOrderFineIff(body.issues, hex);
    AllIssuesFine(body.issues);
  }
}
