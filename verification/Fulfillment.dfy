/** Deriving from the active evidence records whether a frozen contract is fulfilled. */
module Fulfillment {
  import opened Wrappers
  import opened Text
  import opened Sorting
  import opened Evidence
  import opened FulfillmentRecords
  import Diffs

  /**
   A field that has to be fulfilled: its frozen value, whether it is the reason of an empty plan, and whether the
   value is an enumeration member, whose type no asserted value has.
   */
  datatype Field = Field(value: Option<Value>, nonApplicable: bool, member: bool)

  datatype Contract = Contract(
    binding: Binding, fields: map<string, Field>, frozen: map<string, seq<EvidenceRef<string>>>,
    chapterId: string, targetChars: int)

  datatype Artifact = Artifact(chapterId: string, targetChars: int, sourceId: string, sourceVersion: string,
                               sourceHash: string)

  datatype Status = Fulfilled | Incomplete | Stale

  datatype FieldResult = FieldResult(
    path: string, required: seq<Role>, satisfied: seq<Role>, missing: seq<Role>, recordIds: seq<string>, realized: bool)

  datatype Result = Result(binding: Binding, status: Status, fields: seq<FieldResult>, stale: seq<string>)

  /** The injected validator; one that raises counts as refusing. */
  type Validator = (EvidenceRef<string>, Option<Value>) -> bool

  const CHAPTER_ID := "chapter_contract" + "." + "chapter_id"

  const TARGET_CHARS := "chapter_contract" + "." + "target_chinese_chars"

  const METADATA: seq<string> := [CHAPTER_ID, TARGET_CHARS]

  function ExpectedValue(c: Contract, path: string): Option<Value>
    requires path in c.fields || path in METADATA
  {
    if path in c.fields then c.fields[path].value
    else if path == CHAPTER_ID then Some(Text(c.chapterId))
    else Some(Number(c.targetChars))
  }

  /** Equal in value and in type. */
  predicate Matches(c: Contract, path: string, asserted: Option<Value>)
    requires path in c.fields || path in METADATA
  {
    asserted == ExpectedValue(c, path) && !(path in c.fields && c.fields[path].member)
  }

  /** The record is about something else, or its evidence does not show the frozen value. */
  predicate IsStale(c: Contract, validator: Validator, r: Record) {
    || r.binding != c.binding
    || (r.fieldPath !in c.fields && r.fieldPath !in METADATA)
    || !Matches(c, r.fieldPath, r.evidence.assertedValue)
    || !validator(r.evidence, ExpectedValue(c, r.fieldPath))
  }

  /** The usable records about one path, in the order given. */
  function Usable(c: Contract, validator: Validator, records: seq<Record>, path: string): seq<Record> {
    if records == [] then []
    else
      var last := records[|records| - 1];
      Usable(c, validator, records[..|records| - 1], path)
      + if !IsStale(c, validator, last) && last.fieldPath == path then [last] else []
  }

  function StaleIds(c: Contract, validator: Validator, records: seq<Record>): set<string> {
    set r <- records | IsStale(c, validator, r) :: r.id
  }

  function RolesOf(records: seq<Record>): set<Role> {
    set r <- records :: r.evidence.role
  }

  /** The roles that the frozen contract's own evidence already covers. */
  function FrozenRoles(c: Contract, path: string): set<Role>
    requires path in c.fields
  {
    if path in c.frozen then set e <- c.frozen[path] | Matches(c, path, e.assertedValue) :: e.role else {}
  }

  function RequiredRoles(nonApplicable: bool): seq<Role> {
    if nonApplicable then [Intent, NonApplicability, Verification] else [Intent, Verification, Realization]
  }

  function Pick(roles: seq<Role>, have: set<Role>, wanted: bool): seq<Role> {
    if roles == [] then []
    else (if (roles[0] in have) == wanted then [roles[0]] else []) + Pick(roles[1..], have, wanted)
  }

  function IdKey(id: string): Key { [id] }

  function IdsOf(records: seq<Record>): (ids: seq<string>)
    ensures |ids| == |records| && forall i :: 0 <= i < |ids| ==> ids[i] == records[i].id
  {
    seq(|records|, i requires 0 <= i < |records| => records[i].id)
  }

  function MakeResult(path: string, required: seq<Role>, have: set<Role>, external: seq<Record>,
                      realized: bool): FieldResult {
    FieldResult(path, required, Pick(required, have, true), Pick(required, have, false),
                Sort(IdsOf(external), IdKey), realized)
  }

  function FieldResultFor(c: Contract, path: string, external: seq<Record>): FieldResult
    requires path in c.fields
  {
    MakeResult(path, RequiredRoles(c.fields[path].nonApplicable), FrozenRoles(c, path) + RolesOf(external), external,
               false)
  }

  /** A verification that cites the very artifact whose metadata matches the contract. */
  predicate VerifiesArtifact(a: Artifact, path: string, r: Record) {
    && r.evidence.role == Verification
    && r.evidence.sourceId == a.sourceId && r.evidence.sourceVersion == a.sourceVersion
    && r.evidence.sourceContentHash == a.sourceHash
    && r.evidence.assertedValue == Some(if path == CHAPTER_ID then Text(a.chapterId) else Number(a.targetChars))
  }

  predicate Realized(c: Contract, a: Artifact, path: string, external: seq<Record>) {
    && a.chapterId == c.chapterId && a.targetChars == c.targetChars
    && exists r <- external :: VerifiesArtifact(a, path, r)
  }

  function MetadataResultFor(c: Contract, a: Artifact, path: string, external: seq<Record>): FieldResult {
    var realized := Realized(c, a, path, external);
    MakeResult(path, RequiredRoles(false),
               {Intent} + RolesOf(external) + (if realized then {Realization} else {}), external, realized)
  }

  function PathKey(f: FieldResult): Key { [f.path] }

  function FieldResults(c: Contract, validator: Validator, records: seq<Record>,
                        paths: seq<string>): (fields: seq<FieldResult>)
    requires forall p <- paths :: p in c.fields
    ensures |fields| == |paths|
  {
    seq(|paths|, i requires 0 <= i < |paths| => FieldResultFor(c, paths[i], Usable(c, validator, records, paths[i])))
  }

  function MetadataResults(c: Contract, validator: Validator, a: Artifact, records: seq<Record>, paths: seq<string>)
    : (fields: seq<FieldResult>)
    ensures |fields| == |paths|
  {
    seq(|paths|, i requires 0 <= i < |paths| =>
      MetadataResultFor(c, a, paths[i], Usable(c, validator, records, paths[i])))
  }

  lemma PathsAreFields(c: Contract)
    ensures forall p <- Diffs.SortedPaths(c.fields.Keys) :: p in c.fields
  {
    Diffs.SortedPathsListsAll(c.fields.Keys);
  }

  function Complete(fields: seq<FieldResult>): bool {
    forall f <- fields :: f.missing == []
  }

  function Evaluate(c: Contract, validator: Validator, a: Artifact, records: seq<Record>): Result {
    PathsAreFields(c);
    var fields := FieldResults(c, validator, records, Diffs.SortedPaths(c.fields.Keys))
                  + MetadataResults(c, validator, a, records, METADATA);
    var stale := StaleIds(c, validator, records);
    Result(c.binding, if stale != {} then Stale else if Complete(fields) then Fulfilled else Incomplete,
           Sort(fields, PathKey), Diffs.SortedPaths(stale))
  }

  /**
   Of two records that Python equates but whose values differ in type a contract can use at most one: if
   the log holds the other one, the result is stale.
   */
  lemma RetypedIsStale(c: Contract, validator: Validator, artifact: Artifact, active: seq<Record>, stored: Record,
                       record: Record)
    requires SameRecord(stored, record) && stored != record
    requires stored in active && !IsStale(c, validator, record)
    ensures IsStale(c, validator, stored) && Evaluate(c, validator, artifact, active).status.Stale?
  {
    assert stored.id in StaleIds(c, validator, active);
  }

  // ----- The evaluator's loops -----

  ghost predicate Groups(byPath: map<string, seq<Record>>, c: Contract, validator: Validator, records: seq<Record>) {
    forall path {:trigger Usable(c, validator, records, path)} ::
      (if path in byPath then byPath[path] else []) == Usable(c, validator, records, path)
  }

  lemma GroupsSnoc(byPath: map<string, seq<Record>>, c: Contract, validator: Validator, records: seq<Record>, r: Record)
    requires Groups(byPath, c, validator, records)
    ensures IsStale(c, validator, r) ==> Groups(byPath, c, validator, records + [r])
    ensures !IsStale(c, validator, r) ==>
              Groups(byPath[r.fieldPath := Usable(c, validator, records, r.fieldPath) + [r]], c, validator,
                     records + [r])
  {
    assert (records + [r])[..|records|] == records;
    forall path
      ensures Usable(c, validator, records + [r], path) ==
              Usable(c, validator, records, path) + if !IsStale(c, validator, r) && r.fieldPath == path then [r] else []
    {
    }
  }

  /** Sorts the records into stale ones and groups by path. */
  method GroupRecords(c: Contract, validator: Validator, records: seq<Record>)
    returns (byPath: map<string, seq<Record>>, stale: set<string>)
    ensures Groups(byPath, c, validator, records) && stale == StaleIds(c, validator, records)
  {
    byPath, stale := map[], {};
    for i := 0 to |records|
      invariant Groups(byPath, c, validator, records[..i]) && stale == StaleIds(c, validator, records[..i])
    {
      var r := records[i];
      assert records[..i + 1] == records[..i] + [r];
      GroupsSnoc(byPath, c, validator, records[..i], r);
      if IsStale(c, validator, r) {
        stale := stale + {r.id};
      } else {
        var group := if r.fieldPath in byPath then byPath[r.fieldPath] else [];
        byPath := byPath[r.fieldPath := group + [r]];
      }
    }
    assert records[..|records|] == records;
  }

  method EvaluateFields(c: Contract, validator: Validator, byPath: map<string, seq<Record>>, paths: seq<string>,
                        ghost records: seq<Record>)
    returns (fields: seq<FieldResult>)
    requires Groups(byPath, c, validator, records) && forall p <- paths :: p in c.fields
    ensures fields == FieldResults(c, validator, records, paths)
  {
    fields := [];
    ghost var all := FieldResults(c, validator, records, paths);
    for i := 0 to |paths|
      invariant fields == all[..i]
    {
      var external := if paths[i] in byPath then byPath[paths[i]] else [];
      assert external == Usable(c, validator, records, paths[i]);
      fields := fields + [FieldResultFor(c, paths[i], external)];
    }
  }

  lemma MetadataResultAt(c: Contract, validator: Validator, a: Artifact, records: seq<Record>, paths: seq<string>,
                         i: nat)
    requires i < |paths|
    ensures MetadataResults(c, validator, a, records, paths)[i] ==
            MetadataResultFor(c, a, paths[i], Usable(c, validator, records, paths[i]))
  {
  }

  method MetadataResult(c: Contract, validator: Validator, a: Artifact, byPath: map<string, seq<Record>>, path: string,
                        ghost records: seq<Record>)
    returns (field: FieldResult)
    requires Groups(byPath, c, validator, records)
    ensures field == MetadataResultFor(c, a, path, Usable(c, validator, records, path))
  {
    var external := if path in byPath then byPath[path] else [];
    field := MetadataResultFor(c, a, path, external);
  }

  method EvaluateMetadata(c: Contract, validator: Validator, a: Artifact, byPath: map<string, seq<Record>>,
                          paths: seq<string>,
                          ghost records: seq<Record>)
    returns (fields: seq<FieldResult>)
    requires Groups(byPath, c, validator, records)
    ensures fields == MetadataResults(c, validator, a, records, paths)
  {
    fields := [];
    ghost var all := MetadataResults(c, validator, a, records, paths);
    for i := 0 to |paths|
      invariant fields == all[..i]
    {
      var field := MetadataResult(c, validator, a, byPath, paths[i], records);
      MetadataResultAt(c, validator, a, records, paths, i);
      assert field == all[i];
      fields := fields + [field];
    }
  }

  method EvaluateContract(c: Contract, validator: Validator, a: Artifact, records: seq<Record>) returns (result: Result)
    ensures result == Evaluate(c, validator, a, records)
  {
    var byPath, stale := GroupRecords(c, validator, records);
    PathsAreFields(c);
    var fields := EvaluateFields(c, validator, byPath, Diffs.SortedPaths(c.fields.Keys), records);
    var metadata := EvaluateMetadata(c, validator, a, byPath, METADATA, records);
    fields := fields + metadata;
    var status := if stale != {} then Stale else if Complete(fields) then Fulfilled else Incomplete;
    return Result(c.binding, status, Sort(fields, PathKey), Diffs.SortedPaths(stale));
  }

  // ----- The order of the records does not matter -----

  lemma {:induction false} UsableMembers(c: Contract, validator: Validator, records: seq<Record>, path: string)
    ensures forall r :: multiset(Usable(c, validator, records, path))[r] ==
              if !IsStale(c, validator, r) && r.fieldPath == path then multiset(records)[r] else 0
  {
    if records != [] {
      var n := |records| - 1;
      UsableMembers(c, validator, records[..n], path);
      assert records == records[..n] + [records[n]];
    }
  }

  lemma UsableForgetsOrder(c: Contract, validator: Validator, a: seq<Record>, b: seq<Record>, path: string)
    requires multiset(a) == multiset(b)
    ensures multiset(Usable(c, validator, a, path)) == multiset(Usable(c, validator, b, path))
  {
    UsableMembers(c, validator, a, path);
    UsableMembers(c, validator, b, path);
    var x, y := multiset(Usable(c, validator, a, path)), multiset(Usable(c, validator, b, path));
    forall r
      ensures x[r] == y[r]
    {
    }
  }

  lemma SameRecords(a: seq<Record>, b: seq<Record>)
    requires multiset(a) == multiset(b)
    ensures forall r :: r in a <==> r in b
  {
    assert forall r :: r in a <==> r in multiset(a);
  }

  lemma WithoutOne<T>(s: seq<T>, i: nat)
    requires i < |s|
    ensures multiset(s) == multiset(s[..i] + s[i + 1..]) + multiset{s[i]}
  {
    assert s == s[..i] + ([s[i]] + s[i + 1..]);
  }

  /** Without the record at `i` its id is gone once. */
  lemma IdsWithout(b: seq<Record>, i: nat) returns (rest: seq<Record>)
    requires i < |b|
    ensures |rest| == |b| - 1 && multiset(rest) == multiset(b) - multiset{b[i]}
    ensures multiset(IdsOf(b)) == multiset(IdsOf(rest)) + multiset{b[i].id}
  {
    rest := b[..i] + b[i + 1..];
    WithoutOne(b, i);
    WithoutOne(IdsOf(b), i);
    assert IdsOf(rest) == IdsOf(b)[..i] + IdsOf(b)[i + 1..];
  }

  lemma {:induction false} IdsPermute(a: seq<Record>, b: seq<Record>)
    requires multiset(a) == multiset(b)
    ensures multiset(IdsOf(a)) == multiset(IdsOf(b))
    decreases |a|
  {
    SameLength(a, b);
    if a != [] {
      assert a[0] in multiset(b);
      var i :| 0 <= i < |b| && b[i] == a[0];
      var x := IdsWithout(a, 0);
      var y := IdsWithout(b, i);
      IdsPermute(x, y);
    }
  }

  lemma ResultForgetsOrder(path: string, required: seq<Role>, have: set<Role>, a: seq<Record>, b: seq<Record>,
                           realized: bool)
    requires multiset(a) == multiset(b)
    ensures MakeResult(path, required, have, a, realized) == MakeResult(path, required, have, b, realized)
  {
    IdsPermute(a, b);
    var ids := IdsOf(a);
    forall x, y | x in ids && y in ids && IdKey(x) == IdKey(y)
      ensures x == y
    {
      assert IdKey(x)[0] == x && IdKey(y)[0] == y;
    }
    SortForgetsOrder(ids, IdsOf(b), IdKey);
  }

  lemma FieldForgetsOrder(c: Contract, validator: Validator, a: seq<Record>, b: seq<Record>, path: string)
    requires multiset(a) == multiset(b) && path in c.fields
    ensures FieldResultFor(c, path, Usable(c, validator, a, path)) ==
            FieldResultFor(c, path, Usable(c, validator, b, path))
  {
    var x, y := Usable(c, validator, a, path), Usable(c, validator, b, path);
    UsableForgetsOrder(c, validator, a, b, path);
    SameRecords(x, y);
    assert RolesOf(x) == RolesOf(y);
    ResultForgetsOrder(path, RequiredRoles(c.fields[path].nonApplicable), FrozenRoles(c, path) + RolesOf(x), x, y,
                       false);
  }

  lemma MetadataForgetsOrder(c: Contract, validator: Validator, artifact: Artifact, a: seq<Record>, b: seq<Record>,
                             path: string)
    requires multiset(a) == multiset(b)
    ensures MetadataResultFor(c, artifact, path, Usable(c, validator, a, path)) ==
            MetadataResultFor(c, artifact, path, Usable(c, validator, b, path))
  {
    var x, y := Usable(c, validator, a, path), Usable(c, validator, b, path);
    UsableForgetsOrder(c, validator, a, b, path);
    SameRecords(x, y);
    assert RolesOf(x) == RolesOf(y);
    assert Realized(c, artifact, path, x) == Realized(c, artifact, path, y);
    var realized := Realized(c, artifact, path, x);
    ResultForgetsOrder(path, RequiredRoles(false),
                       {Intent} + RolesOf(x) + (if realized then {Realization} else {}), x, y, realized);
  }

  lemma FieldResultsForgetOrder(c: Contract, validator: Validator, a: seq<Record>, b: seq<Record>, paths: seq<string>)
    requires multiset(a) == multiset(b) && forall p <- paths :: p in c.fields
    ensures FieldResults(c, validator, a, paths) == FieldResults(c, validator, b, paths)
  {
    forall i | 0 <= i < |paths|
      ensures FieldResults(c, validator, a, paths)[i] == FieldResults(c, validator, b, paths)[i]
    {
      FieldForgetsOrder(c, validator, a, b, paths[i]);
    }
  }

  lemma MetadataResultsForgetOrder(
      c: Contract, validator: Validator, artifact: Artifact, a: seq<Record>, b: seq<Record>, paths: seq<string>)
    requires multiset(a) == multiset(b)
    ensures MetadataResults(c, validator, artifact, a, paths) == MetadataResults(c, validator, artifact, b, paths)
  {
    forall i | 0 <= i < |paths|
      ensures MetadataResults(c, validator, artifact, a, paths)[i] ==
              MetadataResults(c, validator, artifact, b, paths)[i]
    {
      MetadataForgetsOrder(c, validator, artifact, a, b, paths[i]);
    }
  }

  /** Whatever order the active records come in, the whole result is the same. */
  lemma EvaluationForgetsOrder(c: Contract, validator: Validator, artifact: Artifact, a: seq<Record>, b: seq<Record>)
    requires multiset(a) == multiset(b)
    ensures Evaluate(c, validator, artifact, a) == Evaluate(c, validator, artifact, b)
  {
    PathsAreFields(c);
    FieldResultsForgetOrder(c, validator, a, b, Diffs.SortedPaths(c.fields.Keys));
    MetadataResultsForgetOrder(c, validator, artifact, a, b, METADATA);
    SameRecords(a, b);
    assert StaleIds(c, validator, a) == StaleIds(c, validator, b);
  }

  // ----- What the status means -----

  /** Some usable record about `path` has this role. */
  predicate Shown(c: Contract, validator: Validator, records: seq<Record>, path: string, role: Role) {
    exists r <- records :: !IsStale(c, validator, r) && r.fieldPath == path && r.evidence.role == role
  }

  predicate FieldMet(c: Contract, validator: Validator, records: seq<Record>, path: string)
    requires path in c.fields
  {
    forall role <- RequiredRoles(c.fields[path].nonApplicable) ::
      role in FrozenRoles(c, path) || Shown(c, validator, records, path, role)
  }

  /** Verified, and realized by its own record or by the artifact's matching metadata. */
  predicate MetadataMet(c: Contract, validator: Validator, a: Artifact, records: seq<Record>, path: string) {
    && Shown(c, validator, records, path, Verification)
    && (|| Shown(c, validator, records, path, Realization)
        || (a.chapterId == c.chapterId && a.targetChars == c.targetChars
            && exists r <- records :: !IsStale(c, validator, r) && r.fieldPath == path && VerifiesArtifact(a, path, r)))
  }

  lemma PickNothing(roles: seq<Role>, have: set<Role>)
    ensures Pick(roles, have, false) == [] <==> forall role <- roles :: role in have
  {
  }

  lemma UsableIff(c: Contract, validator: Validator, records: seq<Record>, path: string)
    ensures forall r :: r in Usable(c, validator, records, path) <==>
            r in records && !IsStale(c, validator, r) && r.fieldPath == path
  {
    UsableMembers(c, validator, records, path);
    assert forall r :: r in Usable(c, validator, records, path) <==> r in multiset(Usable(c, validator, records, path));
    assert forall r :: r in records <==> r in multiset(records);
  }

  lemma FieldMetIff(c: Contract, validator: Validator, records: seq<Record>, path: string)
    requires path in c.fields
    ensures FieldResultFor(c, path, Usable(c, validator, records, path)).missing == [] <==>
            FieldMet(c, validator, records, path)
  {
    var external := Usable(c, validator, records, path);
    UsableIff(c, validator, records, path);
    PickNothing(RequiredRoles(c.fields[path].nonApplicable), FrozenRoles(c, path) + RolesOf(external));
    forall role
      ensures role in RolesOf(external) <==> Shown(c, validator, records, path, role)
    {
    }
  }

  lemma FactRoles(have: set<Role>)
    ensures (forall role <- RequiredRoles(false) :: role in have) <==>
            Intent in have && Verification in have && Realization in have
  {
    assert RequiredRoles(false)[0] == Intent && RequiredRoles(false)[1] == Verification
           && RequiredRoles(false)[2] == Realization;
  }

  lemma MetadataMetIff(c: Contract, validator: Validator, a: Artifact, records: seq<Record>, path: string)
    ensures MetadataResultFor(c, a, path, Usable(c, validator, records, path)).missing == [] <==>
            MetadataMet(c, validator, a, records, path)
  {
    var external := Usable(c, validator, records, path);
    var realized := Realized(c, a, path, external);
    var have := {Intent} + RolesOf(external) + (if realized then {Realization} else {});
    UsableIff(c, validator, records, path);
    PickNothing(RequiredRoles(false), have);
    FactRoles(have);
    forall role
      ensures role in RolesOf(external) <==> Shown(c, validator, records, path, role)
    {
    }
    assert (exists r <- external :: VerifiesArtifact(a, path, r)) <==>
           exists r <- records :: !IsStale(c, validator, r) && r.fieldPath == path && VerifiesArtifact(a, path, r);
  }

  lemma CompleteConcat(a: seq<FieldResult>, b: seq<FieldResult>)
    ensures Complete(a + b) <==> Complete(a) && Complete(b)
  {
    assert forall f :: f in a + b <==> f in a || f in b;
  }

  /** Completeness, index by index. */
  lemma CompleteIff(fields: seq<FieldResult>)
    ensures Complete(fields) <==> forall i :: 0 <= i < |fields| ==> fields[i].missing == []
  {
    assert forall i :: 0 <= i < |fields| ==> fields[i] in fields;
  }

  lemma AllFieldsMet(c: Contract, validator: Validator, records: seq<Record>)
    ensures forall p <- Diffs.SortedPaths(c.fields.Keys) :: p in c.fields
    ensures Complete(FieldResults(c, validator, records, Diffs.SortedPaths(c.fields.Keys))) <==>
            forall path <- c.fields :: FieldMet(c, validator, records, path)
  {
    PathsAreFields(c);
    var paths := Diffs.SortedPaths(c.fields.Keys);
    var fields := FieldResults(c, validator, records, paths);
    CompleteIff(fields);
    forall i | 0 <= i < |paths|
      ensures fields[i].missing == [] <==> FieldMet(c, validator, records, paths[i])
    {
      FieldMetIff(c, validator, records, paths[i]);
    }
    FieldsListed(c, validator, records, paths);
  }

  /** The sorted paths are the fields. */
  lemma FieldsListed(c: Contract, validator: Validator, records: seq<Record>, paths: seq<string>)
    requires paths == Diffs.SortedPaths(c.fields.Keys)
    ensures forall p <- paths :: p in c.fields
    ensures (forall i :: 0 <= i < |paths| ==> FieldMet(c, validator, records, paths[i])) <==>
            forall path <- c.fields :: FieldMet(c, validator, records, path)
  {
    Diffs.SortedPathsListsAll(c.fields.Keys);
    forall path <- c.fields
      ensures exists i :: 0 <= i < |paths| && paths[i] == path
    {
      assert path in paths;
    }
  }

  lemma AllMetadataMet(c: Contract, validator: Validator, a: Artifact, records: seq<Record>)
    ensures Complete(MetadataResults(c, validator, a, records, METADATA)) <==>
            forall path <- METADATA :: MetadataMet(c, validator, a, records, path)
  {
    MetadataMetAll(c, validator, a, records, METADATA);
  }

  lemma MetadataMetAll(c: Contract, validator: Validator, a: Artifact, records: seq<Record>, paths: seq<string>)
    ensures Complete(MetadataResults(c, validator, a, records, paths)) <==>
            forall path <- paths :: MetadataMet(c, validator, a, records, path)
  {
    var fields := MetadataResults(c, validator, a, records, paths);
    CompleteIff(fields);
    forall i | 0 <= i < |paths|
      ensures fields[i].missing == [] <==> MetadataMet(c, validator, a, records, paths[i])
    {
      MetadataMetIff(c, validator, a, records, paths[i]);
    }
  }

  /**
   Stale exactly when some record is stale; otherwise fulfilled exactly when every required role of every
   field and of both metadata fields is met.
   */
  lemma StatusMeans(c: Contract, validator: Validator, a: Artifact, records: seq<Record>)
    ensures var status := Evaluate(c, validator, a, records).status;
            && (status.Stale? <==> exists r <- records :: IsStale(c, validator, r))
            && (status.Fulfilled? <==>
                && (forall r <- records :: !IsStale(c, validator, r))
                && (forall path <- c.fields :: FieldMet(c, validator, records, path))
                && (forall path <- METADATA :: MetadataMet(c, validator, a, records, path)))
  {
    AllFieldsMet(c, validator, records);
    AllMetadataMet(c, validator, a, records);
    CompleteConcat(FieldResults(c, validator, records, Diffs.SortedPaths(c.fields.Keys)),
                   MetadataResults(c, validator, a, records, METADATA));
    StaleIff(c, validator, records);
  }

  lemma StaleIff(c: Contract, validator: Validator, records: seq<Record>)
    ensures StaleIds(c, validator, records) != {} <==> exists r <- records :: IsStale(c, validator, r)
  {
    if r :| r in records && IsStale(c, validator, r) {
      assert r.id in StaleIds(c, validator, records);
    }
  }

  /** One more usable record never takes fulfillment away. */
  lemma MoreEvidenceKeepsFulfilled(c: Contract, validator: Validator, a: Artifact, records: seq<Record>, r: Record)
    requires Evaluate(c, validator, a, records).status.Fulfilled? && !IsStale(c, validator, r)
    ensures Evaluate(c, validator, a, records + [r]).status.Fulfilled?
  {
    var more := records + [r];
    StatusMeans(c, validator, a, records);
    StatusMeans(c, validator, a, more);
    forall path, role | Shown(c, validator, records, path, role)
      ensures Shown(c, validator, more, path, role)
    {
      var x :| x in records && !IsStale(c, validator, x) && x.fieldPath == path && x.evidence.role == role;
      assert x in more;
    }
    forall path | path in METADATA
      ensures MetadataMet(c, validator, a, more, path)
    {
      assert MetadataMet(c, validator, a, records, path);
      if x :| x in records && !IsStale(c, validator, x) && x.fieldPath == path && VerifiesArtifact(a, path, x) {
        assert x in more;
      }
    }
    forall path <- c.fields
      ensures FieldMet(c, validator, more, path)
    {
      assert FieldMet(c, validator, records, path);
    }
  }

  // ----- The status, said about the contents of records and contract -----

  /** The asserted value is the frozen one, which is no enumeration member, and the validator accepts the evidence. */
  predicate ShowsValue(validator: Validator, r: Record, frozen: Option<Value>, member: bool) {
    !member && r.evidence.assertedValue == frozen && validator(r.evidence, frozen)
  }

  /** The record is about this contract and shows the frozen value of one of its fields or of its metadata. */
  predicate Fits(c: Contract, validator: Validator, r: Record) {
    && r.binding == c.binding
    && if r.fieldPath in c.fields then
         ShowsValue(validator, r, c.fields[r.fieldPath].value, c.fields[r.fieldPath].member)
       else if r.fieldPath == CHAPTER_ID then ShowsValue(validator, r, Some(Text(c.chapterId)), false)
       else if r.fieldPath == TARGET_CHARS then ShowsValue(validator, r, Some(Number(c.targetChars)), false)
       else false
  }

  lemma FitsIff(c: Contract, validator: Validator, r: Record)
    ensures Fits(c, validator, r) <==> !IsStale(c, validator, r)
  {
    assert METADATA[0] == CHAPTER_ID && METADATA[1] == TARGET_CHARS;
  }

  /** A record about another contract, with another value or refused by the validator makes the result stale. */
  lemma StaleIffMisfit(c: Contract, validator: Validator, a: Artifact, records: seq<Record>)
    ensures Evaluate(c, validator, a, records).status == Stale <==>
            exists r <- records :: !Fits(c, validator, r)
  {
    forall r
      ensures Fits(c, validator, r) <==> !IsStale(c, validator, r)
    {
      FitsIff(c, validator, r);
    }
    StatusMeans(c, validator, a, records);
  }

  /** The frozen evidence of the field asserts its value in this role. */
  predicate FrozenHas(c: Contract, path: string, role: Role)
    requires path in c.fields
  {
    path in c.frozen && !c.fields[path].member
    && exists e <- c.frozen[path] :: e.role == role && e.assertedValue == c.fields[path].value
  }

  predicate RecordHas(records: seq<Record>, path: string, role: Role) {
    exists r <- records :: r.fieldPath == path && r.evidence.role == role
  }

  predicate HasRole(c: Contract, records: seq<Record>, path: string, role: Role)
    requires path in c.fields
  {
    FrozenHas(c, path, role) || RecordHas(records, path, role)
  }

  /** A verification record cites the artifact by id, version and hash and asserts its metadata. */
  predicate CitesArtifact(a: Artifact, records: seq<Record>, path: string, value: Value) {
    exists r <- records ::
      && r.fieldPath == path && r.evidence.role == Verification && r.evidence.assertedValue == Some(value)
      && r.evidence.sourceId == a.sourceId && r.evidence.sourceVersion == a.sourceVersion
      && r.evidence.sourceContentHash == a.sourceHash
  }

  /** Verified by a record, and realized by another or by an artifact that has the contract's metadata. */
  predicate MetadataShown(c: Contract, a: Artifact, records: seq<Record>, path: string, value: Value) {
    && RecordHas(records, path, Verification)
    && (|| RecordHas(records, path, Realization)
        || (a.chapterId == c.chapterId && a.targetChars == c.targetChars && CitesArtifact(a, records, path, value)))
  }

  predicate FieldShown(c: Contract, records: seq<Record>, path: string)
    requires path in c.fields
  {
    && HasRole(c, records, path, Intent) && HasRole(c, records, path, Verification)
    && HasRole(c, records, path, if c.fields[path].nonApplicable then NonApplicability else Realization)
  }

  lemma ShownIff(c: Contract, validator: Validator, records: seq<Record>, path: string, role: Role)
    requires forall r <- records :: !IsStale(c, validator, r)
    ensures Shown(c, validator, records, path, role) <==> RecordHas(records, path, role)
  {
  }

  lemma PlanRoles(have: Role -> bool)
    ensures (forall role <- RequiredRoles(true) :: have(role)) <==>
            have(Intent) && have(NonApplicability) && have(Verification)
    ensures (forall role <- RequiredRoles(false) :: have(role)) <==>
            have(Intent) && have(Verification) && have(Realization)
  {
    assert RequiredRoles(true)[0] == Intent && RequiredRoles(true)[1] == NonApplicability
           && RequiredRoles(true)[2] == Verification;
    assert RequiredRoles(false)[0] == Intent && RequiredRoles(false)[1] == Verification
           && RequiredRoles(false)[2] == Realization;
  }

  lemma FrozenHasIff(c: Contract, path: string, role: Role)
    requires path in c.fields
    ensures role in FrozenRoles(c, path) <==> FrozenHas(c, path, role)
  {
  }

  lemma FieldShownIff(c: Contract, validator: Validator, records: seq<Record>, path: string)
    requires path in c.fields && forall r <- records :: !IsStale(c, validator, r)
    ensures FieldMet(c, validator, records, path) <==> FieldShown(c, records, path)
  {
    forall role: Role
      ensures role in FrozenRoles(c, path) || Shown(c, validator, records, path, role) <==>
              HasRole(c, records, path, role)
    {
      FrozenHasIff(c, path, role);
      ShownIff(c, validator, records, path, role);
    }
    PlanRoles(role => HasRole(c, records, path, role));
  }

  lemma MetadataShownIff(c: Contract, validator: Validator, a: Artifact, records: seq<Record>)
    requires forall r <- records :: !IsStale(c, validator, r)
    ensures MetadataMet(c, validator, a, records, CHAPTER_ID) <==>
            MetadataShown(c, a, records, CHAPTER_ID, Text(a.chapterId))
    ensures MetadataMet(c, validator, a, records, TARGET_CHARS) <==>
            MetadataShown(c, a, records, TARGET_CHARS, Number(a.targetChars))
  {
    assert CHAPTER_ID != TARGET_CHARS by {
      assert CHAPTER_ID[17] == 'c' && TARGET_CHARS[17] == 't';
    }
    forall path, role
      ensures Shown(c, validator, records, path, role) <==> RecordHas(records, path, role)
    {
      ShownIff(c, validator, records, path, role);
    }
  }

  /**
   The contract is fulfilled exactly if every record fits it, every field is intended, verified and realized (or
   intended, declared not applicable and verified) by its frozen evidence or by records, and both metadata
   fields are verified and realized. A verification of another artifact, version or hash realizes nothing.
   */
  lemma FulfilledIff(c: Contract, validator: Validator, a: Artifact, records: seq<Record>)
    ensures Evaluate(c, validator, a, records).status == Fulfilled <==>
            && (forall r <- records :: Fits(c, validator, r))
            && (forall path <- c.fields :: FieldShown(c, records, path))
            && MetadataShown(c, a, records, CHAPTER_ID, Text(a.chapterId))
            && MetadataShown(c, a, records, TARGET_CHARS, Number(a.targetChars))
  {
    forall r
      ensures Fits(c, validator, r) <==> !IsStale(c, validator, r)
    {
      FitsIff(c, validator, r);
    }
    StatusMeans(c, validator, a, records);
    if forall r <- records :: !IsStale(c, validator, r) {
      forall path <- c.fields
        ensures FieldMet(c, validator, records, path) <==> FieldShown(c, records, path)
      {
        FieldShownIff(c, validator, records, path);
      }
      MetadataShownIff(c, validator, a, records);
      assert METADATA[0] == CHAPTER_ID && METADATA[1] == TARGET_CHARS;
    }
  }
}
