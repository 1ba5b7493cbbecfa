/** Checking one evidence reference against the authoritative source it names. */
module EvidenceIntegrity {
  import opened Wrappers
  import opened Evidence
  import opened ContractFields

  datatype SourceKind = Task | Director | Profile | FactSnapshot | PreviousChapter | OutlineChange

  datatype Source = Source(
    id: string, version: string, contentHash: string, excerpts: seq<(Locator, string)>,
    assertions: seq<(Place, seq<string>)>, kind: Option<SourceKind>, asserted: seq<(Place, Value)>)

  /** What the injected resolver does with a source id; `Unavailable` is an exception. */
  datatype Answer = Unavailable | Missing | Found(source: Source)

  type Resolver = string -> Answer

  /** What a binding may hold: no reference at all, one without a contract field, or a field reference. */
  datatype Entry = NotARef | Unbound | Bound(ref: EvidenceRef<Place>)

  datatype Code =
    | RefRequired | FieldPathMismatch | SourceMissing | SourceMismatch | VersionMismatch | HashMismatch
    | SourceKindMissing | LocatorUnresolved | ExcerptMismatch | AssertionMismatch | AssertedValueMismatch
    | SourceUnavailable | IncompleteContract | InvalidNotApplicableReason | ConflictingIntent | PreflightFailed
    | InvalidCausalCandidate | UnresolvedCausalCandidate | CausalAnalysisFailed | EngagementMissing | OtherCode(string)

  datatype Issue = Issue(code: Code, place: Place, blocking: bool)

  /** The excerpt of the first entry with this locator. */
  function ExcerptAt(excerpts: seq<(Locator, string)>, locator: Locator): Option<string> {
    if excerpts == [] then None
    else if excerpts[0].0 == locator then Some(excerpts[0].1)
    else ExcerptAt(excerpts[1..], locator)
  }

  predicate SupportsAssertion(assertions: seq<(Place, seq<string>)>, place: Place, assertion: string) {
    exists a <- assertions :: a.0 == place && assertion in a.1
  }

  function AssertedAt(asserted: seq<(Place, Value)>, place: Place): Option<Value> {
    if asserted == [] then None
    else if asserted[0].0 == place then Some(asserted[0].1)
    else AssertedAt(asserted[1..], place)
  }

  datatype Validation = Validation(source: Option<Source>, problem: Option<Code>)

  /** `expected` is absent when only the source has to be checked. */
  function Validate(entry: Entry, place: Place, expected: Option<Option<Value>>, requireKind: bool,
                    resolver: Resolver): Validation {
    match entry
    case NotARef => Validation(None, Some(RefRequired))
    case Unbound => Validation(None, Some(FieldPathMismatch))
    case Bound(ref) =>
      if ref.fieldPath != place then Validation(None, Some(FieldPathMismatch))
      else
        match resolver(ref.sourceId)
        case Unavailable => Validation(None, Some(SourceUnavailable))
        case Missing => Validation(None, Some(SourceMissing))
        case Found(source) => Validation(Some(source), Compare(ref, source, expected, requireKind))
  }

  function Compare(ref: EvidenceRef<Place>, source: Source, expected: Option<Option<Value>>,
                   requireKind: bool): Option<Code> {
    if source.id != ref.sourceId then Some(SourceMismatch)
    else if source.version != ref.sourceVersion then Some(VersionMismatch)
    else if source.contentHash != ref.sourceContentHash then Some(HashMismatch)
    else if requireKind && source.kind.None? then Some(SourceKindMissing)
    else if ExcerptAt(source.excerpts, ref.locator).None? then Some(LocatorUnresolved)
    else if ExcerptAt(source.excerpts, ref.locator).value != ref.excerpt then Some(ExcerptMismatch)
    else if !SupportsAssertion(source.assertions, ref.fieldPath, ref.assertion) then Some(AssertionMismatch)
    else if expected.Some?
            && (ref.assertedValue != expected.value || AssertedAt(source.asserted, ref.fieldPath) != expected.value)
    then Some(AssertedValueMismatch)
    else None
  }

  /** The reference agrees with its source in identity, content, excerpt, assertion and value. */
  ghost predicate Resolves(ref: EvidenceRef<Place>, place: Place, value: Option<Value>, resolver: Resolver) {
    && ref.fieldPath == place && resolver(ref.sourceId).Found?
    && var source := resolver(ref.sourceId).source;
       && (source.id, source.version, source.contentHash) == (ref.sourceId, ref.sourceVersion, ref.sourceContentHash)
       && source.kind.Some? && ExcerptAt(source.excerpts, ref.locator) == Some(ref.excerpt)
       && SupportsAssertion(source.assertions, place, ref.assertion)
       && ref.assertedValue == value == AssertedAt(source.asserted, place)
  }

  // ----- What a source has to say -----

  /** The first pair with this key has this value. */
  ghost predicate FirstWith<K, V>(pairs: seq<(K, V)>, key: K, value: V) {
    exists i :: 0 <= i < |pairs| && pairs[i] == (key, value) && forall j :: 0 <= j < i ==> pairs[j].0 != key
  }

  ghost predicate NoneWith<K, V>(pairs: seq<(K, V)>, key: K) {
    forall i :: 0 <= i < |pairs| ==> pairs[i].0 != key
  }

  lemma FirstOrLater<K, V>(pairs: seq<(K, V)>, key: K, value: V)
    requires pairs != []
    ensures pairs[0].0 == key ==> (FirstWith(pairs, key, value) <==> pairs[0].1 == value) && !NoneWith(pairs, key)
    ensures pairs[0].0 != key ==>
              (FirstWith(pairs, key, value) <==> FirstWith(pairs[1..], key, value))
              && (NoneWith(pairs, key) <==> NoneWith(pairs[1..], key))
  {
    if pairs[0].0 == key && pairs[0].1 == value {
      assert pairs[0] == (key, value);
    }
    if pairs[0].0 != key {
      assert forall i :: 1 <= i < |pairs| ==> pairs[i] == pairs[1..][i - 1];
      if FirstWith(pairs[1..], key, value) {
        var i :| 0 <= i < |pairs[1..]| && pairs[1..][i] == (key, value)
                 && forall j :: 0 <= j < i ==> pairs[1..][j].0 != key;
        assert pairs[i + 1] == (key, value);
      }
      if FirstWith(pairs, key, value) {
        var i :| 0 <= i < |pairs| && pairs[i] == (key, value) && forall j :: 0 <= j < i ==> pairs[j].0 != key;
        assert pairs[1..][i - 1] == (key, value);
      }
    }
  }

  lemma {:induction false} ExcerptAtIff(excerpts: seq<(Locator, string)>, locator: Locator, excerpt: string)
    ensures ExcerptAt(excerpts, locator) == Some(excerpt) <==> FirstWith(excerpts, locator, excerpt)
  {
    if excerpts != [] {
      FirstOrLater(excerpts, locator, excerpt);
      ExcerptAtIff(excerpts[1..], locator, excerpt);
    }
  }

  lemma {:induction false} AssertedAtIff(asserted: seq<(Place, Value)>, place: Place, value: Value)
    ensures AssertedAt(asserted, place) == Some(value) <==> FirstWith(asserted, place, value)
    ensures AssertedAt(asserted, place) == None <==> NoneWith(asserted, place)
  {
    if asserted != [] {
      FirstOrLater(asserted, place, value);
      AssertedAtIff(asserted[1..], place, value);
    }
  }

  /** The source is the one that the reference names, has the excerpt at the locator, and asserts text and value. */
  ghost predicate Backs(source: Source, ref: EvidenceRef<Place>, place: Place, value: Option<Value>) {
    && source.id == ref.sourceId && source.version == ref.sourceVersion && source.contentHash == ref.sourceContentHash
    && source.kind.Some? && FirstWith(source.excerpts, ref.locator, ref.excerpt)
    && (exists i :: 0 <= i < |source.assertions| && source.assertions[i].0 == place
                    && ref.assertion in source.assertions[i].1)
    && ref.assertedValue == value
    && match value
       case Some(v) => FirstWith(source.asserted, place, v)
       case None => NoneWith(source.asserted, place)
  }

  /** A reference resolves at a place exactly if it is about the place and the resolver finds a source that backs it. */
  lemma ResolvesIff(ref: EvidenceRef<Place>, place: Place, value: Option<Value>, resolver: Resolver)
    ensures Resolves(ref, place, value, resolver) <==>
            && ref.fieldPath == place && resolver(ref.sourceId).Found?
            && Backs(resolver(ref.sourceId).source, ref, place, value)
  {
    if resolver(ref.sourceId).Found? {
      var source := resolver(ref.sourceId).source;
      ExcerptAtIff(source.excerpts, ref.locator, ref.excerpt);
      AssertedAtIff(source.asserted, place, if value.Some? then value.value else Flag(true));
    }
  }

  // ----- Dropping repeated references -----

  function DedupKey(ref: EvidenceRef<Place>): (string, int, Place, Role, string, string, Locator, string) {
    (ref.contractId, ref.contractVersion, ref.fieldPath, ref.role, ref.sourceId, ref.sourceVersion, ref.locator,
     ref.sourceContentHash)
  }

  predicate HasKey(refs: seq<EvidenceRef<Place>>, ref: EvidenceRef<Place>) {
    exists r <- refs :: DedupKey(r) == DedupKey(ref)
  }

  /** Keeps a reference when no earlier one has its key. */
  function Dedup(refs: seq<EvidenceRef<Place>>): seq<EvidenceRef<Place>> {
    if refs == [] then []
    else
      var kept, last := Dedup(refs[..|refs| - 1]), refs[|refs| - 1];
      if HasKey(refs[..|refs| - 1], last) then kept else kept + [last]
  }

  /** One pass with the set of keys seen so far. */
  method DeduplicateEvidenceRefs(refs: seq<EvidenceRef<Place>>) returns (result: seq<EvidenceRef<Place>>)
    ensures result == Dedup(refs)
  {
    result := [];
    var seen := {};
    for i := 0 to |refs|
      invariant result == Dedup(refs[..i])
      invariant seen == set r <- refs[..i] :: DedupKey(r)
    {
      assert refs[..i + 1][..i] == refs[..i] && refs[..i + 1] == refs[..i] + [refs[i]];
      assert DedupKey(refs[i]) in seen <==> HasKey(refs[..i], refs[i]);
      if DedupKey(refs[i]) !in seen {
        seen := seen + {DedupKey(refs[i])};
        result := result + [refs[i]];
      }
    }
    assert refs[..|refs|] == refs;
  }

  lemma HasKeySnoc(refs: seq<EvidenceRef<Place>>, last: EvidenceRef<Place>, ref: EvidenceRef<Place>)
    ensures HasKey(refs + [last], ref) <==> HasKey(refs, ref) || DedupKey(last) == DedupKey(ref)
  {
    assert last in refs + [last];
  }

  /** Every key survives, exactly once. */
  lemma {:induction false} DedupKeepsEachKeyOnce(refs: seq<EvidenceRef<Place>>)
    ensures forall ref :: HasKey(Dedup(refs), ref) <==> HasKey(refs, ref)
    ensures forall i, j :: 0 <= i < j < |Dedup(refs)| ==> DedupKey(Dedup(refs)[i]) != DedupKey(Dedup(refs)[j])
  {
    if refs != [] {
      var n := |refs| - 1;
      var kept, last := Dedup(refs[..n]), refs[n];
      DedupKeepsEachKeyOnce(refs[..n]);
      assert refs == refs[..n] + [last];
      forall ref
        ensures HasKey(Dedup(refs), ref) <==> HasKey(refs, ref)
      {
        HasKeySnoc(refs[..n], last, ref);
        HasKeySnoc(kept, last, ref);
      }
      if !HasKey(refs[..n], last) {
        forall i | 0 <= i < |kept|
          ensures DedupKey(kept[i]) != DedupKey(last)
        {
          assert kept[i] in kept;
          assert !HasKey(kept, last);
        }
      }
    }
  }

  /** The reference kept for a key is the first one with it. */
  lemma {:induction false} DedupKeepsFirst(refs: seq<EvidenceRef<Place>>, i: nat)
    requires i < |refs| && !HasKey(refs[..i], refs[i])
    ensures refs[i] in Dedup(refs)
    decreases |refs|
  {
    var n := |refs| - 1;
    if i < n {
      assert refs[..n][..i] == refs[..i];
      DedupKeepsFirst(refs[..n], i);
    }
  }

  lemma {:induction false} DistinctKeysStay(refs: seq<EvidenceRef<Place>>)
    requires forall i, j :: 0 <= i < j < |refs| ==> DedupKey(refs[i]) != DedupKey(refs[j])
    ensures Dedup(refs) == refs
  {
    if refs != [] {
      var n := |refs| - 1;
      DistinctKeysStay(refs[..n]);
      assert refs == refs[..n] + [refs[n]];
    }
  }

  /** Deduplicating twice is deduplicating once. */
  lemma DedupIsIdempotent(refs: seq<EvidenceRef<Place>>)
    ensures Dedup(Dedup(refs)) == Dedup(refs)
  {
    DedupKeepsEachKeyOnce(refs);
    DistinctKeysStay(Dedup(refs));
  }

  /** The two references agree in contract, version, field, role, source, source version, locator and hash. */
  predicate SameReference(a: EvidenceRef<Place>, b: EvidenceRef<Place>) {
    && a.contractId == b.contractId && a.contractVersion == b.contractVersion && a.fieldPath == b.fieldPath
    && a.role == b.role && a.sourceId == b.sourceId && a.sourceVersion == b.sourceVersion
    && a.locator == b.locator && a.sourceContentHash == b.sourceContentHash
  }

  /** What is kept is pairwise different, and everything that is dropped agrees with something that is kept. */
  lemma DedupOnFields(refs: seq<EvidenceRef<Place>>)
    ensures forall i, j :: 0 <= i < j < |Dedup(refs)| ==> !SameReference(Dedup(refs)[i], Dedup(refs)[j])
    ensures forall ref <- Dedup(refs) :: ref in refs
    ensures forall ref <- refs :: exists kept <- Dedup(refs) :: SameReference(ref, kept)
  {
    DedupKeepsEachKeyOnce(refs);
    DedupIsPart(refs);
    forall ref <- refs
      ensures exists kept <- Dedup(refs) :: SameReference(ref, kept)
    {
      assert HasKey(refs, ref);
      assert HasKey(Dedup(refs), ref);
      var kept :| kept in Dedup(refs) && DedupKey(kept) == DedupKey(ref);
    }
  }

  lemma {:induction false} DedupIsPart(refs: seq<EvidenceRef<Place>>)
    ensures forall ref <- Dedup(refs) :: ref in refs
  {
    if refs != [] {
      DedupIsPart(refs[..|refs| - 1]);
    }
  }
}
