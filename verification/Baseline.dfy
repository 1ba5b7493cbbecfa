/** The canonical set of source versions a contract was approved against. */
module Baseline {
  import opened Wrappers
  import opened Text
  import opened Sorting

  datatype Entry = Entry(role: string, sourceId: string, sourceVersion: string, contentHash: string)

  /** SHA-256 of the canonical JSON of an entry list. */
  datatype Fingerprint = Fingerprint(entries: seq<Entry>)

  datatype Manifest = Manifest(entries: seq<Entry>, fingerprint: Fingerprint)

  datatype BaselineError =
    | EntriesRequired | DuplicateSource | OneProfileRequired | NotCanonicalOrder | FingerprintMismatch

  const PROFILE := "profile"

  function EntryKey(e: Entry): Key {
    [e.role, e.sourceId, e.sourceVersion, e.contentHash]
  }

  function Source(e: Entry): (string, string) {
    (e.role, e.sourceId)
  }

  function Profiles(entries: seq<Entry>): nat {
    if entries == [] then 0
    else Profiles(entries[..|entries| - 1]) + if entries[|entries| - 1].role == PROFILE then 1 else 0
  }

  function Canonical(entries: seq<Entry>): Result<seq<Entry>, BaselineError> {
    if entries == [] then Failure(EntriesRequired)
    else if !DistinctBy(entries, Source) then Failure(DuplicateSource)
    else if Profiles(entries) != 1 then Failure(OneProfileRequired)
    else Success(Sort(entries, EntryKey))
  }

  /** One pass over the entries with the sources seen so far and the number of profiles. */
  method CanonicalEntries(entries: seq<Entry>) returns (r: Result<seq<Entry>, BaselineError>)
    ensures r == Canonical(entries)
  {
    if entries == [] {
      return Failure(EntriesRequired);
    }
    var seen: set<(string, string)> := {};
    var profiles := 0;
    for i := 0 to |entries|
      invariant seen == set k | 0 <= k < i :: Source(entries[k])
      invariant DistinctBy(entries[..i], Source)
      invariant profiles == Profiles(entries[..i])
    {
      var source := Source(entries[i]);
      if source in seen {
        return Failure(DuplicateSource);
      }
      seen := seen + {source};
      assert entries[..i + 1][..i] == entries[..i];
      profiles := profiles + if entries[i].role == PROFILE then 1 else 0;
    }
    assert entries[..|entries|] == entries;
    return if profiles != 1 then Failure(OneProfileRequired) else Success(Sort(entries, EntryKey));
  }

  /** The public constructor. */
  function Construct(entries: seq<Entry>, fingerprint: Fingerprint): Result<Manifest, BaselineError> {
    var canonical :- Canonical(entries);
    if canonical != entries then Failure(NotCanonicalOrder)
    else if fingerprint != Fingerprint(canonical) then Failure(FingerprintMismatch)
    else Success(Manifest(entries, fingerprint))
  }

  function Build(entries: seq<Entry>): Result<Manifest, BaselineError> {
    var canonical :- Canonical(entries);
    Construct(canonical, Fingerprint(canonical))
  }

  lemma EntryKeyDistinguishes(entries: seq<Entry>)
    ensures Distinguishes(EntryKey, entries)
  {
    forall x, y | x in entries && y in entries && EntryKey(x) == EntryKey(y)
      ensures x == y
    {
      assert EntryKey(x)[0] == x.role && EntryKey(x)[1] == x.sourceId && EntryKey(x)[2] == x.sourceVersion;
      assert EntryKey(x)[3] == x.contentHash && EntryKey(y)[3] == y.contentHash;
    }
  }

  /** The number of profiles does not depend on the order of the entries. */
  lemma {:induction false} ProfilesCount(entries: seq<Entry>, other: seq<Entry>)
    requires multiset(entries) == multiset(other)
    ensures Profiles(entries) == Profiles(other)
    decreases |entries|
  {
    assert |multiset(entries)| == |entries| && |multiset(other)| == |other|;
    if entries != [] {
      var n := |entries| - 1;
      var last := entries[n];
      assert entries == entries[..n] + [last];
      assert last in multiset(other);
      var i: nat :| i < |other| && other[i] == last;
      var rest := other[..i] + other[i + 1..];
      assert other == other[..i] + [last] + other[i + 1..];
      assert multiset(rest) == multiset(other) - multiset{last} == multiset(entries[..n]);
      ProfilesCount(entries[..n], rest);
      ProfilesWithout(other, i);
    }
  }

  lemma {:induction false} ProfilesWithout(entries: seq<Entry>, i: nat)
    requires i < |entries|
    ensures Profiles(entries) == Profiles(entries[..i] + entries[i + 1..]) + if entries[i].role == PROFILE then 1 else 0
    decreases |entries|
  {
    var n := |entries| - 1;
    var rest := entries[..i] + entries[i + 1..];
    if i == n {
      assert rest == entries[..n];
    } else {
      ProfilesWithout(entries[..n], i);
      assert rest[..n - 1] == entries[..n][..i] + entries[..n][i + 1..];
    }
  }

  /** Any reordering of the entries gives the same outcome: the same manifest, or the same refusal. */
  lemma BuildForgetsOrder(a: seq<Entry>, b: seq<Entry>)
    requires multiset(a) == multiset(b)
    ensures Build(a) == Build(b)
  {
    SameLength(a, b);
    if DistinctBy(a, Source) {
      DistinctByPermutation(a, b, Source);
    }
    if DistinctBy(b, Source) {
      DistinctByPermutation(b, a, Source);
    }
    ProfilesCount(a, b);
    EntryKeyDistinguishes(a);
    SortForgetsOrder(a, b, EntryKey);
  }

  /** What `Build` returns is accepted by the constructor, and its fingerprint tells manifests apart. */
  lemma BuildIsCanonical(a: seq<Entry>, b: seq<Entry>)
    requires Canonical(a).Success? && Canonical(b).Success?
    ensures Build(a).Success? && Build(b).Success?
    ensures Build(a).value.fingerprint == Build(b).value.fingerprint <==> multiset(a) == multiset(b)
  {
    CanonicalOfCanonical(a);
    CanonicalOfCanonical(b);
    SortIsOrderedPermutation(a, EntryKey);
    SortIsOrderedPermutation(b, EntryKey);
    if multiset(a) == multiset(b) {
      BuildForgetsOrder(a, b);
    }
  }

  lemma CanonicalOfCanonical(entries: seq<Entry>)
    requires Canonical(entries).Success?
    ensures Canonical(Canonical(entries).value) == Canonical(entries)
  {
    var sorted := Sort(entries, EntryKey);
    SortIsOrderedPermutation(entries, EntryKey);
    SameLength(sorted, entries);
    DistinctByPermutation(entries, sorted, Source);
    ProfilesCount(entries, sorted);
    SortSorted(sorted, EntryKey);
  }

  /** The constructor accepts an entry list exactly in its canonical order with its own fingerprint. */
  lemma ConstructIffCanonical(entries: seq<Entry>, fingerprint: Fingerprint)
    ensures Construct(entries, fingerprint).Success? <==> Build(entries) == Success(Manifest(entries, fingerprint))
  {
    if Canonical(entries).Success? {
      CanonicalOfCanonical(entries);
    }
  }
}
