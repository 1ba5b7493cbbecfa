/** The evidence records that say which field of a frozen contract has been verified or realised. */
module FulfillmentRecords {
  import opened Wrappers
  import opened Evidence

  /** The contract identity, version and content hash a record speaks about. */
  datatype Binding = Binding(contractId: string, contractVersion: int, contentHash: string)

  datatype Record = Record(
    id: string,
    binding: Binding,
    fieldPath: string,
    evidence: EvidenceRef<string>,
    recordedAt: string,
    supersedes: Option<string>)

  predicate SameValue(a: Option<Value>, b: Option<Value>) {
    if a.Some? && b.Some? then a.value.SameAs(b.value) else a == b
  }

  /** Python's `==` on records: every field is equal, the asserted values as Python compares them. */
  predicate SameRecord(a: Record, b: Record) {
    && SameValue(a.evidence.assertedValue, b.evidence.assertedValue)
    && b == a.(evidence := a.evidence.(assertedValue := b.evidence.assertedValue))
  }

  /** The asserted values are of one type. */
  predicate SameType(a: Record, b: Record) {
    var x, y := a.evidence.assertedValue, b.evidence.assertedValue;
    x.Some? && y.Some? ==> x.value.SameType(y.value)
  }

  /** Records that Python equates are the same record exactly if their asserted values are of one type. */
  lemma SameRecordIff(a: Record, b: Record)
    ensures a == b <==> SameRecord(a, b) && SameType(a, b)
  {
  }

  /** The first record with the given id, if there is one. */
  function Find(records: seq<Record>, id: string): (r: Option<Record>)
    ensures r.Some? ==> r.value in records && r.value.id == id
    ensures r.None? ==> forall x <- records :: x.id != id
  {
    if records == [] then None
    else if records[0].id == id then Some(records[0])
    else Find(records[1..], id)
  }

  ghost predicate DistinctIds(records: seq<Record>) {
    forall i, j :: 0 <= i < j < |records| ==> records[i].id != records[j].id
  }

  lemma FindUnique(records: seq<Record>, i: nat)
    requires i < |records| && DistinctIds(records)
    ensures Find(records, records[i].id) == Some(records[i])
  {
    if i != 0 {
      assert records[1..][i - 1] == records[i];
      FindUnique(records[1..], i - 1);
    }
  }
}
