/** Evidence references and bindings as trees, which decoding reads back. */
module EvidenceTrees {
  import opened Wrappers
  import opened Decisions
  import opened Evidence
  import opened EvidenceIntegrity
  import opened TreeReading
  import opened FieldPaths
  import opened DecisionReading
  import Preflight

  /** A record of these attributes, in this order. */
  function Zip(names: seq<string>, trees: seq<Tree>): (fields: seq<Field>)
    requires |names| == |trees|
    ensures |fields| == |names| && forall i :: 0 <= i < |names| ==> fields[i] == Field(names[i], trees[i])
  {
    seq(|names|, i requires 0 <= i < |names| => Field(names[i], trees[i]))
  }

  lemma ZippedAt(names: seq<string>, trees: seq<Tree>, k: nat)
    requires |names| == |trees| && k < |names| && forall j :: 0 <= j < k ==> names[j] != names[k]
    ensures Select(Record(Zip(names, trees)), [Attr(names[k])]) == Some(trees[k])
  {
    LookupAt(Zip(names, trees), k);
    assert [Attr(names[k])][1..] == [];
    assert Select(trees[k], []) == Some(trees[k]);
  }

  const REF_NAMES := [
    "evidence_id", "contract_id", "contract_version", "field_path", "role", "source_id", "source_version",
    "source_content_hash", "locator", "excerpt", "assertion", "asserted_value"]

  ghost predicate Distinct(names: seq<string>) {
    forall i, j :: 0 <= i < j < |names| ==> names[i] != names[j]
  }

  lemma RefNamesDistinct()
    ensures Distinct(REF_NAMES)
  {
    var names := REF_NAMES;
    forall i, j | 0 <= i < j < |names|
      ensures names[i] != names[j]
    {
      assert |names[i]| != |names[j]| || names[i][0] != names[j][0];
    }
  }

  function TextTree(text: string): Tree {
    Leaf(Str(text))
  }

  function LocatorTree(locator: Locator): Tree {
    Record([Field("kind", TextTree(locator.kind)), Field("value", TextTree(locator.value))])
  }

  function AssertedTree(value: Option<Value>): Tree {
    match value
    case None => Leaf(Null)
    case Some(Text(text)) => Leaf(Str(text))
    case Some(Number(n)) => Leaf(Int(n))
    case Some(Flag(b)) => Leaf(Bool(b))
  }

  function RefTrees(ref: EvidenceRef<string>): seq<Tree> {
    [TextTree(ref.evidenceId), TextTree(ref.contractId), Leaf(Int(ref.contractVersion)), TextTree(ref.fieldPath),
     Leaf(Enum(RoleText(ref.role))), TextTree(ref.sourceId), TextTree(ref.sourceVersion),
       TextTree(ref.sourceContentHash),
     LocatorTree(ref.locator), TextTree(ref.excerpt), TextTree(ref.assertion), AssertedTree(ref.assertedValue)]
  }

  function RefTree(ref: EvidenceRef<string>): Tree {
    Record(Zip(REF_NAMES, RefTrees(ref)))
  }

  lemma RefHolds(ref: EvidenceRef<string>, k: nat)
    requires k < 12
    ensures Select(RefTree(ref), [Attr(REF_NAMES[k])]) == Some(RefTrees(ref)[k])
  {
    RefNamesDistinct();
    ZippedAt(REF_NAMES, RefTrees(ref), k);
  }

  lemma LocatorHolds(locator: Locator)
    ensures TextAt(LocatorTree(locator), "kind") == Some(locator.kind)
    ensures TextAt(LocatorTree(locator), "value") == Some(locator.value)
  {
    var names, trees := ["kind", "value"], [TextTree(locator.kind), TextTree(locator.value)];
    assert Zip(names, trees) == [Field("kind", trees[0]), Field("value", trees[1])];
    assert |names[0]| != |names[1]|;
    ZippedAt(names, trees, 0);
    ZippedAt(names, trees, 1);
  }

  lemma IdentityReads(ref: EvidenceRef<string>)
    ensures var t := RefTree(ref);
            && TextAt(t, "evidence_id") == Some(ref.evidenceId) && TextAt(t, "contract_id") == Some(ref.contractId)
            && NumberAt(t, "contract_version") == Some(ref.contractVersion)
            && TextAt(t, "field_path") == Some(ref.fieldPath)
            && RoleAt(t) == Some(ref.role)
  {
    RefHolds(ref, 0);
    RefHolds(ref, 1);
    RefHolds(ref, 2);
    RefHolds(ref, 3);
    RefHolds(ref, 4);
  }

  lemma SourceReads(ref: EvidenceRef<string>)
    ensures var t := RefTree(ref);
            && TextAt(t, "source_id") == Some(ref.sourceId) && TextAt(t, "source_version") == Some(ref.sourceVersion)
            && TextAt(t, "source_content_hash") == Some(ref.sourceContentHash) && LocatorAt(t) == Some(ref.locator)
  {
    RefHolds(ref, 5);
    RefHolds(ref, 6);
    RefHolds(ref, 7);
    RefHolds(ref, 8);
    LocatorHolds(ref.locator);
  }

  lemma AssertionReads(ref: EvidenceRef<string>)
    ensures var t := RefTree(ref);
            && TextAt(t, "excerpt") == Some(ref.excerpt) && TextAt(t, "assertion") == Some(ref.assertion)
            && AssertedIn(t) == Some(ref.assertedValue)
  {
    RefHolds(ref, 9);
    RefHolds(ref, 10);
    RefHolds(ref, 11);
  }

  /** A reference written as a tree is read back. */
  lemma RefRoundTrip(ref: EvidenceRef<string>)
    ensures RefOf(RefTree(ref)) == Some(ref)
  {
    IdentityReads(ref);
    SourceReads(ref);
    AssertionReads(ref);
  }

  // ----- Bindings -----

  function RefTreesOf(refs: seq<EvidenceRef<string>>): (trees: seq<Tree>)
    ensures |trees| == |refs| && forall i :: 0 <= i < |refs| ==> trees[i] == RefTree(refs[i])
  {
    seq(|refs|, i requires 0 <= i < |refs| => RefTree(refs[i]))
  }

  function BindingTree(path: string, refs: seq<EvidenceRef<string>>): Tree {
    Record([Field("field_path", TextTree(path)), Field("evidence", Tuple(RefTreesOf(refs)))])
  }

  lemma BindingHolds(path: string, refs: seq<EvidenceRef<string>>)
    ensures var t := BindingTree(path, refs);
            && TextAt(t, "field_path") == Some(path) && BoundPath(t) == path
            && Select(t, [Attr("evidence")]) == Some(Tuple(RefTreesOf(refs)))
  {
    var names, trees := ["field_path", "evidence"], [TextTree(path), Tuple(RefTreesOf(refs))];
    assert Zip(names, trees) == [Field("field_path", trees[0]), Field("evidence", trees[1])];
    assert |names[0]| != |names[1]|;
    ZippedAt(names, trees, 0);
    ZippedAt(names, trees, 1);
  }

  lemma RefsDecode(refs: seq<EvidenceRef<string>>)
    ensures Collect(RefTreesOf(refs), RefOf) == Some(refs)
    ensures EntriesOf(RefTreesOf(refs)) == BoundEntries(refs)
  {
    var trees := RefTreesOf(refs);
    forall i | 0 <= i < |refs|
      ensures RefOf(trees[i]) == Some(refs[i]) && EntryOf(trees[i]) == Bound(Located(refs[i]))
    {
      RefRoundTrip(refs[i]);
    }
    var decoded := Collect(trees, RefOf);
    assert decoded.Some?;
    assert decoded.value == refs;
  }

  /** A binding written as a tree is read back, and is valid if its references fit. */
  lemma BindingRoundTrip(path: string, refs: seq<EvidenceRef<string>>)
    ensures BindingOf(BindingTree(path, refs)) == Preflight.Binding(PlaceOf(path), Some(BoundEntries(refs)))
    ensures RefsOf(BindingTree(path, refs)) == Some(refs)
  {
    BindingHolds(path, refs);
    RefsDecode(refs);
  }
}
