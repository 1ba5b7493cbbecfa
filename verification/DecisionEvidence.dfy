/** What a ready preflight says about the leaves of the decision itself. */
module DecisionEvidence {
  import opened Wrappers
  import opened Decisions
  import opened Evidence
  import opened ContractFields
  import opened EvidenceIntegrity
  import opened PreflightGate
  import opened TreeReading
  import opened FieldPaths
  import opened DecisionReading
  import opened Leaves
  import Causality
  import Text

  lemma {:induction false} SelectLast(t: Tree, steps: seq<Step>, last: Step)
    ensures Select(t, steps + [last]) ==
            if Select(t, steps).Some? then Child(Select(t, steps).value, last) else None
    decreases |steps|
  {
    if steps == [] {
      assert steps + [last] == [last] && [last][1..] == [];
      assert Child(t, last).Some? ==> Select(Child(t, last).value, []) == Child(t, last);
    } else {
      assert (steps + [last])[1..] == steps[1..] + [last];
      if Child(t, steps[0]).Some? {
        SelectLast(Child(t, steps[0]).value, steps[1..], last);
      }
    }
  }

  lemma ScalarReads(t: Tree, f: FieldName)
    requires !IsArray(f) && ReadScalar(ContentOf(t), f) != Some(Null)
    ensures ReadScalar(ContentOf(t), f) == LeafAt(t, Attrs(Names(f)))
  {
  }

  lemma ArrayReads(t: Tree, f: FieldName)
    requires IsArray(f) && ReadArray(ContentOf(t), f).Some?
    ensures ReadArray(ContentOf(t), f) == ValuesAt(t, Attrs(Names(f)))
  {
  }

  /** An item that is read is the leaf at its index. */
  lemma ItemReads(t: Tree, f: FieldName, i: nat)
    requires ValuesAt(t, Attrs(Names(f))).Some? && IsArray(f)
    ensures var values := ValuesAt(t, Attrs(Names(f))).value;
            LeafAt(t, StepsOf(Item(f, i))) == if i < |values| then Some(values[i]) else None
  {
    SelectLast(t, Attrs(Names(f)), Nth(i));
    var items := ItemsAt(t, Attrs(Names(f))).value;
    assert Select(t, Attrs(Names(f))) == Some(Tuple(items));
    if i < |items| {
      assert ScalarOf(items[i]).Some?;
    }
  }

  /** At a complete field preflight reads what the steps to the place lead to. */
  lemma PlaceReads(t: Tree, place: Place)
    requires IsConcrete(place) && (place.At? || place.Item?) && FieldComplete(ContentOf(t), place.field)
    ensures LeafAt(t, StepsOf(place)) ==
            if Causality.Resolvable(ContentOf(t), place) then Some(Causality.ScalarAt(ContentOf(t), place)) else None
  {
    var f := place.field;
    if place.At? {
      assert StepsOf(place) == Attrs(Names(f));
      ScalarReads(t, f);
    } else {
      ArrayReads(t, f);
      ItemReads(t, f, place.index);
    }
  }

  lemma LeafIff(d: NarrativeDecision, steps: seq<Step>)
    requires WellNamed(d.tree) && Proper(steps) && Kept("", steps)
    ensures var text := PathText("", steps);
            LeafAt(d.tree, steps) == if text in LeavesOf(d) then Some(LeavesOf(d)[text]) else None
  {
    var text, found := PathText("", steps), LeafAt(d.tree, steps);
    if found.Some? {
      ReadIffListed(d, steps, found.value);
    }
    if text in LeavesOf(d) {
      ReadIffListed(d, steps, LeavesOf(d)[text]);
    }
  }

  /** The value that preflight reads at a complete causal field or item is the leaf that flattening lists there. */
  lemma ReadsAreLeaves(d: NarrativeDecision, place: Place)
    requires WellNamed(d.tree) && IsConcrete(place) && (place.At? || place.Item?)
    requires FieldComplete(ContentOf(d.tree), place.field)
    ensures Causality.Resolvable(ContentOf(d.tree), place) <==> TextOf(place) in LeavesOf(d)
    ensures Causality.Resolvable(ContentOf(d.tree), place) ==>
              Causality.ScalarAt(ContentOf(d.tree), place) == LeavesOf(d)[TextOf(place)]
  {
    StepsAreProper(place);
    StepsAreKept(place);
    PlaceReads(d.tree, place);
    LeafIff(d, StepsOf(place));
  }

  // ----- A ready decision -----

  /** The decision's own references at `path` support the value of its leaf there. */
  ghost predicate LeafSupported(d: NarrativeDecision, path: string, resolver: Resolver)
    requires BindingsOf(d.tree).Some? && path in LeavesOf(d)
  {
    SupportedAt(EntriesAt(BindingsOf(d.tree).value, PlaceOf(path)), PlaceOf(path),
                Need(Intent, EvidenceValue(LeavesOf(d)[path])), resolver)
  }

  predicate NamesCausalField(path: string) {
    PlaceOf(path).At? || PlaceOf(path).Item?
  }

  /**
   The decision has every causal field, and each leaf that is one or an item of one has evidence of the decision
   that resolves and asserts its value.
   */
  ghost predicate LeavesEvidenced(d: NarrativeDecision, resolver: Resolver) {
    && BindingsOf(d.tree).Some?
    && (forall f: FieldName :: !IsArray(f) ==> TextOf(At(f)) in LeavesOf(d))
    && (forall f: FieldName :: MayNotBeEmpty(f) ==> TextOf(Item(f, 0)) in LeavesOf(d))
    && (forall path <- LeavesOf(d) | NamesCausalField(path) :: LeafSupported(d, path, resolver))
  }

  lemma FieldsAreLeaves(d: NarrativeDecision, f: FieldName)
    requires WellNamed(d.tree) && FieldComplete(ContentOf(d.tree), f)
    ensures !IsArray(f) ==> TextOf(At(f)) in LeavesOf(d)
    ensures MayNotBeEmpty(f) ==> TextOf(Item(f, 0)) in LeavesOf(d)
  {
    if !IsArray(f) {
      ReadsAreLeaves(d, At(f));
    } else {
      ReadsAreLeaves(d, Item(f, 0));
    }
  }

  /** Preflight of a decision that is ready has covered every causal leaf that flattening lists. */
  lemma ReadyLeavesAreEvidenced(d: NarrativeDecision, valid: bool, resolver: Resolver,
                                causal: Option<Causality.CausalResult>)
    requires WellNamed(d.tree) && Ready(SubjectOf(d, valid), Some(resolver), causal)
    ensures LeavesEvidenced(d, resolver)
  {
    var c := ContentOf(d.tree);
    forall f: FieldName
      ensures FieldComplete(c, f)
      ensures !IsArray(f) ==> TextOf(At(f)) in LeavesOf(d)
      ensures MayNotBeEmpty(f) ==> TextOf(Item(f, 0)) in LeavesOf(d)
    {
      EveryFieldListed(f);
      FieldsAreLeaves(d, f);
    }
    forall path <- LeavesOf(d) | NamesCausalField(path)
      ensures LeafSupported(d, path, resolver)
    {
      var place := PlaceOf(path);
      PlacesRoundTrip(place, path);
      ReadsAreLeaves(d, place);
      assert NeedAt(c, place) == Some(Need(Intent, EvidenceValue(LeavesOf(d)[path])));
    }
  }

  /** The binding names a path, and all of its evidence, at least one reference, is this contract's for this path. */
  ghost predicate OwnBinding(t: Tree, d: NarrativeDecision) {
    && TextAt(t, "field_path").Some? && RefsOf(t).Some? && RefsOf(t).value != []
    && forall ref <- RefsOf(t).value ::
         && ref.contractId == d.contractId && ref.contractVersion == d.contractVersion
         && ref.fieldPath == TextAt(t, "field_path").value && (ref.role == Intent || ref.role == NonApplicability)
  }

  ghost predicate OwnBindings(items: seq<Tree>, d: NarrativeDecision) {
    && (forall i :: 0 <= i < |items| ==> OwnBinding(items[i], d))
    && forall i, j :: 0 <= i < j < |items| ==> TextAt(items[i], "field_path") != TextAt(items[j], "field_path")
  }

  lemma OwnBindingIff(t: Tree, d: NarrativeDecision)
    ensures OwnBinding(t, d) <==> BindingValid(t, d)
    ensures OwnBinding(t, d) ==> TextAt(t, "field_path") == Some(BoundPath(t))
  {
  }

  lemma ValidAreOwn(items: seq<Tree>, d: NarrativeDecision)
    requires forall item <- items :: BindingValid(item, d)
    requires forall i, j :: 0 <= i < j < |items| ==> BoundPath(items[i]) != BoundPath(items[j])
    ensures OwnBindings(items, d)
  {
    forall i | 0 <= i < |items|
      ensures OwnBinding(items[i], d) && TextAt(items[i], "field_path") == Some(BoundPath(items[i]))
    {
      OwnBindingIff(items[i], d);
    }
  }

  lemma ReadyIsSound(d: NarrativeDecision, valid: bool, resolver: Resolver, causal: Option<Causality.CausalResult>)
    requires Ready(SubjectOf(d, valid), Some(resolver), causal)
    ensures valid && d.Valid() && BindingsValid(d)
  {
  }

  /** A ready decision carries its identity, and its evidence bindings are its own, one for a path. */
  lemma ReadyBindingsAreOwn(d: NarrativeDecision, valid: bool, resolver: Resolver,
                            causal: Option<Causality.CausalResult>)
    requires Ready(SubjectOf(d, valid), Some(resolver), causal)
    ensures valid && d.chapter > 0 && d.contractVersion > 0
    ensures d.contractId == "narrative-chapter-" + Text.Padded(d.chapter, 3)
    ensures d.chapterId == "chapter_" + Text.Padded(d.chapter, 3)
    ensures ItemsAt(d.tree, BINDINGS).Some? && OwnBindings(ItemsAt(d.tree, BINDINGS).value, d)
  {
    ReadyIsSound(d, valid, resolver, causal);
    ValidAreOwn(ItemsAt(d.tree, BINDINGS).value, d);
  }
}
