/** A contract that passes preflight and can never be fulfilled, next to one that can. */
module FulfillmentExample {
  import opened ContractFields
  import opened DecisionReading
  import opened Fulfillability
  import opened FrozenContract
  import opened PreflightVerdict
  import opened ReadyContract
  import Fulfillment
  import ReadyTree
  import Wrappers

  lemma WaivedIff(c: Content, waived: bool)
    requires ReadyTree.Full(c, waived)
    ensures NothingWaived(c) <==> !waived
  {
    forall f: FieldName
      ensures !HasMember(c, f) && (IsPlan(f) ==> (PlanFilled(c, f) <==> !ReadyTree.IsWaived(f, waived)))
    {
      assert ReadyTree.FullAt(c, f, waived);
    }
    assert IsPlan(Forbidden) && (PlanFilled(c, Forbidden) <==> !waived);
  }

  /**
   Both contracts pass preflight with the same kind of evidence for everything they say. The one whose last plan
   is empty cannot be fulfilled by any records, the other one can.
   */
  lemma EmptyPlanIsNeverFulfilled(waived: bool, n: nat, k: Fulfillment.Contract)
    requires n > 0 && DerivedFrom(k, Version(waived, n))
    ensures PassesPreflight(Inputs(Sources(waived), true, _ => true), Version(waived, n))
    ensures CanBeFulfilled(k) <==> !waived
  {
    var d, i := Version(waived, n), Inputs(Sources(waived), true, _ => true);
    VersionIsReady(waived, n);
    WaivedIff(ContentOf(d.tree), waived);
    ReadyIsFulfillableIff(d, true, Sources(waived), Wrappers.Some(AnalysisOf(i, d)), k);
  }
}
