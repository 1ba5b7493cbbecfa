/** Which places of a decision count as content, and what it means for one to differ, said about trees and steps. */
module ContentPaths {
  import opened Wrappers
  import opened Paths
  import opened Decisions
  import opened Leaves
  import opened TreeReading
  import Diffs

  const VERSION_STEPS := [Attr("contract_version")]
  const BINDING_STEPS := [Attr("chapter_contract"), Attr("intent_evidence_bindings")]
  const LEGACY_STEPS := [Attr("legacy_unclassified_evidence")]

  /** The places that hold identity and evidence bookkeeping, which a revision does not count. */
  predicate IsBookkeeping(steps: seq<Step>) {
    VERSION_STEPS <= steps || BINDING_STEPS <= steps || LEGACY_STEPS <= steps
  }

  lemma BookkeepingNames()
    ensures IsIdentifier("contract_version") && IsIdentifier("intent_evidence_bindings")
    ensures IsIdentifier("legacy_unclassified_evidence")
  {
  }

  lemma ChapterName()
    ensures IsIdentifier("chapter_contract")
  {
  }

  lemma BookkeepingText()
    ensures Proper(VERSION_STEPS) && Proper(BINDING_STEPS) && Proper(LEGACY_STEPS)
    ensures EXCLUDED == {PathText("", VERSION_STEPS), PathText("", BINDING_STEPS), PathText("", LEGACY_STEPS)}
  {
    BookkeepingNames();
    ChapterName();
    assert VERSION_STEPS[1..] == [] && LEGACY_STEPS[1..] == [];
    TwoSteps("chapter_contract", "intent_evidence_bindings");
  }

  lemma TwoSteps(a: string, b: string)
    requires a != ""
    ensures PathText("", [Attr(a), Attr(b)]) == a + "." + b
  {
    assert [Attr(a), Attr(b)][1..] == [Attr(b)] && [Attr(b)][1..] == [];
    assert PathText(a, [Attr(b)]) == PathText(a + "." + b, []);
  }

  lemma {:induction false} KeptIffNoPrefix(p: string, steps: seq<Step>)
    ensures Kept(p, steps) <==> forall k :: 0 <= k <= |steps| ==> PathText(p, steps[..k]) !in EXCLUDED
    decreases |steps|
  {
    assert steps[..0] == [];
    if steps != [] {
      var q := StepPath(p, steps[0]);
      KeptIffNoPrefix(q, steps[1..]);
      forall k | 0 <= k < |steps|
        ensures PathText(q, steps[1..][..k]) == PathText(p, steps[..k + 1])
      {
        assert steps[..k + 1] == [steps[0]] + steps[1..][..k] && steps[..k + 1][1..] == steps[1..][..k];
      }
      if forall k :: 0 <= k <= |steps| ==> PathText(p, steps[..k]) !in EXCLUDED {
        forall k | 0 <= k <= |steps[1..]|
          ensures PathText(q, steps[1..][..k]) !in EXCLUDED
        {
          assert PathText(p, steps[..k + 1]) !in EXCLUDED;
        }
      }
      if Kept(q, steps[1..]) && p !in EXCLUDED {
        forall k | 0 <= k <= |steps|
          ensures PathText(p, steps[..k]) !in EXCLUDED
        {
          assert k > 0 ==> PathText(q, steps[1..][..k - 1]) !in EXCLUDED;
        }
      }
    }
  }

  lemma OnePrefix(steps: seq<Step>, place: seq<Step>)
    requires Proper(steps) && Proper(place)
    ensures place <= steps <==> exists k :: 0 <= k <= |steps| && PathText("", steps[..k]) == PathText("", place)
  {
    if place <= steps {
      assert steps[..|place|] == place;
    }
    forall k | 0 <= k <= |steps| && PathText("", steps[..k]) == PathText("", place)
      ensures place <= steps
    {
      assert forall step <- steps[..k] :: step in steps;
      PathTextInjective("", steps[..k], place);
    }
  }

  /** Flattening leaves out exactly the bookkeeping. */
  lemma KeptIff(steps: seq<Step>)
    requires Proper(steps)
    ensures Kept("", steps) <==> !IsBookkeeping(steps)
  {
    BookkeepingText();
    KeptIffNoPrefix("", steps);
    OnePrefix(steps, VERSION_STEPS);
    OnePrefix(steps, BINDING_STEPS);
    OnePrefix(steps, LEGACY_STEPS);
  }

  // ----- The same place in two decisions -----

  /** The scalar to which the steps lead, if they lead to one. */
  function ScalarAt(d: NarrativeDecision, steps: seq<Step>): Option<Scalar> {
    match Select(d.tree, steps)
    case Some(Leaf(v)) => Some(v)
    case _ => None
  }

  /** One decision has a scalar where the other has none, or one that Python does not equate with it. */
  predicate Altered(before: NarrativeDecision, after: NarrativeDecision, steps: seq<Step>) {
    match (ScalarAt(before, steps), ScalarAt(after, steps))
    case (Some(v), Some(w)) => !v.SameAs(w)
    case (None, None) => false
    case _ => true
  }

  /** A change request quotes a scalar as Python writes it. */
  function Quoted(scalar: Option<Scalar>): string {
    match scalar
    case Some(v) => v.AsText()
    case None => "<missing>"
  }

  lemma ScalarIsLeaf(d: NarrativeDecision, steps: seq<Step>)
    requires WellNamed(d.tree) && Proper(steps) && !IsBookkeeping(steps)
    ensures ScalarAt(d, steps).Some? <==> PathText("", steps) in LeavesOf(d)
    ensures ScalarAt(d, steps).Some? ==> LeavesOf(d)[PathText("", steps)] == ScalarAt(d, steps).value
  {
    var path := PathText("", steps);
    KeptIff(steps);
    if path in LeavesOf(d) {
      ReadIffListed(d, steps, LeavesOf(d)[path]);
    }
    if ScalarAt(d, steps).Some? {
      ReadIffListed(d, steps, ScalarAt(d, steps).value);
    }
  }

  /** The leaf maps differ at a path of content exactly if the decisions do. */
  lemma AlteredIffDiffers(before: NarrativeDecision, after: NarrativeDecision, steps: seq<Step>)
    requires WellNamed(before.tree) && WellNamed(after.tree) && Proper(steps) && !IsBookkeeping(steps)
    ensures Altered(before, after, steps) <==> Diffs.Differs(PathText("", steps), LeavesOf(before), LeavesOf(after))
  {
    ScalarIsLeaf(before, steps);
    ScalarIsLeaf(after, steps);
  }
}
