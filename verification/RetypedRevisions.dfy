/** What happens to a revision request whose values Python equates with the leaves although their types differ. */
module RetypedRevisions {
  import opened Wrappers
  import opened Decisions
  import opened Lifecycle
  import Diffs
  import Revision

  /** The same replacement, except that values of the request's changes may have another type. */
  predicate Retyped(r: Replacement, s: Replacement) {
    s == r.(request := s.request) && Revision.SameRequest(r.request, s.request)
  }

  /** No boolean stands for an integer or the other way round. */
  predicate SameFlags(c: Diffs.Change, d: Diffs.Change) {
    (c.oldValue.Bool? <==> d.oldValue.Bool?) && (c.newValue.Bool? <==> d.newValue.Bool?)
  }

  predicate AllSameFlags(a: seq<Diffs.Change>, b: seq<Diffs.Change>) {
    |a| == |b| && forall i :: 0 <= i < |a| ==> SameFlags(a[i], b[i])
  }

  lemma ChangeDigests(c: Diffs.Change, d: Diffs.Change)
    requires Diffs.SameChange(c, d)
    ensures TextOf(c) == TextOf(d) <==> SameFlags(c, d)
    ensures Encoded(c) == Encoded(d) <==> SameFlags(c, d)
  {
    SameAsText(c.oldValue, d.oldValue);
    SameAsText(c.newValue, d.newValue);
  }

  lemma ChangesDigests(a: seq<Diffs.Change>, b: seq<Diffs.Change>)
    requires Diffs.SameChanges(a, b)
    ensures ChangeTexts(a) == ChangeTexts(b) <==> AllSameFlags(a, b)
    ensures EncodedChanges(a) == EncodedChanges(b) <==> AllSameFlags(a, b)
  {
    forall i | 0 <= i < |a|
      ensures ChangeTexts(a)[i] == ChangeTexts(b)[i] <==> SameFlags(a[i], b[i])
      ensures EncodedChanges(a)[i] == EncodedChanges(b)[i] <==> SameFlags(a[i], b[i])
    {
      ChangeDigests(a[i], b[i]);
    }
  }

  /** Both digests of a revision tell booleans from integers, and nothing else that Python equates. */
  lemma RetypedDigests(r: Replacement, s: Replacement, stage: PrepareStage)
    requires Retyped(r, s)
    ensures AuthorityFor(r) == AuthorityFor(s) <==> AllSameFlags(r.request.changes, s.request.changes)
    ensures PrepareAt(r, stage) == PrepareAt(s, stage) <==> AllSameFlags(r.request.changes, s.request.changes)
  {
    ChangesDigests(r.request.changes, s.request.changes);
    Diffs.SameChangesPaths(r.request.changes, s.request.changes);
  }

  lemma SameVerdict(r: Revision.Request, s: Revision.Request, current: NarrativeDecision,
                    replacement: NarrativeDecision,
                    causal: seq<string>, requests: seq<Revision.ChangeRequest>)
    requires Revision.SameRequest(r, s)
    ensures Revision.Verify(r, current, replacement, causal, requests) ==
            Revision.Verify(s, current, replacement, causal, requests)
  {
    forall changes
      ensures Diffs.SameChanges(r.changes, changes) <==> Diffs.SameChanges(s.changes, changes)
    {
      Diffs.SameChangesEquivalence(r.changes, s.changes);
      Diffs.SameChangesEquivalence(s.changes, r.changes);
    }
    Revision.SamePathsCovered(r.changes, s.changes, r.causal);
  }

  lemma SameRefusal(p: Project, r: Replacement, s: Replacement, pointer: Pointer)
    requires Retyped(r, s) && pointer.key in p.items
    ensures RevisionRefusal(p, r, pointer) == RevisionRefusal(p, s, pointer)
  {
    SameVerdict(r.request, s.request, p.items[pointer.key].decision, r.decision, r.causal, r.requests);
  }

  lemma SameWrites(p: Project, r: Replacement, s: Replacement)
    requires Retyped(r, s) && AllSameFlags(r.request.changes, s.request.changes)
    ensures PrepareCandidate(p, r) == PrepareCandidate(p, s)
  {
    forall stage
      ensures PrepareAt(r, stage) == PrepareAt(s, stage) && AuthorityFor(r) == AuthorityFor(s)
    {
      RetypedDigests(r, s, stage);
    }
  }

  /** The prepare journal of this version was written for `r`. */
  predicate PreparedFor(p: Project, r: Replacement) {
    KeyOf(r) in p.prepares && p.prepares[KeyOf(r)].(stage := PreparePrepared) == PrepareAt(r, PreparePrepared)
  }

  /**
   A retyped request is verified like the original. If it only swaps texts and enumerations every call with
   it does what the original does; if it swaps a boolean and an integer, it is refused as a conflict once the
   original has written its journal.
   */
  lemma RetypedReplacement(p: Project, r: Replacement, s: Replacement)
    requires Retyped(r, s)
    ensures AllSameFlags(r.request.changes, s.request.changes) ==> CreateReplacement(p, s) == CreateReplacement(p, r)
    ensures !AllSameFlags(r.request.changes, s.request.changes) && PreparedFor(p, r) ==>
              && CreateReplacement(p, s).steps == []
              && (CreateReplacement(p, r).answer.Success? ==>
                  CreateReplacement(p, s).answer == Failure(PrepareConflict))
  {
    var current := ReadPointer(p, KeyOf(r).contractId);
    if current.Success? && current.value.Some? {
      SameRefusal(p, r, s, current.value.value);
    }
    if AllSameFlags(r.request.changes, s.request.changes) {
      SameWrites(p, r, s);
    } else if PreparedFor(p, r) {
      RetypedDigests(r, s, PreparePrepared);
    }
  }
}
