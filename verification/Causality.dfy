/** Causal analysis of the optional candidates of a chapter contract, and its later re-validation. */
module Causality {
  import opened Wrappers
  import opened Text
  import opened Decisions
  import opened ContractFields
  import opened EvidenceIntegrity

  const RULESET := "causal-rules-v1"

  datatype Impact = Yes | No | Undetermined

  datatype DecidedBy = Rule | Human

  /**
   An optional candidate with the decision whether it belongs into this chapter. `proposed` is there
   exactly for known values.
   */
  datatype Resolution = Resolution(
    candidateId: string, known: bool, proposed: Option<string>, inputs: seq<Place>, impact: Impact,
    rationale: string, decidedBy: DecidedBy, decisionRef: string)
  {
    predicate Valid() {
      && !Blank(candidateId) && inputs != [] && !Blank(rationale) && !Blank(decisionRef)
      && (if known then proposed.Some? && !Blank(proposed.value) else proposed.None?)
    }
  }

  /** `sound` says that the candidate validates apart from its resolutions. */
  datatype Candidate = Candidate(decision: NarrativeDecision, content: Content, resolutions: seq<Resolution>,
                                 sound: bool)

  predicate CandidateValid(c: Candidate) {
    c.sound && forall r <- c.resolutions :: r.Valid()
  }

  datatype CausalResult = CausalResult(
    resolutions: seq<Resolution>, issues: seq<Issue>, hash: Option<ContentHash>, fields: seq<FieldName>,
      ruleset: string)

  predicate IsResolved(r: CausalResult) {
    r.issues == [] && r.hash.Some? && r.fields == CAUSAL_FIELDS && r.ruleset == RULESET
  }

  /** A readable causal field, or an item within the bounds of a readable array. */
  predicate Resolvable(c: Content, place: Place) {
    (place.At? || place.Item?) && NeedAt(c, place).Some?
  }

  function ScalarAt(c: Content, place: Place): Scalar
    requires Resolvable(c, place)
  {
    if place.At? then ReadScalar(c, place.field).value else ReadArray(c, place.field).value[place.index]
  }

  predicate Grounded(c: Content, r: Resolution) {
    r.inputs != [] && forall place <- r.inputs :: Resolvable(c, place)
  }

  predicate DecisionValid(c: Content, r: Resolution) {
    match r.decidedBy
    case Human => !Blank(r.decisionRef)
    case Rule => r.decisionRef == RULESET && Grounded(c, r)
  }

  predicate Included(c: Content, r: Resolution) {
    r.proposed.Some? && exists place <- r.inputs ::
      Resolvable(c, place) && ScalarAt(c, place).SameAs(Str(r.proposed.value))
  }

  /** The branches of the analysis, in order. */
  predicate Settled(c: Content, r: Resolution) {
    if !Grounded(c, r) then false
    else if r.impact.Undetermined? then false
    else if r.impact.No? then DecisionValid(c, r)
    else if !r.known then false
    else if !DecisionValid(c, r) then false
    else Included(c, r)
  }

  function OptionalPlace(r: Resolution): Place {
    Elsewhere("chapter_contract.optional_candidates[" + r.candidateId + "]")
  }

  const OPTIONAL := Elsewhere("chapter_contract.optional_candidates")

  const CONTRACT := Elsewhere("chapter_contract")

  function InvalidIssues(rs: seq<Resolution>): seq<Issue> {
    if rs == [] then []
    else
      InvalidIssues(rs[..|rs| - 1])
      + if rs[|rs| - 1].Valid() then [] else [Issue(InvalidCausalCandidate, OptionalPlace(rs[|rs| - 1]), true)]
  }

  function UnsettledIssues(c: Content, rs: seq<Resolution>): seq<Issue> {
    if rs == [] then []
    else
      UnsettledIssues(c, rs[..|rs| - 1])
      + if Settled(c, rs[|rs| - 1]) then [] else [Issue(UnresolvedCausalCandidate, OptionalPlace(rs[|rs| - 1]), true)]
  }

  /** A candidate that does not validate yields no resolutions at all. */
  function ValidateCandidate(c: Candidate): (seq<Resolution>, seq<Issue>) {
    if !c.sound then ([], [Issue(CausalAnalysisFailed, CONTRACT, true)])
    else (c.resolutions, InvalidIssues(c.resolutions))
  }

  /** `inputsValid` says that profile, snapshots, previous chapter and change requests have their types. */
  function Analyze(c: Candidate, inputsValid: bool): CausalResult {
    if !inputsValid then CausalResult([], [Issue(CausalAnalysisFailed, OPTIONAL, true)], None, CAUSAL_FIELDS, RULESET)
    else
      var (resolutions, problems) := ValidateCandidate(c);
      if problems != [] then CausalResult(resolutions, problems, None, CAUSAL_FIELDS, RULESET)
      else CausalResult(resolutions, UnsettledIssues(c.content, resolutions), Some(ContentHash(c.decision)),
                        CAUSAL_FIELDS, RULESET)
  }

  lemma InvalidIssuesEmpty(rs: seq<Resolution>)
    ensures InvalidIssues(rs) == [] <==> forall r <- rs :: r.Valid()
    ensures forall i <- InvalidIssues(rs) :: i.blocking
  {
    if rs != [] {
      assert rs == rs[..|rs| - 1] + [rs[|rs| - 1]];
    }
  }

  lemma UnsettledIssuesEmpty(c: Content, rs: seq<Resolution>)
    ensures UnsettledIssues(c, rs) == [] <==> forall r <- rs :: Settled(c, r)
    ensures forall i <- UnsettledIssues(c, rs) :: i.blocking
  {
    if rs != [] {
      assert rs == rs[..|rs| - 1] + [rs[|rs| - 1]];
    }
  }

  predicate NoneBlocks(issues: seq<Issue>) {
    forall i <- issues :: !i.blocking
  }

  /** A result that may still be used: it is the analysis of this very candidate, and everything in it is settled. */
  predicate Accepted(c: Candidate, result: Option<CausalResult>) {
    && result.Some? && NoneBlocks(result.value.issues) && CandidateValid(c)
    && result.value.resolutions == c.resolutions && (forall r <- c.resolutions :: Settled(c.content, r))
    && result.value.ruleset == RULESET && result.value.fields == CAUSAL_FIELDS
    && result.value.hash == Some(ContentHash(c.decision))
  }

  /** Re-checks a result against the candidate, collecting what speaks against it. */
  method ValidateResult(c: Candidate, result: Option<CausalResult>) returns (issues: seq<Issue>)
    ensures NoneBlocks(issues) <==> Accepted(c, result)
  {
    if result.None? {
      return [Issue(CausalAnalysisFailed, OPTIONAL, true)];
    }
    var r := result.value;
    issues := r.issues;
    var (resolutions, problems) := ValidateCandidate(c);
    InvalidIssuesEmpty(c.resolutions);
    issues := issues + problems;
    ghost var fine := NoneBlocks(r.issues) && CandidateValid(c);
    assert fine <==> NoneBlocks(issues) by {
      assert problems != [] ==> problems[0] in issues && problems[0].blocking;
    }
    if r.resolutions != resolutions {
      issues := AddIssue(issues, OPTIONAL);
    } else {
      var known := ValidOnes(resolutions);
      var unsettled := UnsettledIssues(c.content, known);
      UnsettledIssuesEmpty(c.content, known);
      assert CandidateValid(c) ==> known == c.resolutions by {
        if CandidateValid(c) {
          AllValid(resolutions);
        }
      }
      ghost var before := issues;
      issues := issues + unsettled;
      assert unsettled != [] ==> unsettled[0] in issues && unsettled[0].blocking;
      assert NoneBlocks(issues) <==> NoneBlocks(before) && unsettled == [];
    }
    assert NoneBlocks(issues) <==>
           fine && r.resolutions == c.resolutions && forall x <- c.resolutions :: Settled(c.content, x);
    if r.ruleset != RULESET {
      issues := AddIssue(issues, OPTIONAL);
    }
    if r.fields != CAUSAL_FIELDS {
      issues := AddIssue(issues, OPTIONAL);
    }
    if !CandidateValid(c) || r.hash != Some(ContentHash(c.decision)) {
      issues := AddIssue(issues, OPTIONAL);
    }
  }

  method AddIssue(issues: seq<Issue>, place: Place) returns (more: seq<Issue>)
    ensures more == issues + [Issue(CausalAnalysisFailed, place, true)] && !NoneBlocks(more)
  {
    more := issues + [Issue(CausalAnalysisFailed, place, true)];
    assert more[|issues|].blocking;
  }

  function ValidOnes(rs: seq<Resolution>): seq<Resolution> {
    if rs == [] then [] else (if rs[0].Valid() then [rs[0]] else []) + ValidOnes(rs[1..])
  }

  lemma AllValid(rs: seq<Resolution>)
    requires forall r <- rs :: r.Valid()
    ensures ValidOnes(rs) == rs
  {
  }

  /**
   For results without issues, re-validation accepts exactly the resolved analysis of this candidate; a
   result analysed for any other content is refused.
   */
  lemma AcceptedIffAnalysis(c: Candidate, result: CausalResult)
    ensures Accepted(c, Some(result)) && result.issues == [] <==> result == Analyze(c, true) && IsResolved(result)
    ensures Accepted(c, Some(result)) ==> result.hash == Some(ContentHash(c.decision))
  {
    InvalidIssuesEmpty(c.resolutions);
    UnsettledIssuesEmpty(c.content, c.resolutions);
  }

  /** A settled candidate that affects the chapter appears in it: one of the fields it depends on holds its value. */
  lemma SettledIsIncluded(c: Content, r: Resolution)
    requires Settled(c, r)
    ensures !r.impact.Undetermined? && DecisionValid(c, r)
    ensures r.impact.Yes? ==>
              exists place <- r.inputs ::
                Resolvable(c, place) && r.proposed.Some? && ScalarAt(c, place).SameAs(Str(r.proposed.value))
  {
  }
}
