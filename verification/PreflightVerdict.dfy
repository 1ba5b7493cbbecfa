/** Whether a decision is ready for a contract: causal analysis first, then preflight with its result. */
module PreflightVerdict {
  import opened Wrappers
  import opened Decisions
  import Causality
  import DecisionReading
  import EvidenceIntegrity
  import PreflightGate

  /**
   What the verdict depends on besides the decision: the evidence sources that the baseline sources resolve to,
   whether the resolved inputs of causal analysis have their types, and which decisions meet the validation
   rules that are not modelled.
   */
  datatype Inputs = Inputs(evidence: EvidenceIntegrity.Resolver, typed: bool, valid: NarrativeDecision -> bool)

  function AnalysisOf(i: Inputs, d: NarrativeDecision): Causality.CausalResult {
    Causality.Analyze(DecisionReading.SubjectOf(d, i.valid(d)).candidate, i.typed)
  }

  /** Causal analysis of the decision is resolved, and preflight is ready with it. */
  ghost predicate PassesPreflight(i: Inputs, d: NarrativeDecision) {
    && Causality.IsResolved(AnalysisOf(i, d))
    && PreflightGate.Ready(DecisionReading.SubjectOf(d, i.valid(d)), Some(i.evidence), Some(AnalysisOf(i, d)))
  }

  /** `ready` is the verdict about every decision. */
  ghost predicate Judges(i: Inputs, ready: NarrativeDecision -> bool) {
    forall d :: ready(d) <==> PassesPreflight(i, d)
  }

  method CheckPreflight(i: Inputs, d: NarrativeDecision) returns (ready: bool)
    ensures ready <==> PassesPreflight(i, d)
  {
    var subject, causal := DecisionReading.SubjectOf(d, i.valid(d)), AnalysisOf(i, d);
    var issues := PreflightGate.ValidateContract(subject, Some(i.evidence), Some(causal));
    return Causality.IsResolved(causal) && Causality.NoneBlocks(issues);
  }
}
