/**
 What preflight, causal analysis and fulfillment read of a decision: its
 causal fields, controls, evidence and candidates.
 */
module DecisionReading {
  import opened Wrappers
  import opened Decisions
  import opened Evidence
  import opened ContractFields
  import opened EvidenceIntegrity
  import opened TreeReading
  import opened FieldPaths
  import Causality
  import Preflight

  // ----- Scalars and arrays -----

  function LeafAt(t: Tree, steps: seq<Step>): Option<Scalar> {
    match Select(t, steps)
    case Some(Leaf(value)) => Some(value)
    case _ => None
  }

  function ItemsAt(t: Tree, steps: seq<Step>): Option<seq<Tree>> {
    match Select(t, steps)
    case Some(Tuple(items)) => Some(items)
    case _ => None
  }

  /** Decodes all items, if each of them can be decoded. */
  function Collect<T>(items: seq<Tree>, decode: Tree -> Option<T>): (r: Option<seq<T>>)
    ensures r.Some? ==> |r.value| == |items| && forall i :: 0 <= i < |items| ==> decode(items[i]) == Some(r.value[i])
    ensures r.None? ==> exists item <- items :: decode(item).None?
  {
    if items == [] then Some([])
    else
      match (decode(items[0]), Collect(items[1..], decode))
      case (Some(first), Some(rest)) => Some([first] + rest)
      case _ => None
  }

  function ScalarOf(t: Tree): Option<Scalar> {
    if t.Leaf? then Some(t.value) else None
  }

  function ValuesAt(t: Tree, steps: seq<Step>): Option<seq<Scalar>> {
    match ItemsAt(t, steps)
    case Some(items) => Collect(items, ScalarOf)
    case None => None
  }

  /** A plan holds a tuple of values and either a text or nothing as its reason. */
  function PlanAt(t: Tree, f: FieldName): Option<Plan> {
    match (ValuesAt(t, Attrs(Names(f))), LeafAt(t, Attrs(ReasonNames(f))))
    case (Some(values), Some(reason)) => if reason.Null? || reason.Str? then Some(Plan(values, reason)) else None
    case _ => None
  }

  function ContentOf(t: Tree): Content {
    Content(
      map f: FieldName | !IsArray(f) && LeafAt(t, Attrs(Names(f))).Some? :: LeafAt(t, Attrs(Names(f))).value,
      map f: FieldName | IsArray(f) && !IsPlan(f) && ValuesAt(t, Attrs(Names(f))).Some? ::
        ValuesAt(t, Attrs(Names(f))).value,
      map f: FieldName | IsPlan(f) && PlanAt(t, f).Some? :: PlanAt(t, f).value,
      match LeafAt(t, Attrs(Names(ChoiceStatus))) case Some(status) => status case None => Null,
      ValuesAt(t, Attrs(MISSING)))
  }

  // ----- Controls -----

  function ControlAt(d: NarrativeDecision, control: Preflight.Control): Option<Scalar> {
    match control
    case ContractId => Some(Str(d.contractId))
    case ContractVersion => Some(Int(d.contractVersion))
    case ChapterNumber => Some(Int(d.chapter))
    case ChapterId => Some(Str(d.chapterId))
    case ProfileId => LeafAt(d.tree, [Attr("profile_id")])
    case VolumeId => LeafAt(d.tree, [Attr("volume_id")])
    case ArcId => LeafAt(d.tree, [Attr("arc_id")])
    case SchemaVersion => LeafAt(d.tree, [Attr("schema_version")])
    case Kind => LeafAt(d.tree, [Attr("kind")])
    case TargetChars => LeafAt(d.tree, [Attr(CHAPTER), Attr("target_chinese_chars")])
  }

  function ControlsOf(d: NarrativeDecision): map<Preflight.Control, Scalar> {
    map control: Preflight.Control | ControlAt(d, control).Some? :: ControlAt(d, control).value
  }

  // ----- Evidence references -----

  /** A text, which may be that of an enumeration. */
  function TextAt(t: Tree, name: string): Option<string> {
    match LeafAt(t, [Attr(name)])
    case Some(Str(text)) => Some(text)
    case Some(Enum(text)) => Some(text)
    case _ => None
  }

  function NumberAt(t: Tree, name: string): Option<int> {
    match LeafAt(t, [Attr(name)])
    case Some(Int(n)) => Some(n)
    case _ => None
  }

  function MemberAt(t: Tree, name: string): Option<string> {
    match LeafAt(t, [Attr(name)])
    case Some(Enum(text)) => Some(text)
    case _ => None
  }

  function RoleText(role: Role): string {
    match role
    case Intent => "intent"
    case Verification => "verification"
    case Realization => "realization"
    case NonApplicability => "non_applicability"
    case Decision => "decision"
  }

  function RoleAt(t: Tree): Option<Role> {
    match MemberAt(t, "role")
    case Some(text) =>
      if text == RoleText(Intent) then Some(Intent)
      else if text == RoleText(NonApplicability) then Some(NonApplicability)
      else if text == RoleText(Verification) then Some(Verification)
      else if text == RoleText(Realization) then Some(Realization)
      else if text == RoleText(Decision) then Some(Decision)
      else None
    case None => None
  }

  function LocatorAt(t: Tree): Option<Locator> {
    match Select(t, [Attr("locator")])
    case Some(locator) =>
      (match (TextAt(locator, "kind"), TextAt(locator, "value"))
       case (Some(kind), Some(value)) => Some(Locator(kind, value))
       case _ => None)
    case None => None
  }

  /** An asserted value, which may be missing; an enumeration is no scalar of evidence. */
  function AssertedIn(t: Tree): Option<Option<Value>> {
    match LeafAt(t, [Attr("asserted_value")])
    case Some(Null) => Some(None)
    case Some(Str(text)) => Some(Some(Text(text)))
    case Some(Int(n)) => Some(Some(Number(n)))
    case Some(Bool(b)) => Some(Some(Flag(b)))
    case _ => None
  }

  /** A reference that is bound to a field of a contract. */
  function RefOf(t: Tree): Option<EvidenceRef<string>> {
    var id, contract := TextAt(t, "evidence_id"), TextAt(t, "contract_id");
    var version, path := NumberAt(t, "contract_version"), TextAt(t, "field_path");
    var source, sourceVersion := TextAt(t, "source_id"), TextAt(t, "source_version");
    var hash, role, locator := TextAt(t, "source_content_hash"), RoleAt(t), LocatorAt(t);
    var excerpt, assertion, value := TextAt(t, "excerpt"), TextAt(t, "assertion"), AssertedIn(t);
    if && id.Some? && contract.Some? && version.Some? && path.Some? && role.Some? && source.Some? && sourceVersion.Some?
       && hash.Some? && locator.Some? && excerpt.Some? && assertion.Some? && value.Some?
    then
      Some(EvidenceRef(id.value, contract.value, version.value, path.value, role.value, source.value,
                       sourceVersion.value, hash.value, locator.value, excerpt.value, assertion.value, value.value))
    else None
  }

  /** The same reference with the place that its path names. */
  function Located(ref: EvidenceRef<string>): EvidenceRef<Place> {
    EvidenceRef(ref.evidenceId, ref.contractId, ref.contractVersion, PlaceOf(ref.fieldPath), ref.role, ref.sourceId,
                ref.sourceVersion, ref.sourceContentHash, ref.locator, ref.excerpt, ref.assertion, ref.assertedValue)
  }

  /** A reference without a contract binding has no field path. */
  function EntryOf(t: Tree): Entry {
    match RefOf(t)
    case Some(ref) => Bound(Located(ref))
    case None => if LeafAt(t, [Attr("field_path")]) == Some(Null) then Unbound else NotARef
  }

  function EntriesOf(items: seq<Tree>): (entries: seq<Entry>)
    ensures |entries| == |items| && forall i :: 0 <= i < |items| ==> entries[i] == EntryOf(items[i])
  {
    seq(|items|, i requires 0 <= i < |items| => EntryOf(items[i]))
  }

  function BoundEntries(refs: seq<EvidenceRef<string>>): (entries: seq<Entry>)
    ensures |entries| == |refs| && forall i :: 0 <= i < |refs| ==> entries[i] == Bound(Located(refs[i]))
  {
    seq(|refs|, i requires 0 <= i < |refs| => Bound(Located(refs[i])))
  }

  // ----- Evidence bindings -----

  const BINDINGS := [Attr(CHAPTER), Attr("intent_evidence_bindings")]

  /** What is no binding counts as one for the whole list. */
  function BoundPath(t: Tree): string {
    match TextAt(t, "field_path")
    case Some(path) => path
    case None => "chapter_contract.intent_evidence_bindings"
  }

  function BindingOf(t: Tree): Preflight.Binding {
    Preflight.Binding(
      PlaceOf(BoundPath(t)),
      match Select(t, [Attr("evidence")])
      case Some(Tuple(items)) => Some(EntriesOf(items))
      case Some(_) => None
      case None => Some([]))
  }

  function BindingList(items: seq<Tree>): (bindings: seq<Preflight.Binding>)
    ensures |bindings| == |items| && forall i :: 0 <= i < |items| ==> bindings[i] == BindingOf(items[i])
  {
    seq(|items|, i requires 0 <= i < |items| => BindingOf(items[i]))
  }

  function BindingsOf(t: Tree): Option<seq<Preflight.Binding>> {
    match ItemsAt(t, BINDINGS)
    case Some(items) => Some(BindingList(items))
    case None => None
  }

  /**
   A reference of the decision's own identity, about the binding's
   path, with a role that frozen evidence may have.
   */
  predicate RefFits(ref: EvidenceRef<string>, path: string, d: NarrativeDecision) {
    && ref.contractId == d.contractId && ref.contractVersion == d.contractVersion && ref.fieldPath == path
    && (ref.role.Intent? || ref.role.NonApplicability?)
  }

  function RefsOf(t: Tree): Option<seq<EvidenceRef<string>>> {
    match ItemsAt(t, [Attr("evidence")])
    case Some(items) => Collect(items, RefOf)
    case None => None
  }

  predicate BindingValid(t: Tree, d: NarrativeDecision) {
    && TextAt(t, "field_path").Some? && RefsOf(t).Some? && RefsOf(t).value != []
    && forall ref <- RefsOf(t).value :: RefFits(ref, BoundPath(t), d)
  }

  /** The validation rules for bindings: each is valid, and no path has two. */
  predicate BindingsValid(d: NarrativeDecision) {
    && ItemsAt(d.tree, BINDINGS).Some?
    && var items := ItemsAt(d.tree, BINDINGS).value;
       && (forall item <- items :: BindingValid(item, d))
       && forall i, j :: 0 <= i < j < |items| ==> BoundPath(items[i]) != BoundPath(items[j])
  }

  // ----- Optional candidates -----

  function TextIn(t: Tree): Option<string> {
    match t
    case Leaf(Str(text)) => Some(text)
    case Leaf(Enum(text)) => Some(text)
    case _ => None
  }

  function InputOf(t: Tree): Option<Place> {
    match TextIn(t)
    case Some(text) => Some(PlaceOf(text))
    case None => None
  }

  function InputsAt(t: Tree): Option<seq<Place>> {
    match ItemsAt(t, [Attr("dependency_inputs")])
    case Some(items) => Collect(items, InputOf)
    case None => None
  }

  function ProposedAt(t: Tree): Option<Option<string>> {
    match LeafAt(t, [Attr("proposed_value")])
    case Some(Null) => Some(None)
    case Some(Str(text)) => Some(Some(text))
    case Some(Enum(text)) => Some(Some(text))
    case _ => None
  }

  function KnownAt(t: Tree): Option<bool> {
    match MemberAt(t, "value_state")
    case Some(text) => if text == "known" then Some(true) else if text == "unknown" then Some(false) else None
    case None => None
  }

  function ImpactAt(t: Tree): Option<Causality.Impact> {
    match MemberAt(t, "affects_current_chapter")
    case Some(text) =>
      if text == "yes" then Some(Causality.Yes)
      else if text == "no" then Some(Causality.No)
      else if text == "undetermined" then Some(Causality.Undetermined)
      else None
    case None => None
  }

  function DeciderAt(t: Tree): Option<Causality.DecidedBy> {
    match MemberAt(t, "decided_by")
    case Some(text) =>
      if text == "rule" then Some(Causality.Rule) else if text == "human" then Some(Causality.Human) else None
    case None => None
  }

  function ResolutionOf(t: Tree): Option<Causality.Resolution> {
    var id, known, proposed, inputs := TextAt(t, "candidate_id"), KnownAt(t), ProposedAt(t), InputsAt(t);
    var impact, rationale, decider, ref := ImpactAt(t), TextAt(t, "rationale"), DeciderAt(t), TextAt(t, "decision_ref");
    if && id.Some? && known.Some? && proposed.Some? && inputs.Some? && impact.Some? && rationale.Some? && decider.Some?
       && ref.Some? && MemberAt(t, "kind").Some?
    then
      Some(Causality.Resolution(id.value, known.value, proposed.value, inputs.value, impact.value, rationale.value,
                                decider.value, ref.value))
    else None
  }

  function ResolutionsOf(t: Tree): Option<seq<Causality.Resolution>> {
    match ItemsAt(t, [Attr(CHAPTER), Attr("optional_candidates")])
    case Some(items) => Collect(items, ResolutionOf)
    case None => None
  }

  // ----- The whole subject -----

  function Obligations(t: Tree): nat {
    match ItemsAt(t, [Attr(CHAPTER), Attr("engagement_obligations")])
    case Some(items) => |items|
    case None => 0
  }

  /** `valid` stands for the validation rules of a decision that are not modelled. */
  function SubjectOf(d: NarrativeDecision, valid: bool): Preflight.Subject {
    var resolutions := ResolutionsOf(d.tree);
    var sound := valid && d.Valid() && BindingsValid(d) && resolutions.Some?;
    Preflight.Subject(
      Causality.Candidate(d, ContentOf(d.tree), if resolutions.Some? then resolutions.value else [], sound),
      ControlsOf(d), BindingsOf(d.tree), Obligations(d.tree))
  }
}
