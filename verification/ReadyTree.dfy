/**
 The tree of a complete contract: a value in every causal field, evidence for each of them, and one optional
 candidate. Its last plan may be empty with a reason instead.
 */
module ReadyTree {
  import opened Wrappers
  import opened Text
  import opened Decisions
  import opened Evidence
  import opened ContractFields
  import opened TreeReading
  import opened FieldPaths
  import opened DecisionReading
  import Leaves

  const CONTRACT_NAME := "narrative-chapter-" + Padded(1, 3)

  const CHAPTER_NAME := "chapter_" + Padded(1, 3)

  /** What a causal field holds: the two enumerated fields a member, the others a text. */
  function ValueOf(f: FieldName): Scalar {
    match f
    case ArcPhase => Enum("turn")
    case ChoiceStatus => Enum("complete")
    case _ => Str("said")
  }

  function Said(): Tree {
    Leaf(Str("said"))
  }

  function Items(): Tree {
    Tuple([Said()])
  }

  function PlanTree(): Tree {
    Record([Field("values", Items()), Field("not_applicable_reason", Leaf(Null))])
  }

  /** An empty plan. */
  function WaivedTree(): Tree {
    Record([Field("values", Tuple([])), Field("not_applicable_reason", Said())])
  }

  /** What versions may differ in: the evidence bindings, the optional candidates and the last plan. */
  datatype Parts = Parts(bindings: Tree, candidates: Tree, waived: bool) {
    function Forbidden(): Tree {
      if waived then WaivedTree() else PlanTree()
    }
  }

  function ChoiceTree(): Tree {
    Record([Field("actor", Said()), Field("action", Said()), Field("alternatives", Items()), Field("cost", Said()),
            Field("consequence", Said()), Field("status", Leaf(Enum("complete"))), Field("missing_fields", Tuple([]))])
  }

  function ReaderTree(): Tree {
    Record([Field("before", Said()), Field("after", Said())])
  }

  function InformationTree(): Tree {
    Record([Field("reveal", Items()), Field("withhold", Items()), Field("misdirect", PlanTree())])
  }

  function PressureTree(): Tree {
    Record([Field("start", Said()), Field("turn", Said()), Field("end", Said())])
  }

  /** The chapter's fields that do not depend on the version. */
  function ChapterFields(): seq<Field> {
    [Field("functions", Items()), Field("dramatic_question", Said()), Field("protagonist_choice", ChoiceTree()),
     Field("reader_change", ReaderTree()), Field("information", InformationTree()),
     Field("pressure_curve", PressureTree()),
     Field("foreshadow_actions", PlanTree()), Field("ending_shift", Said()),
     Field("chapter_id", Leaf(Str(CHAPTER_NAME)))]
  }

  function PartFields(parts: Parts): seq<Field> {
    [Field("intent_evidence_bindings", parts.bindings), Field("optional_candidates", parts.candidates),
     Field("forbidden", parts.Forbidden())]
  }

  function ChapterTree(n: nat, parts: Parts): Tree {
    Record(PartFields(parts) + ChapterFields() + [Field("target_chinese_chars", Leaf(Int(n)))])
  }

  function TopFields(): seq<Field> {
    [Field("inherited_pressure", Said()), Field("future_pressures", Items()), Field("arc_phase", Leaf(Enum("turn"))),
     Field("arc_goal", Said()), Field("kind", Leaf(Str("narrative_decision"))), Field("schema_version", Leaf(Int(2))),
     Field("profile_id", Said()), Field("volume_id", Said()), Field("arc_id", Said()), Field("chapter", Leaf(Int(1))),
     Field("contract_id", Leaf(Str(CONTRACT_NAME)))]
  }

  /** Version `n`, which asks for a length of `n`. */
  function ContractTree(n: nat, parts: Parts): Tree {
    Record([Field("contract_version", Leaf(Int(n)))] + TopFields() + [Field(CHAPTER, ChapterTree(n, parts))])
  }

  // ----- Reading it -----

  /** Follows attribute names only. */
  function ReadNames(t: Tree, names: seq<string>): Option<Tree>
    decreases |names|
  {
    if names == [] then Some(t)
    else
      match Child(t, Attr(names[0]))
      case Some(child) => ReadNames(child, names[1..])
      case None => None
  }

  lemma {:induction false} SelectNames(t: Tree, names: seq<string>)
    ensures Select(t, Attrs(names)) == ReadNames(t, names)
    decreases |names|
  {
    if names != [] {
      assert Attrs(names)[1..] == Attrs(names[1..]);
      if Child(t, Attr(names[0])).Some? {
        SelectNames(Child(t, Attr(names[0])).value, names[1..]);
      }
    }
  }

  lemma {:induction false} LookupConcat(a: seq<Field>, b: seq<Field>, name: string)
    ensures Lookup(a + b, name) == if Lookup(a, name).Some? then Lookup(a, name) else Lookup(b, name)
  {
    if a == [] {
      assert a + b == b;
    } else {
      assert (a + b)[1..] == a[1..] + b;
      LookupConcat(a[1..], b, name);
    }
  }

  lemma TopReads(n: nat, parts: Parts, name: string)
    requires name != "" && name[0] != 'c' && Lookup(TopFields(), name).Some?
    ensures Child(ContractTree(n, parts), Attr(name)) == Lookup(TopFields(), name)
  {
    var first, last := [Field("contract_version", Leaf(Int(n)))], [Field(CHAPTER, ChapterTree(n, parts))];
    LookupConcat(first + TopFields(), last, name);
    LookupConcat(first, TopFields(), name);
  }

  predicate IsContent(name: string) {
    name != "intent_evidence_bindings" && name != "optional_candidates" && name != "forbidden"
  }

  lemma NoPart(parts: Parts, name: string)
    requires IsContent(name)
    ensures Lookup(PartFields(parts), name).None?
  {
    var fields := PartFields(parts);
    assert Lookup(fields[3..], name).None?;
    assert fields[2..][1..] == fields[3..] && fields[1..][1..] == fields[2..];
    assert Lookup(fields[2..], name).None?;
    assert Lookup(fields[1..], name).None?;
  }

  lemma ChapterReads(n: nat, parts: Parts, name: string)
    requires IsContent(name) && Lookup(ChapterFields(), name).Some?
    ensures Child(ChapterTree(n, parts), Attr(name)) == Lookup(ChapterFields(), name)
  {
    var first, last := PartFields(parts), [Field("target_chinese_chars", Leaf(Int(n)))];
    LookupConcat(first + ChapterFields(), last, name);
    LookupConcat(first, ChapterFields(), name);
    NoPart(parts, name);
  }

  lemma {:induction false} LookupNone(fields: seq<Field>, name: string)
    requires name != "" && forall field <- fields :: |field.name| != |name| || field.name[0] != name[0]
    ensures Lookup(fields, name).None?
  {
    if fields != [] {
      LookupNone(fields[1..], name);
    }
  }

  lemma ChapterIsNoTopField()
    ensures Lookup(TopFields(), CHAPTER).None?
  {
    forall field <- TopFields()
      ensures |field.name| != |CHAPTER| || field.name[0] != CHAPTER[0]
    {
    }
    LookupNone(TopFields(), CHAPTER);
  }

  lemma ChapterIsLast(n: nat, parts: Parts)
    ensures Child(ContractTree(n, parts), Attr(CHAPTER)) == Some(ChapterTree(n, parts))
  {
    var first, last := [Field("contract_version", Leaf(Int(n)))], [Field(CHAPTER, ChapterTree(n, parts))];
    assert CHAPTER[1] != "contract_version"[1];
    ChapterIsNoTopField();
    LookupConcat(first + TopFields(), last, CHAPTER);
    LookupConcat(first, TopFields(), CHAPTER);
  }

  /** Below the chapter, reading goes on from the chapter's own field. */
  lemma BelowChapter(n: nat, parts: Parts, name: string, rest: seq<string>)
    requires IsContent(name) && Lookup(ChapterFields(), name).Some?
    ensures ReadNames(ContractTree(n, parts), [CHAPTER, name] + rest) ==
            ReadNames(Lookup(ChapterFields(), name).value, rest)
  {
    ChapterIsLast(n, parts);
    ChapterReads(n, parts, name);
    assert ([CHAPTER, name] + rest)[1..] == [name] + rest && ([name] + rest)[1..] == rest;
  }

  /** What the tree holds at a causal field. */
  function HeldAt(f: FieldName): Tree {
    if IsArray(f) then Items() else Leaf(ValueOf(f))
  }

  predicate IsTop(f: FieldName) {
    f.ArcPhase? || f.ArcGoal? || f.InheritedPressure? || f.FuturePressures?
  }

  ghost predicate HoldsTopFields(fields: seq<Field>) {
    && Lookup(fields, "arc_phase") == Some(Leaf(Enum("turn"))) && Lookup(fields, "arc_goal") == Some(Said())
    && Lookup(fields, "inherited_pressure") == Some(Said()) && Lookup(fields, "future_pressures") == Some(Items())
  }

  lemma ArcNamesFound()
    ensures Lookup(TopFields(), "arc_phase") == Some(Leaf(Enum("turn")))
            && Lookup(TopFields(), "arc_goal") == Some(Said())
  {
  }

  lemma PressureNamesFound()
    ensures Lookup(TopFields(), "inherited_pressure") == Some(Said())
    ensures Lookup(TopFields(), "future_pressures") == Some(Items())
  {
  }

  lemma TopFieldFound(fields: seq<Field>, f: FieldName)
    requires HoldsTopFields(fields) && IsTop(f)
    ensures Lookup(fields, Names(f)[0]) == Some(HeldAt(f))
  {
  }

  lemma TopNameHolds(n: nat, parts: Parts, name: string, child: Tree)
    requires name != "" && name[0] != 'c' && Lookup(TopFields(), name) == Some(child)
    ensures ReadNames(ContractTree(n, parts), [name]) == Some(child)
  {
    TopReads(n, parts, name);
    assert ReadNames(child, []) == Some(child);
  }

  lemma TopNameShape(f: FieldName)
    requires IsTop(f)
    ensures |Names(f)| == 1 && Names(f)[0] != "" && Names(f)[0][0] != 'c'
  {
    FieldHasShape(f);
  }

  lemma TopFound(f: FieldName)
    requires IsTop(f)
    ensures Lookup(TopFields(), Names(f)[0]) == Some(HeldAt(f))
  {
    ArcNamesFound();
    PressureNamesFound();
    TopFieldFound(TopFields(), f);
  }

  lemma TopHolds(n: nat, parts: Parts, f: FieldName)
    requires IsTop(f)
    ensures ReadNames(ContractTree(n, parts), Names(f)) == Some(HeldAt(f))
  {
    TopFound(f);
    TopNameShape(f);
    TopNameHolds(n, parts, Names(f)[0], HeldAt(f));
    assert Names(f) == [Names(f)[0]];
  }

  lemma ChapterNamesFound()
    ensures Lookup(ChapterFields(), "functions") == Some(Items())
    ensures Lookup(ChapterFields(), "dramatic_question") == Some(Said())
    ensures Lookup(ChapterFields(), "protagonist_choice") == Some(ChoiceTree())
    ensures Lookup(ChapterFields(), "reader_change") == Some(ReaderTree())
    ensures Lookup(ChapterFields(), "information") == Some(InformationTree())
    ensures Lookup(ChapterFields(), "pressure_curve") == Some(PressureTree())
    ensures Lookup(ChapterFields(), "foreshadow_actions") == Some(PlanTree())
    ensures Lookup(ChapterFields(), "ending_shift") == Some(Said())
  {
  }

  /** What the chapter holds directly, apart from the last plan. */
  function PartTree(f: FieldName): Tree
    requires !IsTop(f)
  {
    match f
    case ChoiceStatus | ChoiceActor | ChoiceAction | ChoiceAlternatives | ChoiceCost | ChoiceConsequence => ChoiceTree()
    case ReaderBefore | ReaderAfter => ReaderTree()
    case Reveal | Withhold | Misdirect => InformationTree()
    case PressureStart | PressureTurn | PressureEnd => PressureTree()
    case Foreshadow => PlanTree()
    case _ => HeldAt(f)
  }

  lemma PartFound(f: FieldName)
    requires !IsTop(f) && f != Forbidden
    ensures Lookup(ChapterFields(), Names(f)[1]) == Some(PartTree(f))
  {
    ChapterNamesFound();
  }

  lemma PartIsContent(f: FieldName)
    requires !IsTop(f) && f != Forbidden
    ensures Names(f)[0] == CHAPTER && IsContent(Names(f)[1])
  {
    FieldHasShape(f);
    assert |"intent_evidence_bindings"| == 24 && |"optional_candidates"| == 19 && |"forbidden"| == 9;
    assert f.Functions? ==> Names(f)[1][1] != "forbidden"[1];
  }

  predicate IsChoice(f: FieldName) {
    f.ChoiceStatus? || f.ChoiceActor? || f.ChoiceAction? || f.ChoiceAlternatives? || f.ChoiceCost?
      || f.ChoiceConsequence?
  }

  ghost predicate HoldsChoice(fields: seq<Field>) {
    && Lookup(fields, "actor") == Some(Said()) && Lookup(fields, "action") == Some(Said())
    && Lookup(fields, "alternatives") == Some(Items()) && Lookup(fields, "cost") == Some(Said())
    && Lookup(fields, "consequence") == Some(Said()) && Lookup(fields, "status") == Some(Leaf(Enum("complete")))
    && Lookup(fields, "missing_fields") == Some(Tuple([]))
  }

  lemma ChoiceNamesFound()
    ensures HoldsChoice(ChoiceTree().fields)
  {
  }

  lemma ChoiceFieldHolds(fields: seq<Field>, f: FieldName)
    requires HoldsChoice(fields) && IsChoice(f)
    ensures ReadNames(Record(fields), Names(f)[2..]) == Some(HeldAt(f))
  {
    assert Names(f)[2..] == [Names(f)[2]];
    assert ReadNames(HeldAt(f), []) == Some(HeldAt(f));
  }

  lemma ChoiceHolds(f: FieldName)
    requires IsChoice(f)
    ensures ReadNames(ChoiceTree(), Names(f)[2..]) == Some(HeldAt(f))
  {
    ChoiceNamesFound();
    ChoiceFieldHolds(ChoiceTree().fields, f);
  }

  lemma MisdirectHolds()
    ensures ReadNames(InformationTree(), ["misdirect", "values"]) == Some(Items())
    ensures Names(Misdirect)[2..] == ["misdirect", "values"]
  {
    assert ["misdirect", "values"][1..] == ["values"];
    assert Child(InformationTree(), Attr("misdirect")) == Some(PlanTree());
    assert ReadNames(PlanTree(), ["values"]) == Some(Items());
  }

  lemma PartHolds(f: FieldName)
    requires !IsTop(f) && !IsChoice(f) && f != Forbidden
    ensures ReadNames(PartTree(f), Names(f)[2..]) == Some(HeldAt(f))
  {
    if f.Misdirect? {
      MisdirectHolds();
    } else if |Names(f)| == 2 {
      assert Names(f)[2..] == [];
    } else {
      assert Names(f)[2..] == [Names(f)[2]];
    }
  }

  lemma FieldHolds(n: nat, parts: Parts, f: FieldName)
    requires f != Forbidden
    ensures ReadNames(ContractTree(n, parts), Names(f)) == Some(HeldAt(f))
  {
    if IsTop(f) {
      TopHolds(n, parts, f);
    } else {
      PartFound(f);
      PartIsContent(f);
      if IsChoice(f) {
        ChoiceHolds(f);
      } else {
        PartHolds(f);
      }
      BelowChapter(n, parts, Names(f)[1], Names(f)[2..]);
      assert Names(f) == [CHAPTER, Names(f)[1]] + Names(f)[2..];
    }
  }

  lemma ReasonHolds(n: nat, parts: Parts, f: FieldName)
    requires IsPlan(f) && f != Forbidden
    ensures ReadNames(ContractTree(n, parts), ReasonNames(f)) == Some(Leaf(Null))
  {
    PartFound(f);
    PartIsContent(f);
    BelowChapter(n, parts, Names(f)[1], ReasonNames(f)[2..]);
    assert ReasonNames(f) == [CHAPTER, Names(f)[1]] + ReasonNames(f)[2..];
    PlanReasonHolds(f);
  }

  lemma PlanReasonHolds(f: FieldName)
    requires IsPlan(f) && f != Forbidden
    ensures ReadNames(PartTree(f), ReasonNames(f)[2..]) == Some(Leaf(Null))
  {
    assert ReadNames(PlanTree(), ["not_applicable_reason"]) == Some(Leaf(Null));
    if f.Misdirect? {
      assert ReasonNames(f)[2..] == ["misdirect", "not_applicable_reason"];
      assert ["misdirect", "not_applicable_reason"][1..] == ["not_applicable_reason"];
      assert Child(InformationTree(), Attr("misdirect")) == Some(PlanTree());
    } else {
      assert ReasonNames(f)[2..] == ["not_applicable_reason"];
    }
  }

  lemma MissingHolds(n: nat, parts: Parts)
    ensures ReadNames(ContractTree(n, parts), MISSING) == Some(Tuple([]))
  {
    var rest := ["missing_fields"];
    PartFound(ChoiceActor);
    PartIsContent(ChoiceActor);
    BelowChapter(n, parts, "protagonist_choice", rest);
    assert MISSING == [CHAPTER, "protagonist_choice"] + rest;
    ChoiceNamesFound();
    assert rest[1..] == [] && ReadNames(ChoiceTree(), rest) == Some(Tuple([]));
  }

  /** A field of the chapter that stands in none of its other fields. */
  lemma ChapterChild(n: nat, parts: Parts, name: string, child: Tree)
    requires Child(ChapterTree(n, parts), Attr(name)) == Some(child)
    ensures Select(ContractTree(n, parts), [Attr(CHAPTER), Attr(name)]) == Some(child)
  {
    ChapterIsLast(n, parts);
    assert [Attr(CHAPTER), Attr(name)][1..] == [Attr(name)] && [Attr(name)][1..] == [];
    assert Select(ChapterTree(n, parts), [Attr(name)]) == Select(child, []);
  }

  lemma PartNames()
    ensures "intent_evidence_bindings" != "optional_candidates" && "intent_evidence_bindings" != "forbidden"
    ensures "optional_candidates" != "forbidden"
  {
    assert |"intent_evidence_bindings"| == 24 && |"optional_candidates"| == 19 && |"forbidden"| == 9;
  }

  lemma PartsFound(parts: Parts)
    ensures Lookup(PartFields(parts), "intent_evidence_bindings") == Some(parts.bindings)
    ensures Lookup(PartFields(parts), "optional_candidates") == Some(parts.candidates)
    ensures Lookup(PartFields(parts), "forbidden") == Some(parts.Forbidden())
  {
    PartNames();
    LookupAt(PartFields(parts), 0);
    LookupAt(PartFields(parts), 1);
    LookupAt(PartFields(parts), 2);
  }

  lemma PartsHold(n: nat, parts: Parts, name: string)
    requires Lookup(PartFields(parts), name).Some?
    ensures Child(ChapterTree(n, parts), Attr(name)) == Lookup(PartFields(parts), name)
  {
    LookupConcat(PartFields(parts) + ChapterFields(), [Field("target_chinese_chars", Leaf(Int(n)))], name);
    LookupConcat(PartFields(parts), ChapterFields(), name);
  }

  lemma EvidenceHolds(n: nat, parts: Parts)
    ensures Select(ContractTree(n, parts), BINDINGS) == Some(parts.bindings)
    ensures Select(ContractTree(n, parts), [Attr(CHAPTER), Attr("optional_candidates")]) == Some(parts.candidates)
  {
    PartsFound(parts);
    PartsHold(n, parts, "intent_evidence_bindings");
    PartsHold(n, parts, "optional_candidates");
    ChapterChild(n, parts, "intent_evidence_bindings", parts.bindings);
    ChapterChild(n, parts, "optional_candidates", parts.candidates);
  }

  lemma ForbiddenHolds(n: nat, parts: Parts, rest: seq<string>)
    ensures ReadNames(ContractTree(n, parts), [CHAPTER, "forbidden"] + rest) == ReadNames(parts.Forbidden(), rest)
  {
    PartsFound(parts);
    PartsHold(n, parts, "forbidden");
    ChapterIsLast(n, parts);
    assert ([CHAPTER, "forbidden"] + rest)[1..] == ["forbidden"] + rest && (["forbidden"] + rest)[1..] == rest;
  }

  lemma ForbiddenReads(n: nat, parts: Parts)
    ensures var t := ContractTree(n, parts);
            && ReadNames(t, Names(Forbidden)) == Some(if parts.waived then Tuple([]) else Items())
            && ReadNames(t, ReasonNames(Forbidden)) == Some(if parts.waived then Said() else Leaf(Null))
  {
    ForbiddenHolds(n, parts, ["values"]);
    ForbiddenHolds(n, parts, ["not_applicable_reason"]);
    assert Names(Forbidden) == [CHAPTER, "forbidden"] + ["values"];
    assert ReasonNames(Forbidden) == [CHAPTER, "forbidden"] + ["not_applicable_reason"];
    assert ["values"][1..] == [] && ["not_applicable_reason"][1..] == [];
  }

  lemma TargetIsNoOtherField()
    ensures Lookup(ChapterFields(), "target_chinese_chars").None?
  {
    forall field <- ChapterFields()
      ensures |field.name| != |"target_chinese_chars"|
    {
    }
    LookupNone(ChapterFields(), "target_chinese_chars");
  }

  lemma TargetIsNoPart(parts: Parts)
    ensures Lookup(PartFields(parts), "target_chinese_chars").None?
  {
    var names := ["intent_evidence_bindings", "optional_candidates", "forbidden"];
    assert |names[0]| == 24 && |names[1]| == 19 && |names[2]| == 9 && |"target_chinese_chars"| == 20;
    LookupNone(PartFields(parts), "target_chinese_chars");
  }

  lemma TargetHolds(n: nat, parts: Parts)
    ensures Select(ContractTree(n, parts), [Attr(CHAPTER), Attr("target_chinese_chars")]) == Some(Leaf(Int(n)))
  {
    var evidence, last := PartFields(parts), [Field("target_chinese_chars", Leaf(Int(n)))];
    LookupConcat(evidence + ChapterFields(), last, "target_chinese_chars");
    LookupConcat(evidence, ChapterFields(), "target_chinese_chars");
    TargetIsNoPart(parts);
    TargetIsNoOtherField();
    ChapterChild(n, parts, "target_chinese_chars", Leaf(Int(n)));
  }

  lemma IdNamesFound()
    ensures Lookup(TopFields(), "profile_id") == Some(Said()) && Lookup(TopFields(), "volume_id") == Some(Said())
    ensures Lookup(TopFields(), "arc_id") == Some(Said())
  {
  }

  lemma SchemaNamesFound()
    ensures Lookup(TopFields(), "schema_version") == Some(Leaf(Int(2)))
    ensures Lookup(TopFields(), "kind") == Some(Leaf(Str("narrative_decision")))
  {
  }

  lemma TopLeaf(n: nat, parts: Parts, name: string, v: Scalar)
    requires name != "" && name[0] != 'c' && Lookup(TopFields(), name) == Some(Leaf(v))
    ensures LeafAt(ContractTree(n, parts), [Attr(name)]) == Some(v)
  {
    TopNameHolds(n, parts, name, Leaf(v));
    SelectNames(ContractTree(n, parts), [name]);
    assert Attrs([name]) == [Attr(name)];
  }

  lemma ControlsHold(n: nat, parts: Parts)
    ensures var t := ContractTree(n, parts);
            && LeafAt(t, [Attr("profile_id")]) == Some(Str("said"))
            && LeafAt(t, [Attr("volume_id")]) == Some(Str("said"))
            && LeafAt(t, [Attr("arc_id")]) == Some(Str("said")) && LeafAt(t, [Attr("schema_version")]) == Some(Int(2))
            && LeafAt(t, [Attr("kind")]) == Some(Str("narrative_decision"))
  {
    IdNamesFound();
    SchemaNamesFound();
    TopLeaf(n, parts, "profile_id", Str("said"));
    TopLeaf(n, parts, "volume_id", Str("said"));
    TopLeaf(n, parts, "arc_id", Str("said"));
    TopLeaf(n, parts, "schema_version", Int(2));
    TopLeaf(n, parts, "kind", Str("narrative_decision"));
  }

  // ----- As content -----

  lemma NoValue(t: Tree, names: seq<string>)
    requires ReadNames(t, names) == Some(Tuple([]))
    ensures ValuesAt(t, Attrs(names)) == Some([])
  {
    SelectNames(t, names);
    assert Collect([], ScalarOf) == Some([]);
  }

  lemma OneValue(t: Tree, names: seq<string>, v: Scalar)
    requires ReadNames(t, names) == Some(Tuple([Leaf(v)]))
    ensures ValuesAt(t, Attrs(names)) == Some([v])
  {
    SelectNames(t, names);
    var items := [Leaf(v)];
    assert forall item <- items :: ScalarOf(item).Some?;
    var values := Collect(items, ScalarOf).value;
    assert ScalarOf(items[0]) == Some(values[0]) && values == [v];
  }

  predicate IsWaived(f: FieldName, waived: bool) {
    waived && f == Forbidden
  }

  function ItemsOf(f: FieldName, waived: bool): seq<Scalar> {
    if IsWaived(f, waived) then [] else [ValueOf(f)]
  }

  function PlanOf(f: FieldName, waived: bool): Plan {
    if IsWaived(f, waived) then Plan([], Str("said")) else Plan([ValueOf(f)], Null)
  }

  ghost predicate FullAt(c: Content, f: FieldName, waived: bool) {
    if IsArray(f) then
      && ReadArray(c, f) == Some(ItemsOf(f, waived))
      && (IsPlan(f) ==> f in c.plans && c.plans[f] == PlanOf(f, waived))
    else ReadScalar(c, f) == Some(ValueOf(f))
  }

  /** Every causal field is there, every plan has a value or its reason, and nothing is missing. */
  ghost predicate Full(c: Content, waived: bool) {
    c.status == ValueOf(ChoiceStatus) && c.missing == Some([]) && forall f: FieldName :: FullAt(c, f, waived)
  }

  /** What is read of a field. */
  ghost predicate ReadsFull(t: Tree, f: FieldName, waived: bool) {
    && (!IsArray(f) ==> LeafAt(t, Attrs(Names(f))) == Some(ValueOf(f)))
    && (IsArray(f) ==> ValuesAt(t, Attrs(Names(f))) == Some(ItemsOf(f, waived)))
    && (IsPlan(f) ==> PlanAt(t, f) == Some(PlanOf(f, waived)))
  }

  lemma HeldIsRead(t: Tree, f: FieldName)
    requires ReadNames(t, Names(f)) == Some(HeldAt(f))
             && (IsPlan(f) ==> ReadNames(t, ReasonNames(f)) == Some(Leaf(Null)))
    ensures ReadsFull(t, f, false)
  {
    SelectNames(t, Names(f));
    if IsArray(f) {
      OneValue(t, Names(f), ValueOf(f));
    }
    if IsPlan(f) {
      SelectNames(t, ReasonNames(f));
    }
  }

  lemma OtherFieldReads(n: nat, parts: Parts, f: FieldName)
    requires f != Forbidden
    ensures ReadsFull(ContractTree(n, parts), f, parts.waived)
  {
    FieldHolds(n, parts, f);
    if IsPlan(f) {
      ReasonHolds(n, parts, f);
    }
    HeldIsRead(ContractTree(n, parts), f);
  }

  lemma ForbiddenIsRead(n: nat, parts: Parts)
    ensures ReadsFull(ContractTree(n, parts), Forbidden, parts.waived)
  {
    var t := ContractTree(n, parts);
    ForbiddenReads(n, parts);
    SelectNames(t, ReasonNames(Forbidden));
    if parts.waived {
      NoValue(t, Names(Forbidden));
    } else {
      OneValue(t, Names(Forbidden), ValueOf(Forbidden));
    }
  }

  lemma PlanIsFull(t: Tree, f: FieldName, waived: bool)
    requires IsPlan(f) && PlanAt(t, f) == Some(PlanOf(f, waived))
    ensures FullAt(ContentOf(t), f, waived)
  {
    var plans := ContentOf(t).plans;
    assert f in plans && plans[f] == PlanOf(f, waived);
  }

  lemma ArrayIsFull(t: Tree, f: FieldName, waived: bool)
    requires IsArray(f) && !IsPlan(f) && ValuesAt(t, Attrs(Names(f))) == Some(ItemsOf(f, waived))
    ensures FullAt(ContentOf(t), f, waived)
  {
    var arrays := ContentOf(t).arrays;
    assert f in arrays && arrays[f] == ItemsOf(f, waived);
  }

  lemma ScalarIsFull(t: Tree, f: FieldName, waived: bool)
    requires !IsArray(f) && LeafAt(t, Attrs(Names(f))) == Some(ValueOf(f))
    ensures FullAt(ContentOf(t), f, waived)
  {
    if f != ChoiceStatus {
      var scalars := ContentOf(t).scalars;
      assert f in scalars && scalars[f] == ValueOf(f);
    }
  }

  lemma ReadingIsFull(t: Tree, f: FieldName, waived: bool)
    requires ReadsFull(t, f, waived)
    ensures FullAt(ContentOf(t), f, waived)
  {
    if IsPlan(f) {
      PlanIsFull(t, f, waived);
    } else if IsArray(f) {
      ArrayIsFull(t, f, waived);
    } else {
      ScalarIsFull(t, f, waived);
    }
  }

  lemma FieldIsFull(n: nat, parts: Parts, f: FieldName)
    ensures FullAt(ContentOf(ContractTree(n, parts)), f, parts.waived)
  {
    if f == Forbidden {
      ForbiddenIsRead(n, parts);
    } else {
      OtherFieldReads(n, parts, f);
    }
    ReadingIsFull(ContractTree(n, parts), f, parts.waived);
  }

  lemma ContentIsFull(n: nat, parts: Parts)
    ensures Full(ContentOf(ContractTree(n, parts)), parts.waived)
  {
    var t := ContractTree(n, parts);
    forall f: FieldName
      ensures FullAt(ContentOf(t), f, parts.waived)
    {
      FieldIsFull(n, parts, f);
    }
    OtherFieldReads(n, parts, ChoiceStatus);
    MissingHolds(n, parts);
    SelectNames(t, MISSING);
  }

  // ----- Its leaves -----

  const TARGET := Leaves.FieldPath(CHAPTER, "target_chinese_chars")

  lemma {:induction false} FieldLeavesConcat(a: seq<Field>, b: seq<Field>, p: string)
    ensures Leaves.FieldLeaves(a + b, p) == Leaves.FieldLeaves(a, p) + Leaves.FieldLeaves(b, p)
  {
    if a == [] {
      assert a + b == b;
    } else {
      assert (a + b)[1..] == a[1..] + b;
      FieldLeavesConcat(a[1..], b, p);
    }
  }

  lemma OneFieldLeaves(name: string, t: Tree, p: string)
    ensures Leaves.FieldLeaves([Field(name, t)], p) == Leaves.LeafList(t, Leaves.FieldPath(p, name))
  {
    assert [Field(name, t)][1..] == [];
    assert Leaves.FieldLeaves([], p) == [];
  }

  lemma NotExcluded()
    ensures "" !in Leaves.EXCLUDED && CHAPTER !in Leaves.EXCLUDED && TARGET !in Leaves.EXCLUDED
  {
    assert CHAPTER[1] != "contract_version"[1] && |CHAPTER| == 16 && |TARGET| == 37;
    assert |"chapter_contract.intent_evidence_bindings"| == 41 && |"legacy_unclassified_evidence"| == 28;
  }

  lemma BindingsAreExcluded()
    ensures Leaves.FieldPath(CHAPTER, "intent_evidence_bindings") in Leaves.EXCLUDED
  {
    BindingsText();
    TextOfTwo(CHAPTER, "intent_evidence_bindings");
  }

  /** The leaves that do not depend on the version and its evidence. */
  function ContentLeaves(parts: Parts): seq<(string, Scalar)> {
    Leaves.FieldLeaves(TopFields(), "") + (PartLeaves(parts) + Leaves.FieldLeaves(ChapterFields(), CHAPTER))
  }

  function PartLeaves(parts: Parts): seq<(string, Scalar)> {
    Leaves.LeafList(parts.candidates, Leaves.FieldPath(CHAPTER, "optional_candidates"))
    + Leaves.LeafList(parts.Forbidden(), Leaves.FieldPath(CHAPTER, "forbidden"))
  }

  lemma PartFieldLeaves(parts: Parts)
    ensures Leaves.FieldLeaves(PartFields(parts), CHAPTER) == PartLeaves(parts)
  {
    var b, c, f := Field("intent_evidence_bindings", parts.bindings), Field("optional_candidates", parts.candidates),
                   Field("forbidden", parts.Forbidden());
    BindingsAreExcluded();
    assert PartFields(parts) == [b] + [c] + [f];
    FieldLeavesConcat([b], [c], CHAPTER);
    FieldLeavesConcat([b] + [c], [f], CHAPTER);
    OneFieldLeaves(b.name, b.tree, CHAPTER);
    OneFieldLeaves(c.name, c.tree, CHAPTER);
    OneFieldLeaves(f.name, f.tree, CHAPTER);
  }

  lemma ChapterLeaves(n: nat, parts: Parts)
    ensures Leaves.LeafList(ChapterTree(n, parts), CHAPTER) ==
            PartLeaves(parts) + Leaves.FieldLeaves(ChapterFields(), CHAPTER) + [(TARGET, Int(n))]
  {
    var last := Field("target_chinese_chars", Leaf(Int(n)));
    NotExcluded();
    PartFieldLeaves(parts);
    FieldLeavesConcat(PartFields(parts), ChapterFields(), CHAPTER);
    FieldLeavesConcat(PartFields(parts) + ChapterFields(), [last], CHAPTER);
    OneFieldLeaves(last.name, last.tree, CHAPTER);
  }

  /** The leaves of a record, field by field. */
  lemma RecordLeaves(first: Field, middle: seq<Field>, last: Field, p: string)
    requires p !in Leaves.EXCLUDED
    ensures Leaves.LeafList(Record([first] + middle + [last]), p) ==
            Leaves.LeafList(first.tree, Leaves.FieldPath(p, first.name)) + Leaves.FieldLeaves(middle, p)
            + Leaves.LeafList(last.tree, Leaves.FieldPath(p, last.name))
  {
    FieldLeavesConcat([first], middle, p);
    FieldLeavesConcat([first] + middle, [last], p);
    OneFieldLeaves(first.name, first.tree, p);
    OneFieldLeaves(last.name, last.tree, p);
  }

  lemma VersionIsExcluded(n: nat)
    ensures Leaves.LeafList(Leaf(Int(n)), Leaves.FieldPath("", "contract_version")) == []
  {
  }

  /** Only the last leaf differs between versions. */
  lemma ContractLeaves(n: nat, parts: Parts)
    ensures Leaves.LeafList(ContractTree(n, parts), "") == ContentLeaves(parts) + [(TARGET, Int(n))]
  {
    var first, last := Field("contract_version", Leaf(Int(n))), Field(CHAPTER, ChapterTree(n, parts));
    var middle := TopFields();
    NotExcluded();
    RecordLeaves(first, middle, last, "");
    VersionIsExcluded(n);
    ChapterLeaves(n, parts);
    Regroup(Leaves.FieldLeaves(middle, ""), PartLeaves(parts), Leaves.FieldLeaves(ChapterFields(), CHAPTER),
            [(TARGET, Int(n))]);
  }

  lemma Regroup<T>(a: seq<T>, b: seq<T>, c: seq<T>, d: seq<T>)
    ensures [] + a + (b + c + d) == a + (b + c) + d
  {
  }
}
