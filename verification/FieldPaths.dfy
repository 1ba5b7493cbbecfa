/** The concrete paths of the causal fields as texts, and reading such a text back. */
module FieldPaths {
  import opened Text
  import opened Paths
  import opened ContractFields
  import opened TreeReading
  import Leaves

  const CHAPTER := "chapter_contract"

  /** The attributes that lead to a causal field; for an array field, to the array. */
  function Names(f: FieldName): (names: seq<string>)
    ensures names != []
  {
    match f
    case ArcPhase => ["arc_phase"]
    case ArcGoal => ["arc_goal"]
    case InheritedPressure => ["inherited_pressure"]
    case FuturePressures => ["future_pressures"]
    case Functions => [CHAPTER, "functions"]
    case DramaticQuestion => [CHAPTER, "dramatic_question"]
    case ChoiceStatus => [CHAPTER, "protagonist_choice", "status"]
    case ChoiceActor => [CHAPTER, "protagonist_choice", "actor"]
    case ChoiceAction => [CHAPTER, "protagonist_choice", "action"]
    case ChoiceAlternatives => [CHAPTER, "protagonist_choice", "alternatives"]
    case ChoiceCost => [CHAPTER, "protagonist_choice", "cost"]
    case ChoiceConsequence => [CHAPTER, "protagonist_choice", "consequence"]
    case ReaderBefore => [CHAPTER, "reader_change", "before"]
    case ReaderAfter => [CHAPTER, "reader_change", "after"]
    case Reveal => [CHAPTER, "information", "reveal"]
    case Withhold => [CHAPTER, "information", "withhold"]
    case Misdirect => [CHAPTER, "information", "misdirect", "values"]
    case PressureStart => [CHAPTER, "pressure_curve", "start"]
    case PressureTurn => [CHAPTER, "pressure_curve", "turn"]
    case PressureEnd => [CHAPTER, "pressure_curve", "end"]
    case Foreshadow => [CHAPTER, "foreshadow_actions", "values"]
    case EndingShift => [CHAPTER, "ending_shift"]
    case Forbidden => [CHAPTER, "forbidden", "values"]
  }

  /** The attributes that lead to the reason of an empty plan. */
  function ReasonNames(f: FieldName): (names: seq<string>)
    ensures names != []
  {
    var names := Names(f);
    names[..|names| - 1] + ["not_applicable_reason"]
  }

  const MISSING := [CHAPTER, "protagonist_choice", "missing_fields"]

  function Attrs(names: seq<string>): (steps: seq<Step>)
    ensures |steps| == |names| && forall i :: 0 <= i < |names| ==> steps[i] == Attr(names[i])
  {
    seq(|names|, i requires 0 <= i < |names| => Attr(names[i]))
  }

  /** Places that a candidate can have: no array field without an index and no index on other fields. */
  predicate IsConcrete(place: Place) {
    match place
    case At(f) => !IsArray(f)
    case Item(f, _) => IsArray(f)
    case MissingAt(_) => true
    case ReasonOf(f) => IsPlan(f)
    case Elsewhere(_) => false
  }

  function NamesOf(place: Place): (names: seq<string>)
    requires !place.Elsewhere?
    ensures names != []
  {
    match place
    case At(f) => Names(f)
    case Item(f, _) => Names(f)
    case MissingAt(_) => MISSING
    case ReasonOf(f) => ReasonNames(f)
  }

  function StepsOf(place: Place): seq<Step>
    requires !place.Elsewhere?
  {
    Attrs(NamesOf(place)) + if place.Item? || place.MissingAt? then [Nth(place.index)] else []
  }

  function TextOf(place: Place): string {
    if place.Elsewhere? then place.text else PathText("", StepsOf(place))
  }

  // ----- Different places have different texts -----

  /** How many names there are, the lengths of the second and of the last one, and the first letter of the last one. */
  type Shape = (nat, nat, nat, char)

  predicate HasShape(names: seq<string>, shape: Shape) {
    && |names| == shape.0 > 0
    && |names[if shape.0 == 1 then 0 else 1]| == shape.1
    && |names[shape.0 - 1]| == shape.2 > 0
    && names[shape.0 - 1][0] == shape.3
  }

  function FieldShape(f: FieldName): Shape {
    match f
    case ArcPhase => (1, 9, 9, 'a')
    case ArcGoal => (1, 8, 8, 'a')
    case InheritedPressure => (1, 18, 18, 'i')
    case FuturePressures => (1, 16, 16, 'f')
    case Functions => (2, 9, 9, 'f')
    case DramaticQuestion => (2, 17, 17, 'd')
    case ChoiceStatus => (3, 18, 6, 's')
    case ChoiceActor => (3, 18, 5, 'a')
    case ChoiceAction => (3, 18, 6, 'a')
    case ChoiceAlternatives => (3, 18, 12, 'a')
    case ChoiceCost => (3, 18, 4, 'c')
    case ChoiceConsequence => (3, 18, 11, 'c')
    case ReaderBefore => (3, 13, 6, 'b')
    case ReaderAfter => (3, 13, 5, 'a')
    case Reveal => (3, 11, 6, 'r')
    case Withhold => (3, 11, 8, 'w')
    case Misdirect => (4, 11, 6, 'v')
    case PressureStart => (3, 14, 5, 's')
    case PressureTurn => (3, 14, 4, 't')
    case PressureEnd => (3, 14, 3, 'e')
    case Foreshadow => (3, 18, 6, 'v')
    case EndingShift => (2, 12, 12, 'e')
    case Forbidden => (3, 9, 6, 'v')
  }

  function ShapeOf(place: Place): Shape
    requires !place.Elsewhere?
  {
    match place
    case At(f) => FieldShape(f)
    case Item(f, _) => FieldShape(f)
    case MissingAt(_) => (3, 18, 14, 'm')
    case ReasonOf(f) => (FieldShape(f).0, FieldShape(f).1, 21, 'n')
  }

  lemma FieldHasShape(f: FieldName)
    ensures HasShape(Names(f), FieldShape(f))
  {
  }

  lemma PlaceHasShape(place: Place)
    requires IsConcrete(place)
    ensures HasShape(NamesOf(place), ShapeOf(place))
  {
    match place
    case At(f) => FieldHasShape(f);
    case Item(f, _) => FieldHasShape(f);
    case MissingAt(_) =>
    case ReasonOf(f) =>
      FieldHasShape(f);
      assert |Names(f)| >= 3;
    case Elsewhere(_) =>
  }

  predicate IsIndexed(place: Place) {
    place.Item? || place.MissingAt?
  }

  lemma ShapesDiffer(p: Place, q: Place)
    requires IsConcrete(p) && IsConcrete(q) && ShapeOf(p) == ShapeOf(q) && (IsIndexed(p) <==> IsIndexed(q))
    requires IsIndexed(p) ==> p.index == q.index
    ensures p == q
  {
  }

  lemma StepsInjective(p: Place, q: Place)
    requires IsConcrete(p) && IsConcrete(q) && StepsOf(p) == StepsOf(q)
    ensures p == q
  {
    var a, b, steps := NamesOf(p), NamesOf(q), StepsOf(p);
    assert steps[|steps| - 1].Nth? <==> IsIndexed(p);
    assert steps[|steps| - 1].Nth? <==> IsIndexed(q);
    assert |a| == |b|;
    forall i | 0 <= i < |a|
      ensures a[i] == b[i]
    {
      assert StepsOf(p)[i] == Attr(a[i]) && StepsOf(q)[i] == Attr(b[i]);
    }
    PlaceHasShape(p);
    PlaceHasShape(q);
    ShapesDiffer(p, q);
  }

  ghost predicate AreIdentifiers(names: seq<string>) {
    forall name <- names :: IsIdentifier(name)
  }

  lemma TopNames()
    ensures AreIdentifiers([CHAPTER, "arc_phase", "arc_goal"])
  {
  }

  lemma PressureNames()
    ensures AreIdentifiers(["inherited_pressure", "future_pressures"])
  {
  }

  lemma ChapterNames()
    ensures AreIdentifiers(["functions", "dramatic_question", "ending_shift"])
  {
  }

  lemma PlanNames()
    ensures AreIdentifiers(["forbidden", "foreshadow_actions", "misdirect"])
  {
  }

  lemma PartNames()
    ensures AreIdentifiers(["protagonist_choice", "reader_change"])
  {
  }

  lemma CurveNames()
    ensures AreIdentifiers(["information", "pressure_curve"])
  {
  }

  lemma ChoiceNames()
    ensures AreIdentifiers(["status", "actor", "action", "cost"])
  {
  }

  lemma OutcomeNames()
    ensures AreIdentifiers(["alternatives", "consequence", "missing_fields"])
  {
  }

  lemma ReaderNames()
    ensures AreIdentifiers(["before", "after", "reveal", "withhold"])
  {
  }

  lemma PointNames()
    ensures AreIdentifiers(["values", "start", "turn", "end"])
  {
  }

  lemma ReasonName()
    ensures AreIdentifiers(["not_applicable_reason"])
  {
  }

  lemma NamesAreIdentifiers(f: FieldName)
    ensures AreIdentifiers(Names(f))
  {
    TopNames();
    PressureNames();
    ChapterNames();
    PlanNames();
    PartNames();
    CurveNames();
    ChoiceNames();
    OutcomeNames();
    ReaderNames();
    PointNames();
  }

  lemma StepsAreProper(place: Place)
    requires IsConcrete(place)
    ensures Proper(StepsOf(place))
  {
    var names := NamesOf(place);
    if !place.MissingAt? {
      var f := if place.ReasonOf? then place.plan else place.field;
      NamesAreIdentifiers(f);
      assert place.ReasonOf? ==> forall name <- names :: name in Names(f) || name == "not_applicable_reason";
    }
    TopNames();
    PartNames();
    OutcomeNames();
    ReasonName();
    assert "not_applicable_reason" in ["not_applicable_reason"];
    assert forall name <- names :: IsIdentifier(name);
  }

  /** Different concrete places have different texts. */
  lemma TextInjective(p: Place, q: Place)
    requires IsConcrete(p) && IsConcrete(q) && TextOf(p) == TextOf(q)
    ensures p == q
  {
    StepsAreProper(p);
    StepsAreProper(q);
    PathTextInjective("", StepsOf(p), StepsOf(q));
    StepsInjective(p, q);
  }

  // ----- Reading a text back -----

  function TrailingDigits(s: string): string {
    if s == "" || !IsDigit(s[|s| - 1]) then "" else TrailingDigits(s[..|s| - 1]) + [s[|s| - 1]]
  }

  /** The number in front of a closing bracket. */
  function IndexIn(text: string): nat {
    if text == "" then 0 else Value(TrailingDigits(text[..|text| - 1]))
  }

  /** For each causal field the place itself, its item with this index and its reason, and the missing field. */
  function CandidatesFor(fields: seq<FieldName>, index: nat): (places: seq<Place>)
    ensures |places| == 3 * |fields| + 1 && places[3 * |fields|] == MissingAt(index)
    ensures forall i :: 0 <= i < |fields| ==>
              && places[i] == At(fields[i]) && places[|fields| + i] == Item(fields[i], index)
              && places[2 * |fields| + i] == ReasonOf(fields[i])
  {
    seq(|fields|, i requires 0 <= i < |fields| => At(fields[i]))
    + seq(|fields|, i requires 0 <= i < |fields| => Item(fields[i], index))
    + seq(|fields|, i requires 0 <= i < |fields| => ReasonOf(fields[i])) + [MissingAt(index)]
  }

  /** The first concrete candidate with this text. */
  function FindPlace(candidates: seq<Place>, text: string): Place {
    if candidates == [] then Elsewhere(text)
    else if IsConcrete(candidates[0]) && TextOf(candidates[0]) == text then candidates[0]
    else FindPlace(candidates[1..], text)
  }

  /** The place that a path names: a concrete place of some candidate, or no such place. */
  function PlaceOf(text: string): Place {
    FindPlace(CandidatesFor(CAUSAL_FIELDS, IndexIn(text)), text)
  }

  lemma {:induction false} FoundHasText(candidates: seq<Place>, text: string)
    ensures TextOf(FindPlace(candidates, text)) == text
    ensures var place := FindPlace(candidates, text); IsConcrete(place) || place == Elsewhere(text)
  {
    if candidates != [] {
      FoundHasText(candidates[1..], text);
    }
  }

  lemma {:induction false} FindsCandidate(candidates: seq<Place>, place: Place)
    requires place in candidates && IsConcrete(place)
    ensures FindPlace(candidates, TextOf(place)) == place
  {
    var first := candidates[0];
    if IsConcrete(first) && TextOf(first) == TextOf(place) {
      TextInjective(first, place);
    } else {
      FindsCandidate(candidates[1..], place);
    }
  }

  lemma CandidatesComplete(fields: seq<FieldName>, place: Place, index: nat)
    requires IsConcrete(place) && (IsIndexed(place) ==> place.index == index)
    requires place.MissingAt? || (if place.ReasonOf? then place.plan else place.field) in fields
    ensures place in CandidatesFor(fields, index)
  {
    var places := CandidatesFor(fields, index);
    if place.MissingAt? {
      assert places[3 * |fields|] == place;
    } else {
      var i :| 0 <= i < |fields| && fields[i] == if place.ReasonOf? then place.plan else place.field;
      assert places[i] == At(fields[i]) && places[|fields| + i] == Item(fields[i], index);
      assert places[2 * |fields| + i] == ReasonOf(fields[i]);
    }
  }

  lemma {:induction false} DigitsTrail(s: string, digits: string)
    requires (forall c <- digits :: IsDigit(c)) && (s == "" || !IsDigit(s[|s| - 1]))
    ensures TrailingDigits(s + digits) == digits
  {
    if digits == "" {
      assert s + digits == s;
    } else {
      var n := |digits| - 1;
      assert (s + digits)[..|s| + n] == s + digits[..n];
      DigitsTrail(s, digits[..n]);
      assert digits == digits[..n] + [digits[n]];
    }
  }

  lemma {:induction false} LastStep(p: string, steps: seq<Step>, last: Step)
    ensures PathText(p, steps + [last]) == StepPath(PathText(p, steps), last)
    decreases |steps|
  {
    if steps == [] {
      assert steps + [last] == [last] && [last][1..] == [];
      assert PathText(p, [last]) == PathText(StepPath(p, last), []);
    } else {
      assert (steps + [last])[1..] == steps[1..] + [last];
      LastStep(StepPath(p, steps[0]), steps[1..], last);
    }
  }

  lemma IndexIsRead(place: Place)
    requires IsIndexed(place)
    ensures IndexIn(TextOf(place)) == place.index
  {
    var base, digits := PathText("", Attrs(NamesOf(place))), Decimal(place.index);
    LastStep("", Attrs(NamesOf(place)), Nth(place.index));
    var text := TextOf(place);
    assert text == base + "[" + digits + "]";
    assert text[..|text| - 1] == (base + "[") + digits;
    DecimalDigits(place.index);
    DigitsTrail(base + "[", digits);
    ValueOfDecimal(place.index);
  }

  /** Texts and places name each other: reading a text and writing it again is the identity, both ways. */
  lemma PlacesRoundTrip(place: Place, text: string)
    ensures TextOf(PlaceOf(text)) == text
    ensures IsConcrete(place) ==> PlaceOf(TextOf(place)) == place
    ensures IsConcrete(PlaceOf(text)) || PlaceOf(text) == Elsewhere(text)
  {
    FoundHasText(CandidatesFor(CAUSAL_FIELDS, IndexIn(text)), text);
    if IsConcrete(place) {
      if IsIndexed(place) {
        IndexIsRead(place);
      }
      if !place.MissingAt? {
        EveryFieldListed(if place.ReasonOf? then place.plan else place.field);
      }
      var index := IndexIn(TextOf(place));
      CandidatesComplete(CAUSAL_FIELDS, place, index);
      FindsCandidate(CandidatesFor(CAUSAL_FIELDS, index), place);
    }
  }

  // ----- Flattening keeps the causal fields -----

  /** What flattening leaves out, as steps. */
  ghost predicate LeftOut(steps: seq<Step>) {
    || steps == [Attr("contract_version")] || steps == [Attr("legacy_unclassified_evidence")]
    || steps == [Attr(CHAPTER), Attr("intent_evidence_bindings")]
  }

  lemma TextOfOne(name: string)
    ensures PathText("", [Attr(name)]) == name
  {
    LastStep("", [], Attr(name));
    assert [] + [Attr(name)] == [Attr(name)];
  }

  lemma TextOfTwo(a: string, b: string)
    requires a != ""
    ensures PathText("", [Attr(a), Attr(b)]) == a + "." + b
  {
    TextOfOne(a);
    LastStep("", [Attr(a)], Attr(b));
    assert [Attr(a)] + [Attr(b)] == [Attr(a), Attr(b)];
  }

  lemma LeftOutNames()
    ensures IsIdentifier("contract_version") && IsIdentifier("legacy_unclassified_evidence")
    ensures IsIdentifier("intent_evidence_bindings") && IsIdentifier(CHAPTER)
  {
    TopNames();
    assert CHAPTER in [CHAPTER, "arc_phase", "arc_goal"];
  }

  lemma BindingsText()
    ensures PathText("", [Attr(CHAPTER), Attr("intent_evidence_bindings")]) ==
            "chapter_contract" + "." + "intent_evidence_bindings"
  {
    TextOfTwo(CHAPTER, "intent_evidence_bindings");
  }

  /** Excluded texts are those of the steps left out, and all their names are identifiers. */
  lemma ExcludedSteps(text: string) returns (steps: seq<Step>)
    requires text in Leaves.EXCLUDED
    ensures LeftOut(steps) && Proper(steps) && PathText("", steps) == text
  {
    LeftOutNames();
    if text == "contract_version" {
      steps := [Attr("contract_version")];
      TextOfOne("contract_version");
    } else if text == "legacy_unclassified_evidence" {
      steps := [Attr("legacy_unclassified_evidence")];
      TextOfOne("legacy_unclassified_evidence");
    } else {
      steps := [Attr(CHAPTER), Attr("intent_evidence_bindings")];
      BindingsText();
    }
  }

  lemma OnlyLeftOut(steps: seq<Step>)
    requires Proper(steps) && PathText("", steps) in Leaves.EXCLUDED
    ensures LeftOut(steps)
  {
    var known := ExcludedSteps(PathText("", steps));
    PathTextInjective("", steps, known);
  }

  lemma {:induction false} KeptBelow(done: seq<Step>, steps: seq<Step>)
    requires Proper(done) && Proper(steps) && forall k :: 0 <= k <= |steps| ==> !LeftOut(done + steps[..k])
    ensures Kept(PathText("", done), steps)
    decreases |steps|
  {
    assert done + steps[..0] == done;
    if PathText("", done) in Leaves.EXCLUDED {
      OnlyLeftOut(done);
    }
    if steps != [] {
      var next, rest := done + [steps[0]], steps[1..];
      LastStep("", done, steps[0]);
      assert steps[0] in steps;
      forall k | 0 <= k <= |rest|
        ensures !LeftOut(next + rest[..k])
      {
        assert next + rest[..k] == done + steps[..k + 1];
      }
      KeptBelow(next, rest);
    }
  }

  lemma NamesNotLeftOut(place: Place)
    requires IsConcrete(place)
    ensures var names := NamesOf(place);
            && names[0] != "contract_version" && names[0] != "legacy_unclassified_evidence"
            && (|names| > 1 ==> names[1] != "intent_evidence_bindings")
  {
    var names := NamesOf(place);
    PlaceHasShape(place);
    assert |names| > 1 ==> |names[1]| != |"intent_evidence_bindings"|;
    if |names| > 1 {
      assert names[0] == CHAPTER;
      assert CHAPTER[1] != "contract_version"[1] && CHAPTER[0] != "legacy_unclassified_evidence"[0];
    } else {
      assert names[0][0] != 'c' && names[0][0] != 'l';
    }
  }

  lemma StepsAreKept(place: Place)
    requires IsConcrete(place)
    ensures Kept("", StepsOf(place))
  {
    var names, steps := NamesOf(place), StepsOf(place);
    StepsAreProper(place);
    NamesNotLeftOut(place);
    forall k | 0 <= k <= |steps|
      ensures !LeftOut([] + steps[..k])
    {
      assert [] + steps[..k] == steps[..k];
      assert k > 0 ==> steps[..k][0] == Attr(names[0]);
      assert k > 1 && |names| > 1 ==> steps[..k][1] == Attr(names[1]);
    }
    KeptBelow([], steps);
  }
}
