/** Which human approvals a changed contract needs, from the paths that changed. */
module Approval {
  import opened Wrappers
  import opened Paths
  import opened Decisions
  import opened Leaves
  import opened PathPatterns
  import opened TreeReading
  import Baseline

  datatype Item =
    | FullContract | MajorChoice | InformationReveal | ForeshadowPayoff | NewFacts | OutlineChange | PostFreezeRevision

  datatype Status = Approved | Rejected | NotApplicable

  datatype Decision = Decision(status: Status, reason: string, approvedBy: string, approvedAt: string)

  const ITEMS: seq<Item> :=
    [FullContract, MajorChoice, InformationReveal, ForeshadowPayoff, NewFacts, OutlineChange, PostFreezeRevision]

  const SPECIAL: seq<Item> := [MajorChoice, InformationReveal, ForeshadowPayoff, NewFacts, OutlineChange]

  datatype ApprovalRecord = ApprovalRecord(
    contractId: string, contractVersion: nat, contractHash: ContentHash, baseline: Baseline.Manifest,
    full: Decision, major: Decision, information: Decision, foreshadow: Decision, facts: Decision,
    outline: Decision, revision: Decision)
  {
    function Of(item: Item): Decision {
      match item
      case FullContract => full
      case MajorChoice => major
      case InformationReveal => information
      case ForeshadowPayoff => foreshadow
      case NewFacts => facts
      case OutlineChange => outline
      case PostFreezeRevision => revision
    }

    predicate Approves(item: Item) {
      Of(item).status.Approved?
    }

    /** A full approval tolerates no rejected special item, a full rejection no approved one. */
    predicate Coherent() {
      && !full.status.NotApplicable?
      && (full.status.Approved? ==> forall item <- ITEMS :: !Of(item).status.Rejected?)
      && (full.status.Rejected? ==> forall item <- ITEMS :: item != FullContract ==> !Of(item).status.Approved?)
    }
  }

  const CHAPTER := "chapter_contract"

  function ChapterPath(name: string): string {
    CHAPTER + "." + name
  }

  /** The paths that make a special item necessary again. */
  function Patterns(item: Item): seq<string> {
    match item
    case MajorChoice =>
      [ChapterPath("protagonist_choice") + ".*", ChapterPath("pressure_curve") + ".*", ChapterPath("ending_shift")]
    case InformationReveal =>
      [ChapterPath("information") + ".*", ChapterPath("reader_change") + ".*", ChapterPath("forbidden") + ".*"]
    case ForeshadowPayoff =>
      [ChapterPath("foreshadow_actions") + ".*", "hook_refs" + "[*]",
       ChapterPath("foreshadow_actions") + "." + "not_applicable_reason"]
    case NewFacts => ["new_fact_candidates" + "[*]", "fact_boundary_refs" + "[*]"]
    case OutlineChange => ["arc_phase", "arc_goal", "change_requests" + "[*]"]
    case _ => []
  }

  predicate Covers(item: Item, path: string) {
    exists pattern <- Patterns(item) :: PathMatches(pattern, path)
  }

  predicate Touched(item: Item, paths: seq<string>) {
    exists path <- paths :: Covers(item, path)
  }

  function TouchedItems(paths: seq<string>): set<Item> {
    set item | item in SPECIAL && Touched(item, paths)
  }

  // ----- The fields that each special item watches -----

  function InChapter(name: string): seq<Step> {
    [Attr(CHAPTER), Attr(name)]
  }

  /** The steps lead to a field that the item watches: at one, below one, or among the items of an array. */
  predicate Watches(item: Item, steps: seq<Step>) {
    match item
    case MajorChoice =>
      || AtOrBelow(InChapter("protagonist_choice"), steps) || AtOrBelow(InChapter("pressure_curve"), steps)
      || steps == InChapter("ending_shift")
    case InformationReveal =>
      || AtOrBelow(InChapter("information"), steps) || AtOrBelow(InChapter("reader_change"), steps)
      || AtOrBelow(InChapter("forbidden"), steps)
    case ForeshadowPayoff =>
      AtOrBelow(InChapter("foreshadow_actions"), steps) || AtOrAmong([Attr("hook_refs")], steps)
    case NewFacts => AtOrAmong([Attr("new_fact_candidates")], steps) || AtOrAmong([Attr("fact_boundary_refs")], steps)
    case OutlineChange =>
      || steps == [Attr("arc_phase")] || steps == [Attr("arc_goal")] || AtOrAmong([Attr("change_requests")], steps)
    case _ => false
  }

  lemma OneOf(patterns: seq<string>, path: string)
    ensures |patterns| == 2 ==> ((exists pattern <- patterns :: PathMatches(pattern, path)) <==>
                                 PathMatches(patterns[0], path) || PathMatches(patterns[1], path))
    ensures |patterns| == 3 ==> ((exists pattern <- patterns :: PathMatches(pattern, path)) <==>
                                 || PathMatches(patterns[0], path) || PathMatches(patterns[1], path)
                                 || PathMatches(patterns[2], path))
  {
  }

  lemma ChapterSteps(name: string)
    requires IsIdentifier(CHAPTER) && IsIdentifier(name)
    ensures Proper(InChapter(name)) && PathText("", InChapter(name)) == ChapterPath(name)
  {
    assert InChapter(name)[1..] == [Attr(name)] && [Attr(name)][1..] == [];
    assert PathText(CHAPTER, [Attr(name)]) == PathText(ChapterPath(name), []);
  }

  lemma TopStep(name: string)
    requires IsIdentifier(name)
    ensures Proper([Attr(name)]) && PathText("", [Attr(name)]) == name
  {
    assert [Attr(name)][1..] == [];
  }

  lemma ChapterPatterns(name: string, steps: seq<Step>)
    requires IsIdentifier(CHAPTER) && IsIdentifier(name) && Proper(steps)
    ensures PathMatches(ChapterPath(name) + ".*", PathText("", steps)) <==> AtOrBelow(InChapter(name), steps)
    ensures PathMatches(ChapterPath(name), PathText("", steps)) <==> steps == InChapter(name)
  {
    ChapterSteps(name);
    BelowPattern(InChapter(name), steps);
    ExactPattern(InChapter(name), steps);
  }

  lemma TopPatterns(name: string, steps: seq<Step>)
    requires IsIdentifier(name) && Proper(steps)
    ensures PathMatches(name + "[*]", PathText("", steps)) <==> AtOrAmong([Attr(name)], steps)
    ensures PathMatches(name, PathText("", steps)) <==> steps == [Attr(name)]
  {
    TopStep(name);
    AmongPattern([Attr(name)], steps);
    ExactPattern([Attr(name)], steps);
  }

  lemma ChapterName()
    ensures IsIdentifier(CHAPTER)
  {
  }

  lemma MajorNames()
    ensures IsIdentifier("protagonist_choice") && IsIdentifier("pressure_curve") && IsIdentifier("ending_shift")
  {
  }

  lemma InformationNames()
    ensures IsIdentifier("information") && IsIdentifier("reader_change") && IsIdentifier("forbidden")
  {
  }

  lemma ForeshadowNames()
    ensures IsIdentifier("foreshadow_actions") && IsIdentifier("hook_refs") && IsIdentifier("not_applicable_reason")
  {
  }

  lemma FactNames()
    ensures IsIdentifier("new_fact_candidates") && IsIdentifier("fact_boundary_refs")
  {
  }

  lemma OutlineNames()
    ensures IsIdentifier("arc_phase") && IsIdentifier("arc_goal") && IsIdentifier("change_requests")
  {
  }

  lemma MajorWatches(steps: seq<Step>)
    requires Proper(steps)
    ensures Covers(MajorChoice, PathText("", steps)) <==> Watches(MajorChoice, steps)
  {
    ChapterName();
    MajorNames();
    OneOf(Patterns(MajorChoice), PathText("", steps));
    ChapterPatterns("protagonist_choice", steps);
    ChapterPatterns("pressure_curve", steps);
    ChapterPatterns("ending_shift", steps);
  }

  lemma InformationWatches(steps: seq<Step>)
    requires Proper(steps)
    ensures Covers(InformationReveal, PathText("", steps)) <==> Watches(InformationReveal, steps)
  {
    ChapterName();
    InformationNames();
    OneOf(Patterns(InformationReveal), PathText("", steps));
    ChapterPatterns("information", steps);
    ChapterPatterns("reader_change", steps);
    ChapterPatterns("forbidden", steps);
  }

  lemma ForeshadowWatches(steps: seq<Step>)
    requires Proper(steps)
    ensures Covers(ForeshadowPayoff, PathText("", steps)) <==> Watches(ForeshadowPayoff, steps)
  {
    ChapterName();
    ForeshadowNames();
    OneOf(Patterns(ForeshadowPayoff), PathText("", steps));
    ChapterPatterns("foreshadow_actions", steps);
    TopPatterns("hook_refs", steps);
    ReasonIsBelow("foreshadow_actions", "not_applicable_reason", steps);
  }

  /** A path exactly at an attribute of the field is below the field. */
  lemma ReasonIsBelow(name: string, reason: string, steps: seq<Step>)
    requires IsIdentifier(CHAPTER) && IsIdentifier(name) && IsIdentifier(reason) && Proper(steps)
    ensures PathMatches(ChapterPath(name) + "." + reason, PathText("", steps)) ==> AtOrBelow(InChapter(name), steps)
  {
    var field := InChapter(name) + [Attr(reason)];
    ChapterSteps(name);
    TextConcat("", InChapter(name), [Attr(reason)]);
    assert [Attr(reason)][1..] == [];
    assert PathText("", field) == ChapterPath(name) + "." + reason;
    ExactPattern(field, steps);
  }

  lemma FactsWatches(steps: seq<Step>)
    requires Proper(steps)
    ensures Covers(NewFacts, PathText("", steps)) <==> Watches(NewFacts, steps)
  {
    FactNames();
    OneOf(Patterns(NewFacts), PathText("", steps));
    TopPatterns("new_fact_candidates", steps);
    TopPatterns("fact_boundary_refs", steps);
  }

  lemma OutlineWatches(steps: seq<Step>)
    requires Proper(steps)
    ensures Covers(OutlineChange, PathText("", steps)) <==> Watches(OutlineChange, steps)
  {
    OutlineNames();
    OneOf(Patterns(OutlineChange), PathText("", steps));
    TopPatterns("arc_phase", steps);
    TopPatterns("arc_goal", steps);
    TopPatterns("change_requests", steps);
  }

  /** An item covers the text of a path exactly if the steps of the path lead to a field that it watches. */
  lemma CoversIffWatches(item: Item, steps: seq<Step>)
    requires Proper(steps)
    ensures Covers(item, PathText("", steps)) <==> Watches(item, steps)
  {
    match item
    case MajorChoice => MajorWatches(steps);
    case InformationReveal => InformationWatches(steps);
    case ForeshadowPayoff => ForeshadowWatches(steps);
    case NewFacts => FactsWatches(steps);
    case OutlineChange => OutlineWatches(steps);
    case _ =>
  }

  function FieldsOf(item: Item): seq<seq<Step>> {
    match item
    case MajorChoice => [InChapter("protagonist_choice"), InChapter("pressure_curve"), InChapter("ending_shift")]
    case InformationReveal => [InChapter("information"), InChapter("reader_change"), InChapter("forbidden")]
    case ForeshadowPayoff => [InChapter("foreshadow_actions"), [Attr("hook_refs")]]
    case NewFacts => [[Attr("new_fact_candidates")], [Attr("fact_boundary_refs")]]
    case OutlineChange => [[Attr("arc_phase")], [Attr("arc_goal")], [Attr("change_requests")]]
    case _ => []
  }

  /** The path, whatever it looks like, starts with the text of one of the fields. */
  ghost predicate StartsAtField(item: Item, path: string) {
    exists field <- FieldsOf(item) :: Under(PathText("", field), path)
  }

  lemma MatchedIsUnder(p: string, path: string)
    ensures PathMatches(p + ".*", path) || PathMatches(p + "[*]", path) ==> Under(p, path)
  {
    Endings(p);
    StartsUnder(p, '.', path);
    StartsUnder(p, '[', path);
    StartsUnder(p, '.', p);
  }

  lemma PlainMatch(p: string, path: string)
    requires p != "" && IdentChar(p[|p| - 1])
    ensures PathMatches(p, path) ==> Under(p, path)
  {
  }

  lemma ChapterMatch(name: string, path: string)
    requires IsIdentifier(CHAPTER) && IsIdentifier(name)
    ensures || PathMatches(ChapterPath(name) + ".*", path) || PathMatches(ChapterPath(name), path) ==>
              Under(PathText("", InChapter(name)), path)
  {
    ChapterSteps(name);
    MatchedIsUnder(ChapterPath(name), path);
    assert ChapterPath(name)[|ChapterPath(name)| - 1] == name[|name| - 1] && name[|name| - 1] in name;
    PlainMatch(ChapterPath(name), path);
  }

  lemma TopMatch(name: string, path: string)
    requires IsIdentifier(name)
    ensures PathMatches(name + "[*]", path) || PathMatches(name, path) ==> Under(PathText("", [Attr(name)]), path)
  {
    TopStep(name);
    MatchedIsUnder(name, path);
    assert name[|name| - 1] in name;
    PlainMatch(name, path);
  }

  lemma MajorStarts(path: string)
    requires Covers(MajorChoice, path)
    ensures StartsAtField(MajorChoice, path)
  {
    ChapterName();
    MajorNames();
    OneOf(Patterns(MajorChoice), path);
    ChapterMatch("protagonist_choice", path);
    ChapterMatch("pressure_curve", path);
    ChapterMatch("ending_shift", path);
    FieldOf(MajorChoice, path);
  }

  lemma InformationStarts(path: string)
    requires Covers(InformationReveal, path)
    ensures StartsAtField(InformationReveal, path)
  {
    ChapterName();
    InformationNames();
    OneOf(Patterns(InformationReveal), path);
    ChapterMatch("information", path);
    ChapterMatch("reader_change", path);
    ChapterMatch("forbidden", path);
    FieldOf(InformationReveal, path);
  }

  lemma ReasonMatch(name: string, reason: string, path: string)
    requires IsIdentifier(CHAPTER) && IsIdentifier(name) && IsIdentifier(reason)
    ensures PathMatches(ChapterPath(name) + "." + reason, path) ==> Under(PathText("", InChapter(name)), path)
  {
    var below := ChapterPath(name) + "." + reason;
    ChapterSteps(name);
    assert below[|below| - 1] == reason[|reason| - 1] && reason[|reason| - 1] in reason;
    PlainMatch(below, path);
    if Under(below, path) {
      assert below == ChapterPath(name) + ['.'] + reason;
      assert StartsWith(path, ChapterPath(name) + ['.']);
      StartsUnder(ChapterPath(name), '.', path);
    }
  }

  lemma ForeshadowStarts(path: string)
    requires Covers(ForeshadowPayoff, path)
    ensures StartsAtField(ForeshadowPayoff, path)
  {
    ChapterName();
    ForeshadowNames();
    OneOf(Patterns(ForeshadowPayoff), path);
    ChapterMatch("foreshadow_actions", path);
    ReasonMatch("foreshadow_actions", "not_applicable_reason", path);
    TopMatch("hook_refs", path);
    FieldOf(ForeshadowPayoff, path);
  }

  lemma FactsStart(path: string)
    requires Covers(NewFacts, path)
    ensures StartsAtField(NewFacts, path)
  {
    FactNames();
    OneOf(Patterns(NewFacts), path);
    TopMatch("new_fact_candidates", path);
    TopMatch("fact_boundary_refs", path);
    FieldOf(NewFacts, path);
  }

  lemma OutlineStarts(path: string)
    requires Covers(OutlineChange, path)
    ensures StartsAtField(OutlineChange, path)
  {
    OutlineNames();
    OneOf(Patterns(OutlineChange), path);
    TopMatch("arc_phase", path);
    TopMatch("arc_goal", path);
    TopMatch("change_requests", path);
    FieldOf(OutlineChange, path);
  }

  lemma FieldOf(item: Item, path: string)
    ensures forall i | 0 <= i < |FieldsOf(item)| && Under(PathText("", FieldsOf(item)[i]), path) ::
              StartsAtField(item, path)
  {
  }

  /** Whatever an item covers starts with one of its fields. */
  lemma CoversStartsAtField(item: Item, path: string)
    requires Covers(item, path)
    ensures StartsAtField(item, path)
  {
    match item
    case MajorChoice => MajorStarts(path);
    case InformationReveal => InformationStarts(path);
    case ForeshadowPayoff => ForeshadowStarts(path);
    case NewFacts => FactsStart(path);
    case OutlineChange => OutlineStarts(path);
    case _ => assert false;
  }

  /** One of the paths leads to a field that the item watches. */
  ghost predicate Reports(paths: seq<string>, item: Item) {
    exists steps :: Proper(steps) && PathText("", steps) in paths && Watches(item, steps)
  }

  ghost predicate ReportsStart(paths: seq<string>, item: Item) {
    exists path <- paths :: StartsAtField(item, path)
  }

  lemma TouchedIfReported(item: Item, paths: seq<string>)
    ensures Reports(paths, item) ==> Touched(item, paths)
    ensures Touched(item, paths) ==> ReportsStart(paths, item)
  {
    if Reports(paths, item) {
      var steps :| Proper(steps) && PathText("", steps) in paths && Watches(item, steps);
      CoversIffWatches(item, steps);
    }
    if Touched(item, paths) {
      var path :| path in paths && Covers(item, path);
      CoversStartsAtField(item, path);
    }
  }

  /** Items in their fixed order, each at most once. */
  function Ordered(items: set<Item>): seq<Item> {
    Select(ITEMS, items)
  }

  function Select(order: seq<Item>, items: set<Item>): seq<Item> {
    if order == [] then []
    else (if order[0] in items then [order[0]] else []) + Select(order[1..], items)
  }

  lemma SelectMembers(order: seq<Item>, items: set<Item>)
    ensures forall item :: item in Select(order, items) <==> item in order && item in items
  {
  }

  lemma EveryItemListed(item: Item)
    ensures item in ITEMS
    ensures item in SPECIAL <==> item != FullContract && item != PostFreezeRevision
  {
    assert SPECIAL[0] == MajorChoice && SPECIAL[1] == InformationReveal && SPECIAL[2] == ForeshadowPayoff;
    assert SPECIAL[3] == NewFacts && SPECIAL[4] == OutlineChange;
    assert ITEMS[0] == FullContract && ITEMS[1] == MajorChoice && ITEMS[2] == InformationReveal;
    assert ITEMS[3] == ForeshadowPayoff && ITEMS[4] == NewFacts && ITEMS[5] == OutlineChange
           && ITEMS[6] == PostFreezeRevision;
  }

  lemma OrderedMembers(items: set<Item>)
    ensures forall item :: item in Ordered(items) <==> item in items
  {
    SelectMembers(ITEMS, items);
    forall item {
      EveryItemListed(item);
    }
  }

  function Position(item: Item): nat {
    match item
    case FullContract => 0
    case MajorChoice => 1
    case InformationReveal => 2
    case ForeshadowPayoff => 3
    case NewFacts => 4
    case OutlineChange => 5
    case PostFreezeRevision => 6
  }

  predicate InFixedOrder(items: seq<Item>) {
    forall i, j :: 0 <= i < j < |items| ==> Position(items[i]) < Position(items[j])
  }

  lemma {:induction false} SelectKeepsOrder(order: seq<Item>, items: set<Item>)
    requires InFixedOrder(order)
    ensures InFixedOrder(Select(order, items))
  {
    if order != [] {
      var rest := Select(order[1..], items);
      SelectKeepsOrder(order[1..], items);
      SelectMembers(order[1..], items);
      forall j | 0 <= j < |rest|
        ensures Position(order[0]) < Position(rest[j])
      {
        assert rest[j] in order[1..];
      }
    }
  }

  lemma {:induction false} SameMembersSameOrder(a: seq<Item>, b: seq<Item>)
    requires InFixedOrder(a) && InFixedOrder(b)
    requires forall item :: item in a <==> item in b
    ensures a == b
  {
    assert b == [] || b[0] in b;
    if a != [] {
      assert a[0] in a;
      assert a == [a[0]] + a[1..] && b == [b[0]] + b[1..];
      assert a[0] == b[0];
      assert a[0] !in a[1..] && b[0] !in b[1..];
      forall item: Item
        ensures item in a[1..] <==> item in b[1..]
      {
        assert item in a <==> item == a[0] || item in a[1..];
        assert item in b <==> item == b[0] || item in b[1..];
      }
      SameMembersSameOrder(a[1..], b[1..]);
    }
  }

  lemma OrderedIsInOrder(items: set<Item>)
    ensures InFixedOrder(Ordered(items))
  {
    SelectKeepsOrder(ITEMS, items);
  }

  /** A list in the fixed order is determined by its members: it is what `Ordered` makes of them. */
  lemma OrderedIsUnique(items: seq<Item>)
    requires InFixedOrder(items)
    ensures items == Ordered(set item <- items)
  {
    var listed := Ordered(set item <- items);
    OrderedIsInOrder(set item <- items);
    OrderedMembers(set item <- items);
    SameMembersSameOrder(items, listed);
  }

  /** What a frozen replacement needs: the full contract, the revision itself, and every item its paths touch. */
  function RevisionItems(paths: seq<string>): set<Item> {
    {FullContract, PostFreezeRevision} + TouchedItems(paths)
  }

  /** Goes through the special items and adds each one that some path touches. */
  method AddTouched(start: set<Item>, paths: seq<string>) returns (items: set<Item>)
    ensures items == start + TouchedItems(paths)
  {
    items := start;
    for i := 0 to |SPECIAL|
      invariant items == start + set item | item in SPECIAL[..i] && Touched(item, paths)
    {
      var item := SPECIAL[i];
      assert SPECIAL[..i + 1] == SPECIAL[..i] + [item];
      if Touched(item, paths) {
        items := items + {item};
      }
    }
    assert SPECIAL[..|SPECIAL|] == SPECIAL;
  }

  /**
   The approvals of a frozen replacement, each once and in the fixed order: the two standing ones and every item
   that watches a field to which a path leads, and none to whose fields no path leads.
   */
  method RequiredRevisionApprovals(changed: seq<string>, causal: seq<string>) returns (required: seq<Item>)
    ensures required == Ordered(RevisionItems(changed + causal)) && InFixedOrder(required)
    ensures FullContract in required && PostFreezeRevision in required
    ensures forall item | Reports(changed + causal, item) :: item in required
    ensures forall item <- required | item != FullContract && item != PostFreezeRevision ::
              ReportsStart(changed + causal, item)
  {
    var items := AddTouched({FullContract, PostFreezeRevision}, changed + causal);
    OrderedMembers(items);
    OrderedIsInOrder(items);
    RevisionItemsMembers(changed + causal);
    forall item
      ensures Reports(changed + causal, item) ==> item in items
      ensures item in items && item != FullContract && item != PostFreezeRevision ==>
                ReportsStart(changed + causal, item)
    {
      TouchedIfReported(item, changed + causal);
    }
    return Ordered(items);
  }

  lemma RevisionItemsMembers(paths: seq<string>)
    ensures forall item :: item in RevisionItems(paths) <==>
              item == FullContract || item == PostFreezeRevision || Touched(item, paths)
  {
    forall item
      ensures item in SPECIAL <==> item != FullContract && item != PostFreezeRevision
    {
      EveryItemListed(item);
    }
  }

  // ----- Reapproval before the freeze -----

  /** The change channels of an unfrozen candidate. */
  datatype Changes = Changes(
    direct: seq<string>, causal: seq<string>, baselineRoles: set<string>,
    foreshadowEvents: seq<string>, newFacts: seq<string>, outlineChanges: seq<string>)

  const NO_CHANGES := Changes([], [], {}, [], [], [])

  /** The items that the channels other than changed paths ask for; `current` holds what the candidate needs anyway. */
  function ChannelItems(changes: Changes, current: set<Item>): set<Item> {
    (if changes.foreshadowEvents != [] then {ForeshadowPayoff} else {})
    + (if changes.newFacts != [] then {NewFacts} else {})
    + (if changes.outlineChanges != [] then {OutlineChange} else {})
    + (if changes.baselineRoles != {} then current else {})
    + (if "outline_change" in changes.baselineRoles then {OutlineChange} else {})
    + (if changes.causal != [] && OutlineChange in current then {OutlineChange} else {})
  }

  /** What has to be approved again. */
  function Reapprovals(changes: Changes, current: set<Item>): set<Item> {
    if changes == NO_CHANGES then {}
    else {FullContract} + TouchedItems(changes.direct + changes.causal) + ChannelItems(changes, current)
  }

  /** Events outside the contract text that make an approval item apply. */
  datatype Context = Context(foreshadowEvents: seq<string>, newFacts: seq<string>, outlineChanges: seq<string>)

  /** The items an unfrozen candidate needs, from its planned foreshadow actions and its context. */
  function RequiredItems(foreshadowPlanned: bool, context: Context): set<Item> {
    {FullContract, MajorChoice, InformationReveal}
    + (if foreshadowPlanned || context.foreshadowEvents != [] then {ForeshadowPayoff} else {})
    + (if context.newFacts != [] then {NewFacts} else {})
    + (if context.outlineChanges != [] then {OutlineChange} else {})
  }

  /** A channel other than changed paths asks for `item`. */
  predicate ChannelAsks(item: Item, changes: Changes, current: set<Item>) {
    || (item.ForeshadowPayoff? && changes.foreshadowEvents != [])
    || (item.NewFacts? && changes.newFacts != [])
    || (item.OutlineChange? && (changes.outlineChanges != [] || "outline_change" in changes.baselineRoles))
    || (item in current && changes.baselineRoles != {})
    || (item.OutlineChange? && item in current && changes.causal != [])
  }

  /** Why `item` has to be approved again. */
  predicate NeedsReapproval(item: Item, changes: Changes, current: set<Item>) {
    || item.FullContract?
    || (item in SPECIAL && Touched(item, changes.direct + changes.causal))
    || ChannelAsks(item, changes, current)
  }

  lemma ChannelItemsMean(changes: Changes, current: set<Item>, item: Item)
    ensures item in ChannelItems(changes, current) <==> ChannelAsks(item, changes, current)
  {
  }

  lemma ReapprovalsMean(changes: Changes, current: set<Item>, item: Item)
    ensures item in Reapprovals(changes, current) <==> changes != NO_CHANGES && NeedsReapproval(item, changes, current)
  {
    ChannelItemsMean(changes, current, item);
    if changes != NO_CHANGES {
      var touched := TouchedItems(changes.direct + changes.causal);
      assert item in touched <==> item in SPECIAL && Touched(item, changes.direct + changes.causal);
    }
  }

  method AddChannels(touched: set<Item>, changes: Changes, current: set<Item>) returns (items: set<Item>)
    requires changes != NO_CHANGES
    requires touched == {FullContract} + TouchedItems(changes.direct + changes.causal)
    ensures items == Reapprovals(changes, current)
  {
    items := touched;
    if changes.foreshadowEvents != [] {
      items := items + {ForeshadowPayoff};
    }
    if changes.newFacts != [] {
      items := items + {NewFacts};
    }
    if changes.outlineChanges != [] {
      items := items + {OutlineChange};
    }
    if changes.baselineRoles != {} {
      items := items + current;
      if "outline_change" in changes.baselineRoles {
        items := items + {OutlineChange};
      }
    }
    if changes.causal != [] && OutlineChange in current {
      items := items + {OutlineChange};
    }
  }

  lemma ReportedAgain(changes: Changes, current: set<Item>, item: Item)
    requires Reports(changes.direct + changes.causal, item)
    ensures item in Reapprovals(changes, current)
  {
    EveryItemListed(item);
    TouchedIfReported(item, changes.direct + changes.causal);
    ReapprovalsMean(changes, current, item);
  }

  /** What is needed again in any case, for a reported path and for a changed baseline role. */
  lemma ReapprovalsCover(foreshadowPlanned: bool, context: Context, changes: Changes)
    ensures var items := Reapprovals(changes, RequiredItems(foreshadowPlanned, context));
            && (changes != NO_CHANGES ==> FullContract in items) && PostFreezeRevision !in items
            && (forall item | Reports(changes.direct + changes.causal, item) :: item in items)
            && (changes.baselineRoles != {} ==>
                && MajorChoice in items && InformationReveal in items
                && (foreshadowPlanned || context.foreshadowEvents != [] ==> ForeshadowPayoff in items)
                && (context.newFacts != [] ==> NewFacts in items)
                && (context.outlineChanges != [] ==> OutlineChange in items))
  {
    var current := RequiredItems(foreshadowPlanned, context);
    EveryItemListed(PostFreezeRevision);
    ReapprovalsMean(changes, current, PostFreezeRevision);
    forall item | Reports(changes.direct + changes.causal, item)
      ensures item in Reapprovals(changes, current)
    {
      ReportedAgain(changes, current, item);
    }
  }

  /** Goes through the change channels and adds the items of each; a path outside the candidate is refused. */
  method RequiredReapprovals(paths: set<string>, foreshadowPlanned: bool, context: Context, changes: Changes)
    returns (required: Option<seq<Item>>)
    ensures required.Some? <==> forall path <- changes.direct + changes.causal :: path in paths
    ensures required.Some? ==>
              var current := RequiredItems(foreshadowPlanned, context);
              && required.value == Ordered(Reapprovals(changes, current)) && InFixedOrder(required.value)
              && forall item :: item in required.value <==>
                 changes != NO_CHANGES && NeedsReapproval(item, changes, current)
    ensures required.Some? && changes != NO_CHANGES ==> FullContract in required.value
    ensures required.Some? ==> forall item | Reports(changes.direct + changes.causal, item) :: item in required.value
    ensures required.Some? ==> PostFreezeRevision !in required.value
    ensures required.Some? && changes.baselineRoles != {} ==>
              && MajorChoice in required.value && InformationReveal in required.value
              && (foreshadowPlanned || context.foreshadowEvents != [] ==> ForeshadowPayoff in required.value)
              && (context.newFacts != [] ==> NewFacts in required.value)
              && (context.outlineChanges != [] ==> OutlineChange in required.value)
  {
    var current := RequiredItems(foreshadowPlanned, context);
    if exists path <- changes.direct + changes.causal :: path !in paths {
      return None;
    }
    var items := {};
    if changes != NO_CHANGES {
      items := AddTouched({FullContract}, changes.direct + changes.causal);
      items := AddChannels(items, changes, current);
    }
    OrderedMembers(items);
    OrderedIsInOrder(items);
    forall item {
      ReapprovalsMean(changes, current, item);
    }
    ReapprovalsCover(foreshadowPlanned, context, changes);
    return Some(Ordered(items));
  }

  ghost predicate ChangesWithin(a: Changes, b: Changes) {
    && (forall p <- a.direct :: p in b.direct) && (forall p <- a.causal :: p in b.causal)
    && a.baselineRoles <= b.baselineRoles
    && (forall p <- a.foreshadowEvents :: p in b.foreshadowEvents)
    && (forall p <- a.newFacts :: p in b.newFacts) && (forall p <- a.outlineChanges :: p in b.outlineChanges)
  }

  /** Reporting more changes never makes an approval unnecessary. */
  lemma ReapprovalsGrow(a: Changes, b: Changes, current: set<Item>)
    requires ChangesWithin(a, b)
    ensures Reapprovals(a, current) <= Reapprovals(b, current)
  {
    if a != NO_CHANGES {
      assert b != NO_CHANGES by {
        if a.direct != [] { assert a.direct[0] in b.direct; }
        if a.causal != [] { assert a.causal[0] in b.causal; }
        if a.foreshadowEvents != [] { assert a.foreshadowEvents[0] in b.foreshadowEvents; }
        if a.newFacts != [] { assert a.newFacts[0] in b.newFacts; }
        if a.outlineChanges != [] { assert a.outlineChanges[0] in b.outlineChanges; }
      }
      if a.causal != [] { assert a.causal[0] in b.causal; }
      if a.foreshadowEvents != [] { assert a.foreshadowEvents[0] in b.foreshadowEvents; }
      if a.newFacts != [] { assert a.newFacts[0] in b.newFacts; }
      if a.outlineChanges != [] { assert a.outlineChanges[0] in b.outlineChanges; }
      forall item | Touched(item, a.direct + a.causal)
        ensures Touched(item, b.direct + b.causal)
      {
        var path :| path in a.direct + a.causal && Covers(item, path);
        assert path in b.direct + b.causal;
      }
    }
  }

  function PathChanges(changed: seq<string>, causal: seq<string>): Changes {
    NO_CHANGES.(direct := changed, causal := causal)
  }

  /**
   Freezing asks for what the same paths need before the freeze and for the revision item, exactly when some
   path is reported and the rule for paths that are only affected does not pull in the outline item by itself.
   */
  lemma FreezeAddsRevisionIff(changed: seq<string>, causal: seq<string>, current: set<Item>)
    ensures RevisionItems(changed + causal) ==
            Reapprovals(PathChanges(changed, causal), current) + {PostFreezeRevision} <==>
            && (changed != [] || causal != [])
            && (OutlineChange in current && causal != [] ==> Touched(OutlineChange, changed + causal))
  {
    var before := Reapprovals(PathChanges(changed, causal), current);
    var frozen := RevisionItems(changed + causal);
    RevisionItemsMembers(changed + causal);
    ReapprovalsMean(PathChanges(changed, causal), current, OutlineChange);
    if changed == [] && causal == [] {
      assert FullContract in frozen && FullContract !in before + {PostFreezeRevision};
    } else if OutlineChange in current && causal != [] && !Touched(OutlineChange, changed + causal) {
      assert OutlineChange in before && OutlineChange !in frozen;
    }
  }

  /** The exception occurs: one affected scene, and an outline change elsewhere that the candidate needs approved. */
  lemma FreezeDropsOutline()
    ensures var current := RequiredItems(false, Context([], [], ["change_requests[0]"]));
            OutlineChange in Reapprovals(PathChanges([], ["chapter"]), current)
              && OutlineChange !in RevisionItems(["chapter"])
  {
    var current := RequiredItems(false, Context([], [], ["change_requests[0]"]));
    var path := "chapter";
    forall pattern <- Patterns(OutlineChange)
      ensures !PathMatches(pattern, path)
    {
      assert |pattern| > 7 && (pattern[0] == 'a' || |pattern| == 18);
    }
    assert !Touched(OutlineChange, [path]);
    FreezeAddsRevisionIff([], [path], current);
    assert [] + [path] == [path];
    RevisionItemsMembers([path]);
  }
}
