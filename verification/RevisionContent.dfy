/** What a verified revision answers for, said about the places of the two decisions. */
module RevisionContent {
  import opened Text
  import opened Sorting
  import opened Paths
  import opened Decisions
  import opened Leaves
  import opened TreeReading
  import opened PathPatterns
  import opened ContentPaths
  import Diffs
  import Revision

  const CHAPTER := Revision.CHAPTER

  function InChapter(name: string): seq<Step> {
    [Attr(CHAPTER), Attr(name)]
  }

  /** The fields whose change needs an approved change request: some of the decision, the others of its chapter. */
  const MAJOR_TOPS: seq<string> := ["arc_phase", "arc_goal", "inherited_pressure", "future_pressures"]

  const MAJOR_PARTS: seq<string> := [
    "functions", "dramatic_question", "protagonist_choice", "reader_change", "information", "pressure_curve",
    "foreshadow_actions", "ending_shift", "forbidden"]

  /** The steps lead to one of these fields or anywhere below it, be it by attribute or by index. */
  predicate IsMajor(steps: seq<Step>) {
    || (exists name <- MAJOR_TOPS :: [Attr(name)] <= steps)
    || (exists name <- MAJOR_PARTS :: InChapter(name) <= steps)
  }

  /** The place belongs to this text and is no bookkeeping. */
  ghost predicate FieldText(field: seq<Step>, text: string) {
    && Proper(field) && field != [] && PathText("", field) == text && text != ""
    && (forall steps | field <= steps :: !IsBookkeeping(steps))
  }

  lemma TopField(name: string)
    requires IsIdentifier(name) && name != "contract_version" && name != "legacy_unclassified_evidence"
    requires name != CHAPTER
    ensures FieldText([Attr(name)], name)
  {
    assert [Attr(name)][1..] == [];
    forall steps | [Attr(name)] <= steps
      ensures !IsBookkeeping(steps)
    {
      assert steps[0] == Attr(name);
      assert VERSION_STEPS[0] != Attr(name) && BINDING_STEPS[0] != Attr(name) && LEGACY_STEPS[0] != Attr(name);
    }
  }

  lemma ChapterIsNoBookkeeping()
    ensures CHAPTER != "contract_version" && CHAPTER != "legacy_unclassified_evidence"
  {
    assert CHAPTER[1] == 'h' && "contract_version"[1] == 'o' && "legacy_unclassified_evidence"[0] == 'l';
  }

  lemma ChapterField(name: string)
    requires IsIdentifier(CHAPTER) && IsIdentifier(name) && name != "intent_evidence_bindings"
    ensures FieldText(InChapter(name), CHAPTER + "." + name)
  {
    ChapterIsNoBookkeeping();
    TwoSteps(CHAPTER, name);
    forall steps | InChapter(name) <= steps
      ensures !IsBookkeeping(steps)
    {
      assert steps[0] == InChapter(name)[0] && steps[1] == InChapter(name)[1];
      assert VERSION_STEPS[0] != steps[0] && BINDING_STEPS[1] != steps[1] && LEGACY_STEPS[0] != steps[0];
    }
  }

  /** A short name or one with another first letter is neither the chapter nor bookkeeping. */
  lemma PlainTop(name: string)
    requires IsIdentifier(name) && (name[0] != 'c' || |name| == 15) && name[0] != 'l'
    ensures FieldText([Attr(name)], name)
  {
    assert |"contract_version"| == 16 && |CHAPTER| == 16;
    assert "contract_version"[0] == 'c' && CHAPTER[0] == 'c' && "legacy_unclassified_evidence"[0] == 'l';
    TopField(name);
  }

  lemma PlainPart(name: string)
    requires IsIdentifier(CHAPTER) && IsIdentifier(name) && |name| < 24
    ensures FieldText(InChapter(name), CHAPTER + "." + name)
  {
    assert |"intent_evidence_bindings"| == 24;
    ChapterField(name);
  }

  // ----- The names -----

  predicate IsTopName(name: string) {
    IsIdentifier(name) && name[0] != 'c' && name[0] != 'l'
  }

  predicate IsPartName(name: string) {
    IsIdentifier(name) && |name| < 24
  }

  lemma ArcNames()
    ensures IsTopName("arc_phase") && IsTopName("arc_goal")
  {
  }

  lemma PressureNames()
    ensures IsTopName("inherited_pressure") && IsTopName("future_pressures")
  {
  }

  lemma PurposeNames()
    ensures IsPartName("functions") && IsPartName("dramatic_question") && IsPartName("protagonist_choice")
  {
  }

  lemma ReaderNames()
    ensures IsPartName("reader_change") && IsPartName("information") && IsPartName("pressure_curve")
  {
  }

  lemma EndingNames()
    ensures IsPartName("foreshadow_actions") && IsPartName("ending_shift") && IsPartName("forbidden")
  {
  }

  lemma TopNames(name: string)
    requires name in MAJOR_TOPS
    ensures IsTopName(name)
  {
    ArcNames();
    PressureNames();
  }

  lemma PartNames(name: string)
    requires name in MAJOR_PARTS
    ensures IsPartName(name)
  {
    PurposeNames();
    ReaderNames();
    EndingNames();
  }

  // ----- Texts and steps -----

  predicate AtOrUnder(prefix: string, path: string) {
    path == prefix || StartsWith(path, prefix + ".") || StartsWith(path, prefix + "[")
  }

  lemma UnderMajor(prefix: string, path: string)
    requires prefix != ""
    ensures AtOrUnder(prefix, path) <==> Under(prefix, path)
  {
    StartsUnder(prefix, '.', path);
    StartsUnder(prefix, '[', path);
    if Under(prefix, path) && |path| > |prefix| {
      assert path == prefix + [path[|prefix|]] + path[|prefix| + 1..];
    }
  }

  lemma TopUnder(name: string, steps: seq<Step>)
    requires name in MAJOR_TOPS && Proper(steps)
    ensures [Attr(name)] <= steps <==> AtOrUnder(name, PathText("", steps))
    ensures [Attr(name)] <= steps ==> !IsBookkeeping(steps)
  {
    TopNames(name);
    PlainTop(name);
    UnderIffStartsWith("", [Attr(name)], steps);
    UnderMajor(name, PathText("", steps));
  }

  lemma PartUnder(name: string, steps: seq<Step>)
    requires name in MAJOR_PARTS && Proper(steps)
    ensures InChapter(name) <= steps <==> AtOrUnder(CHAPTER + "." + name, PathText("", steps))
    ensures InChapter(name) <= steps ==> !IsBookkeeping(steps)
  {
    ChapterName();
    PartNames(name);
    PlainPart(name);
    UnderIffStartsWith("", InChapter(name), steps);
    UnderMajor(CHAPTER + "." + name, PathText("", steps));
  }

  /** The paths that the verification looks for are the texts of the fields. */
  lemma MajorTexts(path: string)
    ensures Revision.MajorPath(path) <==>
            || (exists name <- MAJOR_TOPS :: AtOrUnder(name, path))
            || (exists name <- MAJOR_PARTS :: AtOrUnder(CHAPTER + "." + name, path))
  {
    TopTexts();
    PartTexts();
    if Revision.MajorPath(path) {
      var prefix :| prefix in Revision.MAJOR && AtOrUnder(prefix, path);
      var i :| 0 <= i < 13 && Revision.MAJOR[i] == prefix;
      assert i < 4 ==> MAJOR_TOPS[i] in MAJOR_TOPS;
      assert i >= 4 ==> MAJOR_PARTS[i - 4] in MAJOR_PARTS;
    }
    if name :| name in MAJOR_TOPS && AtOrUnder(name, path) {
      var i :| 0 <= i < 4 && MAJOR_TOPS[i] == name;
      assert Revision.MAJOR[i] in Revision.MAJOR;
    }
    if name :| name in MAJOR_PARTS && AtOrUnder(CHAPTER + "." + name, path) {
      var i :| 0 <= i < 9 && MAJOR_PARTS[i] == name;
      assert Revision.MAJOR[i + 4] in Revision.MAJOR;
    }
  }

  lemma TopTexts()
    ensures |Revision.MAJOR| == 13 && |MAJOR_TOPS| == 4
    ensures forall i :: 0 <= i < 4 ==> Revision.MAJOR[i] == MAJOR_TOPS[i]
  {
  }

  lemma PartTexts()
    ensures |Revision.MAJOR| == 13 && |MAJOR_PARTS| == 9
    ensures forall i :: 0 <= i < 9 ==> Revision.MAJOR[i + 4] == CHAPTER + "." + MAJOR_PARTS[i]
  {
    assert Revision.MAJOR[4] == CHAPTER + "." + MAJOR_PARTS[0] && Revision.MAJOR[5] == CHAPTER + "." + MAJOR_PARTS[1];
    assert Revision.MAJOR[6] == CHAPTER + "." + MAJOR_PARTS[2] && Revision.MAJOR[7] == CHAPTER + "." + MAJOR_PARTS[3];
    assert Revision.MAJOR[8] == CHAPTER + "." + MAJOR_PARTS[4] && Revision.MAJOR[9] == CHAPTER + "." + MAJOR_PARTS[5];
    assert Revision.MAJOR[10] == CHAPTER + "." + MAJOR_PARTS[6] && Revision.MAJOR[11] == CHAPTER + "." + MAJOR_PARTS[7];
    assert Revision.MAJOR[12] == CHAPTER + "." + MAJOR_PARTS[8];
  }

  /** A path is major exactly if its steps start with the steps of a major field. */
  lemma MajorIff(steps: seq<Step>)
    requires Proper(steps)
    ensures Revision.MajorPath(PathText("", steps)) <==> IsMajor(steps)
  {
    MajorTexts(PathText("", steps));
    forall name <- MAJOR_TOPS
      ensures [Attr(name)] <= steps <==> AtOrUnder(name, PathText("", steps))
    {
      TopUnder(name, steps);
    }
    forall name <- MAJOR_PARTS
      ensures InChapter(name) <= steps <==> AtOrUnder(CHAPTER + "." + name, PathText("", steps))
    {
      PartUnder(name, steps);
    }
  }

  lemma MajorIsContent(steps: seq<Step>)
    requires Proper(steps) && IsMajor(steps)
    ensures !IsBookkeeping(steps)
  {
    if name :| name in MAJOR_TOPS && [Attr(name)] <= steps {
      TopUnder(name, steps);
    } else {
      var name :| name in MAJOR_PARTS && InChapter(name) <= steps;
      PartUnder(name, steps);
    }
  }

  /** An approved request for this chapter quotes both values of the place. */
  ghost predicate HasApprovedRequest(before: NarrativeDecision, after: NarrativeDecision, steps: seq<Step>,
                                     requests: seq<Revision.ChangeRequest>) {
    exists q <- requests ::
      && q.status == Revision.Approved && before.chapter in q.chapters
      && q.oldPlan == Quoted(ScalarAt(before, steps)) && q.newPlan == Quoted(ScalarAt(after, steps))
  }

  lemma JustifiedQuotes(before: NarrativeDecision, after: NarrativeDecision, steps: seq<Step>,
                        requests: seq<Revision.ChangeRequest>)
    requires WellNamed(before.tree) && WellNamed(after.tree) && Proper(steps) && !IsBookkeeping(steps)
    requires Revision.Justified(Diffs.ChangeAt(PathText("", steps), LeavesOf(before), LeavesOf(after)), before.chapter,
                                requests)
    ensures HasApprovedRequest(before, after, steps, requests)
  {
    ScalarIsLeaf(before, steps);
    ScalarIsLeaf(after, steps);
    var c := Diffs.ChangeAt(PathText("", steps), LeavesOf(before), LeavesOf(after));
    var q :| q in requests && q.Valid() && q.status.Approved? && before.chapter in q.chapters
             && Revision.Describes(q, c);
  }

  /**
   When a revision verifies, every place of content at which the two decisions differ is declared as causal
   impact, and an approved change request of the chapter quotes both values of each that is, or lies below,
   one of the major fields, items of arrays included.
   */
  lemma AlteredPlacesAreAnsweredFor(r: Revision.Request, before: NarrativeDecision, after: NarrativeDecision,
                                    causal: seq<string>, requests: seq<Revision.ChangeRequest>, steps: seq<Step>)
    requires Revision.Verify(r, before, after, causal, requests).Success?
    requires WellNamed(before.tree) && WellNamed(after.tree) && Proper(steps) && Altered(before, after, steps)
    ensures !IsBookkeeping(steps) ==> PathText("", steps) in r.causal
    ensures IsMajor(steps) ==> HasApprovedRequest(before, after, steps, requests)
  {
    if IsMajor(steps) {
      MajorIsContent(steps);
    }
    if !IsBookkeeping(steps) {
      AlteredIffDiffers(before, after, steps);
      Revision.VerifiedHidesNothing(r, before, after, causal, requests);
      MajorIff(steps);
      if IsMajor(steps) {
        JustifiedQuotes(before, after, steps, requests);
      }
    }
  }

  // ----- What a constructed request is -----

  lemma {:induction false} SortedIsIncreasing(paths: seq<string>)
    requires Revision.StrictlySorted(paths)
    ensures Diffs.Increasing(paths)
    decreases |paths|
  {
    if paths != [] {
      var rest := paths[1..];
      forall i | 0 <= i < |rest| - 1
        ensures StrLe(rest[i], rest[i + 1]) && rest[i] != rest[i + 1]
      {
        assert rest[i] == paths[i + 1] && rest[i + 1] == paths[i + 2];
      }
      SortedIsIncreasing(rest);
      forall p <- rest
        ensures StrLe(paths[0], p) && paths[0] != p
      {
        FirstIsLeast(paths, p);
      }
      Diffs.IncreasingFrom(paths[0], rest);
      assert paths == [paths[0]] + rest;
    }
  }

  lemma FirstIsLeast(paths: seq<string>, p: string)
    requires Revision.StrictlySorted(paths) && paths != [] && p in paths[1..] && Diffs.Increasing(paths[1..])
    ensures StrLe(paths[0], p) && paths[0] != p
  {
    var j :| 0 <= j < |paths[1..]| && paths[1..][j] == p;
    assert paths[1] == paths[1..][0];
    assert StrLe(paths[0], paths[1]) && paths[0] != paths[1];
    if j > 0 {
      StrLeTransitive(paths[0], paths[1], p);
      if paths[0] == p {
        StrLeAntisymmetric(paths[0], paths[1]);
      }
    }
  }

  /** Neighbours in order are all in order, and none occurs twice. */
  lemma SortedIffIncreasing(paths: seq<string>)
    ensures Revision.StrictlySorted(paths) <==> Diffs.Increasing(paths)
  {
    if Revision.StrictlySorted(paths) {
      SortedIsIncreasing(paths);
    }
  }

  /** Field paths, in order, none twice. */
  ghost predicate PathsFine(paths: seq<string>) {
    && (forall p <- paths :: IsPath(p))
    && forall i, j :: 0 <= i < j < |paths| ==> StrLe(paths[i], paths[j]) && paths[i] != paths[j]
  }

  lemma PathsFineIff(paths: seq<string>)
    ensures PathsFine(paths) <==> Revision.CheckPaths(paths).Success?
  {
    SortedIffIncreasing(paths);
  }

  ghost predicate ReferenceFine(r: Revision.Reference) {
    !Blank(r.requestId) && r.covered != [] && PathsFine(r.covered)
  }

  ghost predicate RequestFine(r: Revision.Request) {
    && !Blank(r.contractId) && !Blank(r.chapterId) && !Blank(r.sceneImpact)
    && r.baseVersion >= 1 && r.replacementVersion == r.baseVersion + 1
    && r.changes != [] && (forall c <- r.changes :: c.oldPresent || c.newPresent) && PathsFine(Diffs.PathsOf(r.changes))
    && PathsFine(r.causal) && (forall x <- r.references :: ReferenceFine(x))
    && forall i, j :: 0 <= i < j < |r.references| ==> r.references[i].requestId != r.references[j].requestId
  }

  lemma ChangePathsFine(changes: seq<Diffs.Change>)
    ensures (forall p <- Diffs.PathsOf(changes) :: IsPath(p)) <==> forall c <- changes :: IsPath(c.path)
  {
    var paths := Diffs.PathsOf(changes);
    forall p <- paths
      ensures exists c <- changes :: c.path == p
    {
      Diffs.InPathsOf(changes, p);
    }
    forall c <- changes
      ensures c.path in paths
    {
      Diffs.InPathsOf(changes, c.path);
    }
  }

  lemma ReferencesFine(references: seq<Revision.Reference>)
    ensures (forall x <- references :: ReferenceFine(x)) <==> forall x <- references :: Revision.ReferenceIsValid(x)
  {
    forall x <- references
      ensures ReferenceFine(x) <==> Revision.ReferenceIsValid(x)
    {
      PathsFineIff(x.covered);
    }
  }

  lemma IdsDistinct(references: seq<Revision.Reference>)
    ensures DistinctBy(references, Revision.RequestId) <==>
            forall i, j :: 0 <= i < j < |references| ==> references[i].requestId != references[j].requestId
  {
    assert forall i :: 0 <= i < |references| ==> Revision.RequestId(references[i]) == references[i].requestId;
  }

  /** The constructor accepts exactly the requests whose versions are contiguous and whose lists are in order. */
  lemma ConstructIffFine(r: Revision.Request)
    ensures Revision.Construct(r).Success? <==> RequestFine(r)
  {
    ChangePathsFine(r.changes);
    SortedIffIncreasing(Diffs.PathsOf(r.changes));
    PathsFineIff(r.causal);
    ReferencesFine(r.references);
    IdsDistinct(r.references);
  }

  // ----- The change requests -----

  predicate ChangeRequestFine(q: Revision.ChangeRequest) {
    && !Blank(q.id) && !Blank(q.reason) && !Blank(q.oldPlan) && !Blank(q.newPlan)
    && q.chapters != [] && (forall c <- q.chapters :: c >= 1)
    && q.subjects != [] && (forall s <- q.subjects :: !Blank(s))
    && q.hooks != [] && (forall h <- q.hooks :: !Blank(h))
  }

  lemma {:induction false} CollectedAreFine(changes: seq<Diffs.Change>, chapter: nat,
                                            requests: seq<Revision.ChangeRequest>)
    requires Revision.Collect(changes, chapter, requests).Success?
    ensures forall q <- requests :: ChangeRequestFine(q)
  {
    if requests != [] {
      CollectedAreFine(changes, chapter, requests[1..]);
    }
  }

  /** One change request with a blank part or without chapters, subjects or hooks makes every verification fail. */
  lemma VerifiedRequestsAreFine(r: Revision.Request, before: NarrativeDecision, after: NarrativeDecision,
                                causal: seq<string>, requests: seq<Revision.ChangeRequest>)
    requires Revision.Verify(r, before, after, causal, requests).Success?
    ensures forall q <- requests :: ChangeRequestFine(q)
    ensures PathsFine(causal) && (forall p <- causal :: p in LeavesOf(before) || p in LeavesOf(after))
    ensures r.contractId == before.contractId && r.chapterId == before.chapterId
    ensures r.baseVersion == before.contractVersion && r.replacementVersion == after.contractVersion
    ensures r.baseHash.decision == before && r.replacementHash.decision == after && r.causal == causal
  {
    CollectedAreFine(Diffs.Diff(LeavesOf(before), LeavesOf(after)), before.chapter, requests);
    PathsFineIff(causal);
  }

  // ----- What the references cover -----

  /** The request quotes both values of a major place at which the decisions differ. */
  predicate QuotesPlace(q: Revision.ChangeRequest, before: NarrativeDecision, after: NarrativeDecision,
                        steps: seq<Step>) {
    && Altered(before, after, steps) && IsMajor(steps)
    && q.oldPlan == Quoted(ScalarAt(before, steps)) && q.newPlan == Quoted(ScalarAt(after, steps))
  }

  lemma {:induction false} CoveredIff(changes: seq<Diffs.Change>, q: Revision.ChangeRequest, path: string)
    ensures path in Revision.CoveredPaths(changes, q) <==>
            exists c <- changes :: c.path == path && Revision.Describes(q, c)
  {
    if changes != [] {
      CoveredIff(changes[1..], q, path);
      forall c <- changes
        ensures c == changes[0] || c in changes[1..]
      {
        var i :| 0 <= i < |changes| && changes[i] == c;
        assert i > 0 ==> changes[1..][i - 1] == c;
      }
    }
  }

  lemma DescribedAt(before: NarrativeDecision, after: NarrativeDecision, q: Revision.ChangeRequest, path: string)
    ensures var diff := Diffs.Diff(LeavesOf(before), LeavesOf(after));
            path in Revision.CoveredPaths(diff, q) <==>
            Diffs.Differs(path, LeavesOf(before), LeavesOf(after))
            && Revision.Describes(q, Diffs.ChangeAt(path, LeavesOf(before), LeavesOf(after)))
  {
    var x, y := LeavesOf(before), LeavesOf(after);
    var diff := Diffs.Diff(x, y);
    CoveredIff(diff, q, path);
    Diffs.DiffIsTheExactOne(diff, x, y);
    if Diffs.Differs(path, x, y) {
      Diffs.InPathsOf(diff, path);
    }
  }

  lemma CoveredPlace(before: NarrativeDecision, after: NarrativeDecision, q: Revision.ChangeRequest, steps: seq<Step>)
    requires WellNamed(before.tree) && WellNamed(after.tree) && Proper(steps) && !IsBookkeeping(steps)
    ensures PathText("", steps) in Revision.CoveredPaths(Diffs.Diff(LeavesOf(before), LeavesOf(after)), q) <==>
            QuotesPlace(q, before, after, steps)
  {
    DescribedAt(before, after, q, PathText("", steps));
    AlteredIffDiffers(before, after, steps);
    MajorIff(steps);
    ScalarIsLeaf(before, steps);
    ScalarIsLeaf(after, steps);
  }

  lemma {:induction false} CollectedIff(changes: seq<Diffs.Change>, chapter: nat,
                                        requests: seq<Revision.ChangeRequest>, x: Revision.Reference)
    requires Revision.Collect(changes, chapter, requests).Success?
    ensures x in Revision.Collect(changes, chapter, requests).value <==>
            exists q <- requests :: x in Revision.ReferenceOf(changes, chapter, q)
  {
    if requests != [] {
      CollectedIff(changes, chapter, requests[1..], x);
      assert requests == [requests[0]] + requests[1..];
    }
  }

  /** The reference stands for an approved request of the chapter and covers exactly the major places it quotes. */
  ghost predicate StandsFor(x: Revision.Reference, q: Revision.ChangeRequest, before: NarrativeDecision,
                            after: NarrativeDecision) {
    && x.requestId == q.id && x.hash.request == q && q.status == Revision.Approved && before.chapter in q.chapters
    && x.covered != []
    && forall steps | Proper(steps) && !IsBookkeeping(steps) ::
         PathText("", steps) in x.covered <==> QuotesPlace(q, before, after, steps)
  }

  lemma ReferenceStandsFor(before: NarrativeDecision, after: NarrativeDecision, q: Revision.ChangeRequest,
                           x: Revision.Reference)
    requires WellNamed(before.tree) && WellNamed(after.tree)
    requires x in Revision.ReferenceOf(Diffs.Diff(LeavesOf(before), LeavesOf(after)), before.chapter, q)
    ensures StandsFor(x, q, before, after)
  {
    forall steps | Proper(steps) && !IsBookkeeping(steps)
      ensures PathText("", steps) in x.covered <==> QuotesPlace(q, before, after, steps)
    {
      CoveredPlace(before, after, q, steps);
    }
  }

  lemma VerifiedReferences(r: Revision.Request, before: NarrativeDecision, after: NarrativeDecision,
                           causal: seq<string>, requests: seq<Revision.ChangeRequest>, x: Revision.Reference)
    requires Revision.Verify(r, before, after, causal, requests).Success?
    ensures x in r.references <==>
            exists q <- requests ::
              x in Revision.ReferenceOf(Diffs.Diff(LeavesOf(before), LeavesOf(after)), before.chapter, q)
  {
    var diff := Diffs.Diff(LeavesOf(before), LeavesOf(after));
    CollectedIff(diff, before.chapter, requests, x);
    SortMembers(Revision.Collect(diff, before.chapter, requests).value, Revision.ReferenceKey, x);
  }

  /**
   In a verified request each reference stands for one of the change requests and covers exactly the major
   places that it quotes; every approved change request of the chapter that quotes one has its reference.
   */
  lemma ReferencesAreExact(r: Revision.Request, before: NarrativeDecision, after: NarrativeDecision,
                           causal: seq<string>, requests: seq<Revision.ChangeRequest>)
    requires Revision.Verify(r, before, after, causal, requests).Success?
    requires WellNamed(before.tree) && WellNamed(after.tree)
    ensures forall x <- r.references :: exists q <- requests :: StandsFor(x, q, before, after)
    ensures forall q, steps | q in requests && q.status == Revision.Approved && before.chapter in q.chapters
                              && Proper(steps) && QuotesPlace(q, before, after, steps) ::
              exists x <- r.references :: x.requestId == q.id && x.hash.request == q
  {
    var diff := Diffs.Diff(LeavesOf(before), LeavesOf(after));
    forall x <- r.references
      ensures exists q <- requests :: StandsFor(x, q, before, after)
    {
      VerifiedReferences(r, before, after, causal, requests, x);
      var q :| q in requests && x in Revision.ReferenceOf(diff, before.chapter, q);
      ReferenceStandsFor(before, after, q, x);
    }
    forall q, steps | q in requests && q.status == Revision.Approved && before.chapter in q.chapters
                      && Proper(steps) && QuotesPlace(q, before, after, steps)
      ensures exists x <- r.references :: x.requestId == q.id && x.hash.request == q
    {
      MajorIsContent(steps);
      CoveredPlace(before, after, q, steps);
      var x := Revision.Reference(q.id, Revision.RequestHash(q), Revision.CoveredPaths(diff, q));
      VerifiedReferences(r, before, after, causal, requests, x);
    }
  }
}
