/** What every stored record satisfies, kind by kind, and which records a save refuses. */
module RecordContent {
  import opened Wrappers
  import opened Text
  import opened Sorting
  import opened Review
  import opened RecordStore
  import opened RecordRecovery
  import Approval
  import Baseline
  import ReviewGate

  /** The entries are in order, name no source twice, hold one profile, and are what the fingerprint digests. */
  ghost predicate ManifestFine(m: Baseline.Manifest) {
    && m.fingerprint.entries == m.entries && m.entries == Sort(m.entries, Baseline.EntryKey)
    && (forall i, j :: 0 <= i < j < |m.entries| ==>
          m.entries[i].role != m.entries[j].role || m.entries[i].sourceId != m.entries[j].sourceId)
    && (exists i :: 0 <= i < |m.entries| && m.entries[i].role == "profile")
    && (forall i, j :: 0 <= i < j < |m.entries| ==> m.entries[i].role != "profile" || m.entries[j].role != "profile")
  }

  /** The full contract is decided; approved, it tolerates no rejection, and rejected, no approval. */
  predicate DecisionsFit(a: Approval.ApprovalRecord) {
    var others := [a.major, a.information, a.foreshadow, a.facts, a.outline, a.revision];
    && a.full.status != Approval.NotApplicable
    && (a.full.status == Approval.Approved ==> forall d <- others :: d.status != Approval.Rejected)
    && (a.full.status == Approval.Rejected ==> forall d <- others :: d.status != Approval.Approved)
  }

  lemma FitIffCoherent(a: Approval.ApprovalRecord)
    ensures DecisionsFit(a) <==> a.Coherent()
  {
    var others := [a.major, a.information, a.foreshadow, a.facts, a.outline, a.revision];
    assert others[0] == a.Of(Approval.MajorChoice) && others[1] == a.Of(Approval.InformationReveal);
    assert others[2] == a.Of(Approval.ForeshadowPayoff) && others[3] == a.Of(Approval.NewFacts);
    assert others[4] == a.Of(Approval.OutlineChange) && others[5] == a.Of(Approval.PostFreezeRevision);
    forall item: Approval.Item
      ensures item in Approval.ITEMS
      ensures item != Approval.FullContract ==> a.Of(item) in others
    {
      Approval.EveryItemListed(item);
    }
  }

  lemma {:induction false} NoProfile(entries: seq<Baseline.Entry>)
    requires Baseline.Profiles(entries) == 0
    ensures forall i :: 0 <= i < |entries| ==> entries[i].role != "profile"
  {
    if entries != [] {
      NoProfile(entries[..|entries| - 1]);
    }
  }

  lemma {:induction false} OneProfile(entries: seq<Baseline.Entry>)
    requires Baseline.Profiles(entries) == 1
    ensures exists i :: 0 <= i < |entries| && entries[i].role == "profile"
    ensures forall i, j :: 0 <= i < j < |entries| ==> entries[i].role != "profile" || entries[j].role != "profile"
  {
    var n := |entries| - 1;
    if entries[n].role == "profile" {
      NoProfile(entries[..n]);
    } else {
      OneProfile(entries[..n]);
    }
  }

  lemma ManifestIsFine(m: Baseline.Manifest)
    requires Baseline.Construct(m.entries, m.fingerprint).Success?
    ensures ManifestFine(m)
  {
    OneProfile(m.entries);
    forall i, j | 0 <= i < j < |m.entries|
      ensures m.entries[i].role != m.entries[j].role || m.entries[i].sourceId != m.entries[j].sourceId
    {
      assert Baseline.Source(m.entries[i]) != Baseline.Source(m.entries[j]);
    }
  }

  /** A human decision with a reason, made by a named actor that is no system actor. */
  predicate IsHumanDecision(x: Disposition) {
    && (x.status == "accepted" || x.status == "resolved") && !Blank(x.reason) && !Blank(x.decidedAt)
    && !Blank(x.actor) && Fold(Strip(x.actor)) !in {"system", "assistant", "ai", "model", "automation", "bot"}
    && !Blank(x.issueId) && !Blank(x.issueCode) && !Blank(x.fieldPath) && !Blank(x.resultId)
  }

  /** Under which name a record is stored: its identity and the digests that it carries. */
  ghost predicate NameFits(id: RecordId, r: Record) {
    match r
    case BaselineOf(c, v, m) => id == BaselineId(c, v, m.fingerprint)
    case ApprovalOf(a) => id == ApprovalId(a.contractId, a.contractVersion, a.contractHash, a.baseline.fingerprint)
    case ReviewOf(x) => id == ReviewId(x.body.contractId, x.body.contractVersion, x.hash)
    case DispositionOf(x) => id == DispositionId(x.resultId, x.issueId, x.issueHash, PayloadHash(x))
  }

  /** What the digests and decisions in a record have to be. */
  ghost predicate ContentFine(r: Record) {
    match r
    case BaselineOf(_, _, m) => ManifestFine(m)
    case ApprovalOf(a) => ManifestFine(a.baseline) && DecisionsFit(a)
    case ReviewOf(x) => x.hash.body == x.body
    case DispositionOf(x) => IsHumanDecision(x)
  }

  lemma DecodedIsFine(r: Record)
    requires Decodes(r)
    ensures ContentFine(r)
  {
    match r
    case BaselineOf(_, _, m) => ManifestIsFine(m);
    case ApprovalOf(a) =>
      ManifestIsFine(a.baseline);
      FitIffCoherent(a);
    case ReviewOf(_) =>
    case DispositionOf(_) =>
  }

  /** Every stored record stands under the name of its content, and its digests and decisions are in order. */
  lemma StoredIsFine(d: Disk, id: RecordId)
    requires Kept(d) && id in d.records
    ensures NameFits(id, d.records[id]) && ContentFine(d.records[id])
  {
    assert KeptAt(d, id);
    DecodedIsFine(d.records[id]);
  }

  /**
   An approval that contradicts itself, a reviewer result that was altered after it was hashed, and a
   disposition that is no human decision are refused before anything is read or written.
   */
  lemma ContradictionsAreRefused(d: Disk, names: seq<RecordId>, r: Record)
    requires !ContentFine(r)
    ensures Save(d, names, r) == Operation([], Failure(Malformed))
  {
    if Decodes(r) {
      DecodedIsFine(r);
    }
  }

  /** Nothing else keeps an approval of a well-formed baseline, a reviewer result or a disposition from decoding. */
  lemma FineDecodes(r: Record)
    requires r.ApprovalOf? ==> Baseline.Construct(r.approval.baseline.entries, r.approval.baseline.fingerprint).Success?
    requires ContentFine(r) && !r.BaselineOf?
    ensures Decodes(r)
  {
    match r
    case ApprovalOf(a) => FitIffCoherent(a);
    case _ =>
  }
}
