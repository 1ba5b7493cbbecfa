/** Two versions of a contract that really pass preflight, the second of them current in the end. */
module ReadyExample {
  import opened Decisions
  import opened Lifecycle
  import opened LifecycleRuns
  import opened LifecycleExample
  import opened PreflightVerdict
  import ContractFields
  import Leaves
  import ReadyContract
  import ReadyTree
  import Review

  function TreeOf(n: nat): Tree {
    ReadyContract.Version(false, n).tree
  }

  /** The leaves that all versions share. */
  function SharedLeaves(): seq<(string, Scalar)> {
    ReadyTree.ContentLeaves(ReadyContract.PartsWith([], false, 0))
  }

  lemma TreeLeaves(n: nat)
    ensures Leaves.LeafList(TreeOf(n), "") == SharedLeaves() + [(TARGET, Int(n))]
  {
    var places := ReadyContract.PlacesFor(ContractFields.CAUSAL_FIELDS, false);
    ReadyTree.ContractLeaves(n, ReadyContract.PartsWith(places, false, n));
  }

  lemma AssignLast(leaves: seq<(string, Scalar)>, last: (string, Scalar))
    ensures Leaves.Assign(leaves + [last], map[]) == Leaves.Assign(leaves, map[])[last.0 := last.1]
  {
    Leaves.AssignConcat(leaves, [last], map[]);
    assert [last][1..] == [];
    assert Leaves.Assign([last], Leaves.Assign(leaves, map[])) ==
           Leaves.Assign([], Leaves.Assign(leaves, map[])[last.0 := last.1]);
  }

  lemma VersionLeaves(n: nat)
    ensures Leaves.LeavesOf(ReadyContract.Version(false, n)) ==
            Leaves.Assign(SharedLeaves(), map[])[TARGET := Int(n)]
  {
    TreeLeaves(n);
    AssignLast(SharedLeaves(), (TARGET, Int(n)));
  }

  lemma VersionsAgree(g: Gates, n: nat)
    requires g.tree == TreeOf
    ensures Version(g, n) == ReadyContract.Version(false, n)
  {
    assert g.tree(n) == TreeOf(n);
  }

  lemma OneLeafDiffers(leaves: Leaves.LeafMap, path: string, before: Scalar, after: Scalar)
    ensures leaves[path := before][path := after] == leaves[path := after]
  {
  }

  lemma VersionsDiffer()
    ensures var before := Leaves.LeavesOf(ReadyContract.Version(false, 1));
            var after := Leaves.LeavesOf(ReadyContract.Version(false, 2));
            TARGET in before && before[TARGET] == Int(1) && after == before[TARGET := Int(2)]
  {
    VersionLeaves(1);
    VersionLeaves(2);
    OneLeafDiffers(Leaves.Assign(SharedLeaves(), map[]), TARGET, Int(1), Int(2));
  }

  lemma VersionsAreOpen(g: Gates)
    requires Version(g, 1) == ReadyContract.Version(false, 1) && Version(g, 2) == ReadyContract.Version(false, 2)
    requires g.ready(ReadyContract.Version(false, 1)) && g.ready(ReadyContract.Version(false, 2))
    ensures Open(g)
  {
    VersionsDiffer();
  }

  lemma Verdict(i: Inputs) returns (ready: NarrativeDecision -> bool)
    ensures Judges(i, ready)
  {
    ready := d => PassesPreflight(i, d);
  }

  lemma VerdictPasses(i: Inputs, ready: NarrativeDecision -> bool, d: NarrativeDecision)
    requires Judges(i, ready) && PassesPreflight(i, d)
    ensures ready(d)
  {
  }

  /** Gates with the verdict that causal analysis and preflight give on the trees of the two versions. */
  lemma GatesOpen(hex: Review.IssueHash -> string) returns (i: Inputs, g: Gates)
    ensures g.hex == hex && Judges(i, g.ready) && Open(g)
    ensures Version(g, 1) == ReadyContract.Version(false, 1) && Version(g, 2) == ReadyContract.Version(false, 2)
  {
    i := Inputs(ReadyContract.Sources(false), true, _ => true);
    var ready := Verdict(i);
    g := Gates(hex, ready, TreeOf);
    VersionReady(i, ready, 1);
    VersionReady(i, ready, 2);
    VersionsAgree(g, 1);
    VersionsAgree(g, 2);
    VersionsAreOpen(g);
  }

  lemma VersionReady(i: Inputs, ready: NarrativeDecision -> bool, n: nat)
    requires n > 0 && i == Inputs(ReadyContract.Sources(false), true, _ => true) && Judges(i, ready)
    ensures ready(ReadyContract.Version(false, n))
  {
    ReadyContract.VersionIsReady(false, n);
    VerdictPasses(i, ready, ReadyContract.Version(false, n));
  }

  /**
   From an empty project some calls, whose verdicts are all those of causal analysis and preflight, make version 2
   current, with version 1 archived.
   */
  lemma VersionTwoIsReachable(hex: Review.IssueHash -> string) returns (calls: seq<Call>, i: Inputs, g: Gates)
    ensures SecondIsCurrent(Run(EMPTY, calls)) && Judges(i, g.ready) && forall call <- calls :: Uses(call, g)
  {
    i, g := GatesOpen(hex);
    calls := SecondIsReachable(g);
  }
}
