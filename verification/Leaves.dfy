/** Flattening a decision tree into scalar leaves, and the exact difference of two flattenings. */
module Leaves {
  import opened Text
  import opened Paths
  import opened Decisions

  type LeafMap = map<string, Scalar>

  /** Identity and evidence bookkeeping that a revision does not count as content. */
  const EXCLUDED := {"contract_version", "chapter_contract" + "." + "intent_evidence_bindings",
                     "legacy_unclassified_evidence"}

  function FieldPath(path: string, name: string): string {
    if path == "" then name else path + "." + name
  }

  function ItemPath(path: string, index: nat): string {
    path + "[" + Decimal(index) + "]"
  }

  function LeafList(t: Tree, path: string): seq<(string, Scalar)>
    decreases t, 0
  {
    if path in EXCLUDED then []
    else
      match t
      case Leaf(value) => [(path, value)]
      case Record(fields) => FieldLeaves(fields, path)
      case Tuple(items) => ItemLeaves(items, path, 0)
  }

  function FieldLeaves(fields: seq<Field>, path: string): seq<(string, Scalar)>
    decreases fields, 1
  {
    if fields == [] then []
    else LeafList(fields[0].tree, FieldPath(path, fields[0].name)) + FieldLeaves(fields[1..], path)
  }

  function ItemLeaves(items: seq<Tree>, path: string, first: nat): seq<(string, Scalar)>
    decreases items, 1
  {
    if items == [] then []
    else LeafList(items[0], ItemPath(path, first)) + ItemLeaves(items[1..], path, first + 1)
  }

  /** Assigning the leaves one after the other, as to a dictionary. */
  function Assign(leaves: seq<(string, Scalar)>, before: LeafMap): LeafMap {
    if leaves == [] then before
    else Assign(leaves[1..], before[leaves[0].0 := leaves[0].1])
  }

  function LeavesOf(d: NarrativeDecision): LeafMap {
    Assign(LeafList(d.tree, ""), map[])
  }

  lemma AssignConcat(a: seq<(string, Scalar)>, b: seq<(string, Scalar)>, before: LeafMap)
    ensures Assign(a + b, before) == Assign(b, Assign(a, before))
  {
    if a == [] {
      assert a + b == b;
    } else {
      assert (a + b)[1..] == a[1..] + b;
    }
  }

  /** The recursive visitor, filling a dictionary as it walks the tree. */
  method CollectLeaves(t: Tree, path: string, found: LeafMap) returns (r: LeafMap)
    ensures r == Assign(LeafList(t, path), found)
    decreases t
  {
    r := found;
    if path in EXCLUDED {
      return;
    }
    match t
    case Leaf(value) => r := r[path := value];
    case Record(fields) =>
      for i := 0 to |fields|
        invariant Assign(FieldLeaves(fields[i..], path), r) == Assign(FieldLeaves(fields, path), found)
      {
        var leaves, rest := LeafList(fields[i].tree, FieldPath(path, fields[i].name)), fields[i + 1..];
        assert fields[i..][1..] == rest;
        AssignConcat(leaves, FieldLeaves(rest, path), r);
        r := CollectLeaves(fields[i].tree, FieldPath(path, fields[i].name), r);
      }
    case Tuple(items) =>
      for i := 0 to |items|
        invariant Assign(ItemLeaves(items[i..], path, i), r) == Assign(ItemLeaves(items, path, 0), found)
      {
        var leaves, rest := LeafList(items[i], ItemPath(path, i)), items[i + 1..];
        assert items[i..][1..] == rest;
        AssignConcat(leaves, ItemLeaves(rest, path, i + 1), r);
        r := CollectLeaves(items[i], ItemPath(path, i), r);
      }
  }

  // ----- Distinct leaves have distinct paths -----

  /** Field names are identifiers and do not repeat within a record. */
  ghost predicate WellNamed(t: Tree)
    decreases t, 0
  {
    match t
    case Leaf(_) => true
    case Record(fields) => WellNamedFields(fields)
    case Tuple(items) => forall i :: 0 <= i < |items| ==> WellNamed(items[i])
  }

  ghost predicate WellNamedFields(fields: seq<Field>)
    decreases fields, 1
  {
    && (forall i :: 0 <= i < |fields| ==> IsIdentifier(fields[i].name) && WellNamed(fields[i].tree))
    && (forall i, j :: 0 <= i < j < |fields| ==> fields[i].name != fields[j].name)
  }

  /** `q` is `p` or lies below it; the root is above everything. */
  predicate Under(p: string, q: string) {
    p == "" || (p <= q && (|q| == |p| || q[|p|] == '.' || q[|p|] == '['))
  }

  predicate AllUnder(leaves: seq<(string, Scalar)>, p: string) {
    forall leaf <- leaves :: Under(p, leaf.0)
  }

  lemma UnderTransitive(p: string, q: string, r: string)
    requires Under(p, q) && Under(q, r) && q != ""
    ensures Under(p, r)
  {
    if p != "" {
      assert r[..|p|] == q[..|p|];
      if |q| > |p| {
        assert r[|p|] == q[|p|];
      }
    }
  }

  lemma FieldPathUnder(p: string, name: string)
    requires name != ""
    ensures FieldPath(p, name) != "" && Under(p, FieldPath(p, name))
  {
    if p != "" {
      assert FieldPath(p, name)[..|p|] == p && FieldPath(p, name)[|p|] == '.';
    }
  }

  lemma ItemPathUnder(p: string, index: nat)
    ensures ItemPath(p, index) != "" && Under(p, ItemPath(p, index))
  {
    assert ItemPath(p, index)[..|p|] == p && ItemPath(p, index)[|p|] == '[';
  }

  lemma {:induction false} LeavesUnder(t: Tree, p: string)
    requires WellNamed(t)
    ensures AllUnder(LeafList(t, p), p)
    decreases t, 0
  {
    if p !in EXCLUDED {
      match t
      case Leaf(_) =>
      case Record(fields) => FieldLeavesUnder(fields, p);
      case Tuple(items) => ItemLeavesUnder(items, p, 0);
    }
  }

  /** Every leaf of a record lies below one of its fields. */
  lemma {:induction false} FieldLeavesUnder(fields: seq<Field>, p: string)
    requires WellNamedFields(fields)
    ensures AllUnder(FieldLeaves(fields, p), p)
    ensures forall leaf <- FieldLeaves(fields, p) ::
              exists i :: 0 <= i < |fields| && Under(FieldPath(p, fields[i].name), leaf.0)
    decreases fields, 1
  {
    if fields != [] {
      var here := FieldPath(p, fields[0].name);
      LeavesUnder(fields[0].tree, here);
      FieldLeavesUnder(fields[1..], p);
      FieldPathUnder(p, fields[0].name);
      forall leaf <- FieldLeaves(fields, p)
        ensures Under(p, leaf.0) && exists i :: 0 <= i < |fields| && Under(FieldPath(p, fields[i].name), leaf.0)
      {
        if leaf in LeafList(fields[0].tree, here) {
          UnderTransitive(p, here, leaf.0);
        } else {
          var i :| 0 <= i < |fields| - 1 && Under(FieldPath(p, fields[1..][i].name), leaf.0);
          assert fields[1..][i] == fields[i + 1];
        }
      }
    }
  }

  lemma {:induction false} ItemLeavesUnder(items: seq<Tree>, p: string, first: nat)
    requires forall i :: 0 <= i < |items| ==> WellNamed(items[i])
    ensures AllUnder(ItemLeaves(items, p, first), p)
    ensures forall leaf <- ItemLeaves(items, p, first) ::
              exists i: nat :: first <= i < first + |items| && Under(ItemPath(p, i), leaf.0)
    decreases items, 1
  {
    if items != [] {
      var here := ItemPath(p, first);
      LeavesUnder(items[0], here);
      ItemLeavesUnder(items[1..], p, first + 1);
      ItemPathUnder(p, first);
      forall leaf <- ItemLeaves(items, p, first)
        ensures Under(p, leaf.0) && exists i: nat :: first <= i < first + |items| && Under(ItemPath(p, i), leaf.0)
      {
        if leaf in LeafList(items[0], here) {
          UnderTransitive(p, here, leaf.0);
        }
      }
    }
  }

  lemma NextChar(base: string, a: string, b: string, q: string)
    requires |a| < |b| && base + b <= q
    ensures q[|base + a|] == b[|a|] && b[|a|] in b
  {
  }

  /** A path below the field `a` does not continue with a longer name. */
  lemma NoLongerField(base: string, a: string, b: string, q: string)
    requires IsIdentifier(a) && IsIdentifier(b) && Under(base + a, q) && base + b <= q
    ensures |b| <= |a|
  {
    if |a| < |b| {
      NextChar(base, a, b, q);
    }
  }

  /** A path lies below at most one field of a record. */
  lemma OneField(p: string, a: string, b: string, q: string)
    requires IsIdentifier(a) && IsIdentifier(b) && Under(FieldPath(p, a), q) && Under(FieldPath(p, b), q)
    ensures a == b
  {
    var base := if p == "" then "" else p + ".";
    assert FieldPath(p, a) == base + a && FieldPath(p, b) == base + b;
    NoLongerField(base, a, b, q);
    NoLongerField(base, b, a, q);
    assert q[..|base + a|] == base + a && q[..|base + b|] == base + b;
    assert (base + a)[|base|..] == a && (base + b)[|base|..] == b;
  }

  /** A path below the item `a` does not continue with a longer numeral. */
  lemma NoLongerItem(base: string, a: string, b: string, q: string)
    requires (forall c <- b :: IsDigit(c)) && base + a + "]" <= q && base + b + "]" <= q
    ensures |b| <= |a|
  {
    if |a| < |b| {
      NextChar(base, a, b, q);
    }
  }

  /** A path lies below at most one item of a tuple. */
  lemma OneItem(p: string, i: nat, j: nat, q: string)
    requires Under(ItemPath(p, i), q) && Under(ItemPath(p, j), q)
    ensures i == j
  {
    var base, a, b := p + "[", Decimal(i), Decimal(j);
    DecimalDigits(i);
    DecimalDigits(j);
    NoLongerItem(base, a, b, q);
    NoLongerItem(base, b, a, q);
    assert q[..|base + a|] == base + a && q[..|base + b|] == base + b;
    assert (base + a)[|base|..] == a && (base + b)[|base|..] == b;
    DecimalInjective(i, j);
  }

  ghost predicate DistinctPaths(leaves: seq<(string, Scalar)>) {
    forall i, j :: 0 <= i < j < |leaves| ==> leaves[i].0 != leaves[j].0
  }

  /** No two leaves of a tree are flattened to the same path. */
  lemma {:induction false} PathsDistinct(t: Tree, p: string)
    requires WellNamed(t)
    ensures DistinctPaths(LeafList(t, p))
    decreases t, 0
  {
    if p !in EXCLUDED {
      match t
      case Leaf(_) =>
      case Record(fields) => FieldPathsDistinct(fields, p);
      case Tuple(items) => ItemPathsDistinct(items, p, 0);
    }
  }

  lemma {:induction false} FieldPathsDistinct(fields: seq<Field>, p: string)
    requires WellNamedFields(fields)
    ensures DistinctPaths(FieldLeaves(fields, p))
    decreases fields, 1
  {
    if fields != [] {
      var here := FieldPath(p, fields[0].name);
      var first, rest := LeafList(fields[0].tree, here), FieldLeaves(fields[1..], p);
      PathsDistinct(fields[0].tree, here);
      FieldPathsDistinct(fields[1..], p);
      LeavesUnder(fields[0].tree, here);
      FieldLeavesUnder(fields[1..], p);
      forall x, y | x in first && y in rest
        ensures x.0 != y.0
      {
        var i :| 0 <= i < |fields[1..]| && Under(FieldPath(p, fields[1..][i].name), y.0);
        if x.0 == y.0 {
          OneField(p, fields[0].name, fields[1..][i].name, x.0);
        }
      }
      DistinctConcat(first, rest);
    }
  }

  lemma {:induction false} ItemPathsDistinct(items: seq<Tree>, p: string, n: nat)
    requires forall i :: 0 <= i < |items| ==> WellNamed(items[i])
    ensures DistinctPaths(ItemLeaves(items, p, n))
    decreases items, 1
  {
    if items != [] {
      var here := ItemPath(p, n);
      var first, rest := LeafList(items[0], here), ItemLeaves(items[1..], p, n + 1);
      PathsDistinct(items[0], here);
      ItemPathsDistinct(items[1..], p, n + 1);
      LeavesUnder(items[0], here);
      ItemLeavesUnder(items[1..], p, n + 1);
      forall x, y | x in first && y in rest
        ensures x.0 != y.0
      {
        var i: nat :| n + 1 <= i < n + 1 + |items[1..]| && Under(ItemPath(p, i), y.0);
        if x.0 == y.0 {
          OneItem(p, n, i, x.0);
        }
      }
      DistinctConcat(first, rest);
    }
  }

  lemma DistinctConcat(a: seq<(string, Scalar)>, b: seq<(string, Scalar)>)
    requires DistinctPaths(a) && DistinctPaths(b) && forall x, y :: x in a && y in b ==> x.0 != y.0
    ensures DistinctPaths(a + b)
  {
    forall i, j | 0 <= i < j < |a + b|
      ensures (a + b)[i].0 != (a + b)[j].0
    {
      assert i < |a| ==> (a + b)[i] in a;
      assert j >= |a| ==> (a + b)[j] in b;
    }
  }

  /** With distinct paths the dictionary keeps every leaf and nothing else. */
  lemma {:induction false} AssignKeepsAll(leaves: seq<(string, Scalar)>, before: LeafMap)
    requires DistinctPaths(leaves)
    ensures forall leaf <- leaves :: leaf.0 in Assign(leaves, before) && Assign(leaves, before)[leaf.0] == leaf.1
    ensures forall p :: (forall leaf <- leaves :: leaf.0 != p) ==>
              (p in Assign(leaves, before) <==> p in before) && (p in before ==> Assign(leaves, before)[p] == before[p])
  {
    if leaves != [] {
      var rest := leaves[1..];
      AssignKeepsAll(rest, before[leaves[0].0 := leaves[0].1]);
      forall leaf <- rest
        ensures leaf.0 != leaves[0].0
      {
        var i :| 0 <= i < |rest| && rest[i] == leaf;
        assert leaves[i + 1] == leaf;
      }
      assert leaves == [leaves[0]] + rest;
    }
  }

  /** Flattening a decision loses no leaf: path and value pairs of the dictionary are exactly the leaves. */
  lemma FlatteningIsExact(d: NarrativeDecision)
    requires WellNamed(d.tree)
    ensures DistinctPaths(LeafList(d.tree, ""))
    ensures forall p, v :: (p in LeavesOf(d) && LeavesOf(d)[p] == v) <==> (p, v) in LeafList(d.tree, "")
  {
    var leaves := LeafList(d.tree, "");
    PathsDistinct(d.tree, "");
    AssignKeepsAll(leaves, map[]);
    forall p, v
      ensures (p in LeavesOf(d) && LeavesOf(d)[p] == v) <==> (p, v) in leaves
    {
      if (p, v) in leaves {
        assert (p, v).0 == p && (p, v).1 == v;
      }
      if p in LeavesOf(d) {
        assert exists leaf <- leaves :: leaf.0 == p;
      }
    }
  }
}
