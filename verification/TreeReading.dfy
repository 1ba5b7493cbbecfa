/** Reading a decision tree by attribute names and indices, which finds exactly the leaves that flattening lists. */
module TreeReading {
  import opened Wrappers
  import opened Paths
  import opened Decisions
  import opened Leaves

  /** One step into a tree: an attribute of a record or an item of a tuple. */
  datatype Step = Attr(name: string) | Nth(index: nat)

  function Lookup(fields: seq<Field>, name: string): Option<Tree> {
    if fields == [] then None
    else if fields[0].name == name then Some(fields[0].tree)
    else Lookup(fields[1..], name)
  }

  function Select(t: Tree, steps: seq<Step>): Option<Tree>
    decreases |steps|
  {
    if steps == [] then Some(t)
    else
      match Child(t, steps[0])
      case Some(child) => Select(child, steps[1..])
      case None => None
  }

  function Child(t: Tree, step: Step): Option<Tree> {
    match (t, step)
    case (Record(fields), Attr(name)) => Lookup(fields, name)
    case (Tuple(items), Nth(i)) => if i < |items| then Some(items[i]) else None
    case _ => None
  }

  function StepPath(path: string, step: Step): string {
    match step
    case Attr(name) => FieldPath(path, name)
    case Nth(i) => ItemPath(path, i)
  }

  /** The text of the path that takes these steps from `path`. */
  function PathText(path: string, steps: seq<Step>): string
    decreases |steps|
  {
    if steps == [] then path else PathText(StepPath(path, steps[0]), steps[1..])
  }

  predicate Proper(steps: seq<Step>) {
    forall step <- steps :: step.Attr? ==> IsIdentifier(step.name)
  }

  /** No part of the path is left out by flattening. */
  predicate Kept(path: string, steps: seq<Step>)
    decreases |steps|
  {
    path !in EXCLUDED && (steps != [] ==> Kept(StepPath(path, steps[0]), steps[1..]))
  }

  // ----- Different steps give different texts -----

  lemma StepGoesBelow(p: string, step: Step)
    requires step.Attr? ==> IsIdentifier(step.name)
    ensures StepPath(p, step) != "" && |StepPath(p, step)| > |p| && Under(p, StepPath(p, step))
  {
    match step
    case Attr(name) => FieldPathUnder(p, name);
    case Nth(i) => ItemPathUnder(p, i);
  }

  lemma {:induction false} PathGoesBelow(p: string, steps: seq<Step>)
    requires Proper(steps)
    ensures Under(p, PathText(p, steps)) && |PathText(p, steps)| >= |p| + |steps|
    decreases |steps|
  {
    if steps != [] {
      assert steps[0] in steps;
      StepGoesBelow(p, steps[0]);
      PathGoesBelow(StepPath(p, steps[0]), steps[1..]);
      UnderTransitive(p, StepPath(p, steps[0]), PathText(p, steps));
    }
  }

  /** A path does not go on with an attribute and with an index. */
  lemma NotBoth(p: string, name: string, i: nat, q: string)
    requires IsIdentifier(name) && Under(FieldPath(p, name), q)
    ensures !Under(ItemPath(p, i), q)
  {
    FieldPathUnder(p, name);
    if p == "" {
      assert q[0] == FieldPath(p, name)[0] == name[0];
      assert ItemPath(p, i)[0] == '[';
    } else {
      assert FieldPath(p, name)[|p|] == '.' == q[|p|];
      assert ItemPath(p, i)[|p|] == '[';
    }
  }

  lemma OneStep(p: string, a: Step, b: Step, q: string)
    requires (a.Attr? ==> IsIdentifier(a.name)) && (b.Attr? ==> IsIdentifier(b.name))
    requires Under(StepPath(p, a), q) && Under(StepPath(p, b), q)
    ensures a == b
  {
    match (a, b)
    case (Attr(m), Attr(n)) => OneField(p, m, n, q);
    case (Nth(i), Nth(j)) => OneItem(p, i, j, q);
    case (Attr(m), Nth(j)) => NotBoth(p, m, j, q);
    case (Nth(i), Attr(n)) => NotBoth(p, n, i, q);
  }

  lemma {:induction false} PathTextInjective(p: string, a: seq<Step>, b: seq<Step>)
    requires Proper(a) && Proper(b) && PathText(p, a) == PathText(p, b)
    ensures a == b
    decreases |a|
  {
    PathGoesBelow(p, a);
    PathGoesBelow(p, b);
    if a != [] && b != [] {
      var q := PathText(p, a);
      assert a[0] in a && b[0] in b;
      PathGoesBelow(StepPath(p, a[0]), a[1..]);
      PathGoesBelow(StepPath(p, b[0]), b[1..]);
      OneStep(p, a[0], b[0], q);
      PathTextInjective(StepPath(p, a[0]), a[1..], b[1..]);
      assert a == [a[0]] + a[1..] && b == [b[0]] + b[1..];
    }
  }

  // ----- What is read is a leaf -----

  lemma {:induction false} FoundField(fields: seq<Field>, p: string, name: string, leaf: (string, Scalar))
    requires Lookup(fields, name).Some? && leaf in LeafList(Lookup(fields, name).value, FieldPath(p, name))
    ensures leaf in FieldLeaves(fields, p)
  {
    if fields[0].name != name {
      FoundField(fields[1..], p, name, leaf);
    }
  }

  lemma {:induction false} FoundItem(items: seq<Tree>, p: string, first: nat, i: nat, leaf: (string, Scalar))
    requires i < |items| && leaf in LeafList(items[i], ItemPath(p, first + i))
    ensures leaf in ItemLeaves(items, p, first)
  {
    if i > 0 {
      assert items[1..][i - 1] == items[i];
      FoundItem(items[1..], p, first + 1, i - 1, leaf);
    }
  }

  lemma {:induction false} ReadIsLeaf(t: Tree, p: string, steps: seq<Step>, v: Scalar)
    requires Kept(p, steps) && Select(t, steps) == Some(Leaf(v))
    ensures (PathText(p, steps), v) in LeafList(t, p)
    decreases |steps|
  {
    if steps != [] {
      ReadIsLeaf(Child(t, steps[0]).value, StepPath(p, steps[0]), steps[1..], v);
      match (t, steps[0])
      case (Record(fields), Attr(name)) => FoundField(fields, p, name, (PathText(p, steps), v));
      case (Tuple(items), Nth(i)) => FoundItem(items, p, 0, i, (PathText(p, steps), v));
      case _ => assert false;
    }
  }

  // ----- Every leaf can be read -----

  /** These steps lead from `t` at `p` to the leaf. */
  ghost predicate LeadsTo(t: Tree, p: string, steps: seq<Step>, leaf: (string, Scalar)) {
    Proper(steps) && Kept(p, steps) && PathText(p, steps) == leaf.0 && Select(t, steps) == Some(Leaf(leaf.1))
  }

  lemma {:induction false} LookupAt(fields: seq<Field>, k: nat)
    requires k < |fields| && forall j :: 0 <= j < k ==> fields[j].name != fields[k].name
    ensures Lookup(fields, fields[k].name) == Some(fields[k].tree)
  {
    if k > 0 {
      assert fields[1..][k - 1] == fields[k];
      LookupAt(fields[1..], k - 1);
    }
  }

  lemma StepThenSteps(t: Tree, p: string, step: Step, steps: seq<Step>, leaf: (string, Scalar))
    requires p !in EXCLUDED && (step.Attr? ==> IsIdentifier(step.name)) && Child(t, step).Some?
    requires LeadsTo(Child(t, step).value, StepPath(p, step), steps, leaf)
    ensures LeadsTo(t, p, [step] + steps, leaf)
  {
    assert ([step] + steps)[1..] == steps;
  }

  lemma {:induction false} LeafIsRead(t: Tree, p: string, leaf: (string, Scalar)) returns (steps: seq<Step>)
    requires WellNamed(t) && leaf in LeafList(t, p)
    ensures LeadsTo(t, p, steps, leaf)
    decreases t, 0
  {
    match t
    case Leaf(_) => steps := [];
    case Record(fields) => steps := FieldIsRead(fields, p, leaf, fields, 0);
    case Tuple(items) => steps := ItemIsRead(items, p, leaf, items, 0);
  }

  /** The leaf comes from one of the fields from `k` on. */
  lemma {:induction false} FieldIsRead(all: seq<Field>, p: string, leaf: (string, Scalar), fields: seq<Field>, k: nat)
    returns (steps: seq<Step>)
    requires WellNamedFields(all) && p !in EXCLUDED && k <= |all| && fields == all[k..]
    requires leaf in FieldLeaves(fields, p)
    ensures LeadsTo(Record(all), p, steps, leaf)
    decreases fields, 1
  {
    var here := all[k];
    assert fields[0] == here;
    if leaf in LeafList(here.tree, FieldPath(p, here.name)) {
      var rest := LeafIsRead(here.tree, FieldPath(p, here.name), leaf);
      LookupAt(all, k);
      StepThenSteps(Record(all), p, Attr(here.name), rest, leaf);
      steps := [Attr(here.name)] + rest;
    } else {
      steps := FieldIsRead(all, p, leaf, fields[1..], k + 1);
    }
  }

  lemma {:induction false} ItemIsRead(all: seq<Tree>, p: string, leaf: (string, Scalar), items: seq<Tree>, k: nat)
    returns (steps: seq<Step>)
    requires (forall i :: 0 <= i < |all| ==> WellNamed(all[i])) && p !in EXCLUDED && k <= |all| && items == all[k..]
    requires leaf in ItemLeaves(items, p, k)
    ensures LeadsTo(Tuple(all), p, steps, leaf)
    decreases items, 1
  {
    assert items[0] == all[k];
    if leaf in LeafList(all[k], ItemPath(p, k)) {
      var rest := LeafIsRead(all[k], ItemPath(p, k), leaf);
      StepThenSteps(Tuple(all), p, Nth(k), rest, leaf);
      steps := [Nth(k)] + rest;
    } else {
      steps := ItemIsRead(all, p, leaf, items[1..], k + 1);
    }
  }

  /** Reading a path of a decision finds a scalar exactly if flattening lists that scalar under the path's text. */
  lemma ReadIffListed(d: NarrativeDecision, steps: seq<Step>, v: Scalar)
    requires WellNamed(d.tree) && Proper(steps) && Kept("", steps)
    ensures Select(d.tree, steps) == Some(Leaf(v)) <==>
            PathText("", steps) in LeavesOf(d) && LeavesOf(d)[PathText("", steps)] == v
  {
    FlatteningIsExact(d);
    var leaf := (PathText("", steps), v);
    if Select(d.tree, steps) == Some(Leaf(v)) {
      ReadIsLeaf(d.tree, "", steps, v);
    }
    if leaf in LeafList(d.tree, "") {
      var found := LeafIsRead(d.tree, "", leaf);
      PathTextInjective("", found, steps);
    }
  }
}
