/** The difference of two leaf maps as a sorted list of changes, and what that list means. */
module Diffs {
  import opened Text
  import opened Decisions
  import opened Leaves

  datatype Change = Change(path: string, oldValue: Scalar, newValue: Scalar, oldPresent: bool, newPresent: bool)

  // ----- Sets of paths in order -----

  ghost predicate IsLeast(p: string, keys: set<string>) {
    p in keys && forall q <- keys :: StrLe(p, q)
  }

  lemma LeastExists(keys: set<string>)
    requires keys != {}
    ensures exists p :: IsLeast(p, keys)
  {
    var k :| k in keys;
    if keys == {k} {
      StrLeReflexive(k);
      assert IsLeast(k, keys);
    } else {
      LeastExists(keys - {k});
      var p :| IsLeast(p, keys - {k});
      StrLeTotal(p, k);
      StrLeReflexive(k);
      if StrLe(p, k) {
        assert IsLeast(p, keys);
      } else {
        forall q <- keys
          ensures StrLe(k, q)
        {
          if q != k {
            StrLeTransitive(k, p, q);
          }
        }
        assert IsLeast(k, keys);
      }
    }
  }

  lemma LeastUnique(keys: set<string>)
    requires keys != {}
    ensures exists p :: p in keys && forall q <- keys :: StrLe(p, q)
    ensures forall p, r :: p in keys && r in keys && StrLe(p, r) && StrLe(r, p) ==> p == r
  {
    LeastExists(keys);
    forall p, r | p in keys && r in keys && StrLe(p, r) && StrLe(r, p)
      ensures p == r
    {
      StrLeAntisymmetric(p, r);
    }
  }

  /** `sorted(keys)`. */
  function SortedPaths(keys: set<string>): seq<string> {
    if keys == {} then []
    else
      LeastUnique(keys);
      var least :| least in keys && forall q <- keys :: StrLe(least, q);
      assert IsLeast(least, keys);
      [least] + SortedPaths(keys - {least})
  }

  ghost predicate Increasing(paths: seq<string>) {
    forall i, j :: 0 <= i < j < |paths| ==> StrLe(paths[i], paths[j]) && paths[i] != paths[j]
  }

  lemma IncreasingFrom(first: string, rest: seq<string>)
    requires Increasing(rest) && forall p <- rest :: StrLe(first, p) && first != p
    ensures Increasing([first] + rest)
  {
  }

  lemma {:induction false} SortedPathsListsAll(keys: set<string>)
    ensures forall p :: p in SortedPaths(keys) <==> p in keys
    ensures Increasing(SortedPaths(keys))
  {
    if keys != {} {
      var least, rest := SortedPaths(keys)[0], SortedPaths(keys)[1..];
      LeastUnique(keys);
      assert IsLeast(least, keys) && rest == SortedPaths(keys - {least});
      SortedPathsListsAll(keys - {least});
      IncreasingFrom(least, rest);
      assert SortedPaths(keys) == [least] + rest;
    }
  }

  lemma {:induction false} IncreasingUnique(a: seq<string>, b: seq<string>)
    requires Increasing(a) && Increasing(b) && forall p :: p in a <==> p in b
    ensures a == b
    decreases |a|
  {
    assert a != [] ==> a[0] in b;
    assert b != [] ==> b[0] in a;
    if a != [] {
      StrLeReflexive(a[0]);
      StrLeReflexive(b[0]);
      StrLeAntisymmetric(a[0], b[0]);
      assert a == [a[0]] + a[1..] && b == [b[0]] + b[1..];
      forall p
        ensures p in a[1..] <==> p in b[1..]
      {
        assert p in a <==> p in b;
      }
      IncreasingUnique(a[1..], b[1..]);
    }
  }

  // ----- The difference -----

  predicate Differs(path: string, before: LeafMap, after: LeafMap) {
    if path in before && path in after then !before[path].SameAs(after[path])
    else path in before || path in after
  }

  function ChangeAt(path: string, before: LeafMap, after: LeafMap): Change {
    Change(path,
           if path in before then before[path] else Null,
           if path in after then after[path] else Null,
           path in before, path in after)
  }

  function ChangesAlong(paths: seq<string>, before: LeafMap, after: LeafMap): seq<Change> {
    if paths == [] then []
    else
      (if Differs(paths[0], before, after) then [ChangeAt(paths[0], before, after)] else [])
      + ChangesAlong(paths[1..], before, after)
  }

  function Diff(before: LeafMap, after: LeafMap): seq<Change> {
    ChangesAlong(SortedPaths(before.Keys + after.Keys), before, after)
  }

  function PathsOf(changes: seq<Change>): (paths: seq<string>)
    ensures |paths| == |changes| && forall i :: 0 <= i < |paths| ==> paths[i] == changes[i].path
  {
    seq(|changes|, i requires 0 <= i < |changes| => changes[i].path)
  }

  /** The list names every leaf that differs, once, in order, with both of its values, and nothing else. */
  ghost predicate Exact(changes: seq<Change>, before: LeafMap, after: LeafMap) {
    && Increasing(PathsOf(changes))
    && (forall c <- changes :: Differs(c.path, before, after) && c == ChangeAt(c.path, before, after))
    && forall p :: Differs(p, before, after) ==> p in PathsOf(changes)
  }

  ghost predicate ExactAlong(changes: seq<Change>, paths: seq<string>, before: LeafMap, after: LeafMap) {
    && Increasing(PathsOf(changes))
    && (forall c <- changes :: Differs(c.path, before, after) && c == ChangeAt(c.path, before, after))
    && forall p :: p in PathsOf(changes) <==> p in paths && Differs(p, before, after)
  }

  lemma OneMoreExact(first: string, rest: seq<Change>, paths: seq<string>, before: LeafMap, after: LeafMap)
    requires Increasing([first] + paths) && ExactAlong(rest, paths, before, after)
    ensures Differs(first, before, after) ==>
              ExactAlong([ChangeAt(first, before, after)] + rest, [first] + paths, before, after)
    ensures !Differs(first, before, after) ==> ExactAlong(rest, [first] + paths, before, after)
  {
    var all := [first] + paths;
    forall p | p in PathsOf(rest)
      ensures StrLe(first, p) && first != p
    {
      var i :| 0 <= i < |paths| && paths[i] == p;
      assert all[i + 1] == p && all[0] == first;
    }
    if Differs(first, before, after) {
      var changes := [ChangeAt(first, before, after)] + rest;
      assert PathsOf(changes) == [first] + PathsOf(rest);
      IncreasingFrom(first, PathsOf(rest));
    }
  }

  lemma {:induction false} ChangesAlongExact(paths: seq<string>, before: LeafMap, after: LeafMap)
    requires Increasing(paths)
    ensures ExactAlong(ChangesAlong(paths, before, after), paths, before, after)
  {
    if paths != [] {
      var first, rest := paths[0], ChangesAlong(paths[1..], before, after);
      assert paths == [first] + paths[1..];
      ChangesAlongExact(paths[1..], before, after);
      OneMoreExact(first, rest, paths[1..], before, after);
      assert [] + rest == rest;
    }
  }

  /** The computed difference is exact, and no other list is. */
  lemma DiffIsTheExactOne(changes: seq<Change>, before: LeafMap, after: LeafMap)
    ensures Exact(changes, before, after) <==> changes == Diff(before, after)
  {
    var paths := SortedPaths(before.Keys + after.Keys);
    SortedPathsListsAll(before.Keys + after.Keys);
    ChangesAlongExact(paths, before, after);
    var diff := Diff(before, after);
    assert Exact(diff, before, after);
    if Exact(changes, before, after) {
      forall p
        ensures p in PathsOf(changes) <==> p in PathsOf(diff)
      {
        InPathsOf(changes, p);
        InPathsOf(diff, p);
      }
      IncreasingUnique(PathsOf(changes), PathsOf(diff));
      forall i | 0 <= i < |changes|
        ensures changes[i] == diff[i]
      {
        assert PathsOf(changes)[i] == PathsOf(diff)[i];
        assert changes[i] in changes && diff[i] in diff;
      }
    }
  }

  lemma InPathsOf(changes: seq<Change>, p: string)
    ensures p in PathsOf(changes) <==> exists c <- changes :: c.path == p
  {
    if c :| c in changes && c.path == p {
      var i :| 0 <= i < |changes| && changes[i] == c;
      assert PathsOf(changes)[i] == p;
    }
    if p in PathsOf(changes) {
      var i :| 0 <= i < |changes| && PathsOf(changes)[i] == p;
      assert changes[i] in changes;
    }
  }

  // ----- The same changes, as Python compares them -----

  predicate SameChange(c: Change, d: Change) {
    && c.path == d.path && c.oldPresent == d.oldPresent && c.newPresent == d.newPresent
    && c.oldValue.SameAs(d.oldValue) && c.newValue.SameAs(d.newValue)
  }

  predicate SameTypes(c: Change, d: Change) {
    c.oldValue.SameType(d.oldValue) && c.newValue.SameType(d.newValue)
  }

  predicate SameChanges(a: seq<Change>, b: seq<Change>) {
    |a| == |b| && forall i :: 0 <= i < |a| ==> SameChange(a[i], b[i])
  }

  lemma SameChangesPaths(a: seq<Change>, b: seq<Change>)
    requires SameChanges(a, b)
    ensures PathsOf(a) == PathsOf(b)
  {
  }

  /** The change that stands where `d` stands. */
  lemma Counterpart(a: seq<Change>, b: seq<Change>, d: Change) returns (c: Change)
    requires |a| == |b| && d in b && forall i :: 0 <= i < |b| ==> SameChange(a[i], b[i])
    ensures c in a && SameChange(c, d)
  {
    var i :| 0 <= i < |b| && b[i] == d;
    c := a[i];
  }

  /** Being the same is an equivalence, and equality if every value keeps its type. */
  lemma SameChangesEquivalence(a: seq<Change>, b: seq<Change>)
    ensures SameChanges(a, a) && (SameChanges(a, b) ==> SameChanges(b, a))
    ensures forall c :: SameChanges(a, b) && SameChanges(b, c) ==> SameChanges(a, c)
    ensures a == b <==> SameChanges(a, b) && forall i :: 0 <= i < |a| && i < |b| ==> SameTypes(a[i], b[i])
  {
    forall x: Scalar, y: Scalar
      ensures x == y <==> x.SameAs(y) && x.SameType(y)
      ensures x.SameAs(y) <==> y.SameAs(x)
      ensures forall z: Scalar :: x.SameAs(y) && y.SameAs(z) ==> x.SameAs(z)
    {
      SameAsIff(x, y);
    }
  }

  /** Every value in the list has the type of its leaf. */
  predicate LeafTypes(changes: seq<Change>, before: LeafMap, after: LeafMap) {
    forall c <- changes :: SameTypes(c, ChangeAt(c.path, before, after))
  }

  lemma DiffNamesDiffering(before: LeafMap, after: LeafMap)
    ensures forall p :: p in PathsOf(Diff(before, after)) <==> Differs(p, before, after)
    ensures forall i :: 0 <= i < |Diff(before, after)| ==>
              Diff(before, after)[i] == ChangeAt(Diff(before, after)[i].path, before, after)
  {
    var diff := Diff(before, after);
    DiffIsTheExactOne(diff, before, after);
    forall p
      ensures p in PathsOf(diff) <==> Differs(p, before, after)
    {
      InPathsOf(diff, p);
    }
    forall i | 0 <= i < |diff|
      ensures diff[i] == ChangeAt(diff[i].path, before, after)
    {
      assert diff[i] in diff;
    }
  }

  lemma LeafTypesAt(diff: seq<Change>, changes: seq<Change>, before: LeafMap, after: LeafMap)
    requires SameChanges(diff, changes)
    requires forall i :: 0 <= i < |diff| ==> diff[i] == ChangeAt(diff[i].path, before, after)
    ensures LeafTypes(changes, before, after) <==> forall i :: 0 <= i < |diff| ==> SameTypes(diff[i], changes[i])
  {
    forall i | 0 <= i < |diff|
      ensures diff[i] == ChangeAt(changes[i].path, before, after) && changes[i] in changes
    {
      assert SameChange(diff[i], changes[i]);
    }
  }

  /** A list that Python equates with the difference is the difference exactly if its values have the leaves' types. */
  lemma SameAsDiffIff(changes: seq<Change>, before: LeafMap, after: LeafMap)
    requires SameChanges(Diff(before, after), changes)
    ensures changes == Diff(before, after) <==> LeafTypes(changes, before, after)
    ensures forall p :: p in PathsOf(changes) <==> Differs(p, before, after)
  {
    var diff := Diff(before, after);
    DiffNamesDiffering(before, after);
    SameChangesPaths(diff, changes);
    SameChangesEquivalence(diff, changes);
    LeafTypesAt(diff, changes, before, after);
  }

  // ----- Patching -----

  function Apply(c: Change, leaves: LeafMap): LeafMap {
    if c.newPresent then leaves[c.path := c.newValue] else leaves - {c.path}
  }

  function Patch(leaves: LeafMap, changes: seq<Change>): LeafMap
    decreases |changes|
  {
    if changes == [] then leaves else Patch(Apply(changes[0], leaves), changes[1..])
  }

  lemma TailPaths(changes: seq<Change>)
    requires changes != [] && Increasing(PathsOf(changes))
    ensures PathsOf(changes) == [changes[0].path] + PathsOf(changes[1..])
    ensures Increasing(PathsOf(changes[1..])) && changes[0].path !in PathsOf(changes[1..])
  {
    assert PathsOf(changes[1..]) == PathsOf(changes)[1..];
  }

  /** Paths that no change names keep their leaf. */
  lemma {:induction false} PatchElsewhere(leaves: LeafMap, changes: seq<Change>, p: string)
    requires Increasing(PathsOf(changes)) && p !in PathsOf(changes)
    ensures p in Patch(leaves, changes) <==> p in leaves
    ensures p in leaves ==> Patch(leaves, changes)[p] == leaves[p]
    decreases |changes|
  {
    if changes != [] {
      TailPaths(changes);
      PatchElsewhere(Apply(changes[0], leaves), changes[1..], p);
    }
  }

  /** A path that a change names gets that change's new leaf. */
  lemma {:induction false} PatchAt(leaves: LeafMap, changes: seq<Change>, c: Change)
    requires Increasing(PathsOf(changes)) && c in changes
    ensures c.path in Patch(leaves, changes) <==> c.newPresent
    ensures c.newPresent ==> Patch(leaves, changes)[c.path] == c.newValue
    decreases |changes|
  {
    var first, rest := changes[0], changes[1..];
    assert changes == [first] + rest;
    TailPaths(changes);
    if c == first {
      PatchElsewhere(Apply(c, leaves), rest, c.path);
    } else {
      assert c in rest;
      PatchAt(Apply(first, leaves), rest, c);
    }
  }

  ghost predicate SameLeaves(a: LeafMap, b: LeafMap) {
    a.Keys == b.Keys && forall p <- a :: a[p].SameAs(b[p])
  }

  lemma PatchedAt(before: LeafMap, after: LeafMap, p: string)
    ensures var result := Patch(before, Diff(before, after));
            && (p in result <==> p in after)
            && (p in after ==> result[p] == if Differs(p, before, after) then after[p] else before[p])
  {
    var changes := Diff(before, after);
    DiffIsTheExactOne(changes, before, after);
    InPathsOf(changes, p);
    if Differs(p, before, after) {
      PatchAt(before, changes, ChangeAt(p, before, after));
    } else {
      PatchElsewhere(before, changes, p);
    }
  }

  /**
   Patching the old leaves gives the new ones, up to Python equality; they are identical exactly when
   no leaf changed only in type, as from `True` to `1`.
   */
  lemma PatchReachesTheNewLeaves(before: LeafMap, after: LeafMap)
    ensures SameLeaves(Patch(before, Diff(before, after)), after)
    ensures Patch(before, Diff(before, after)) == after <==>
            forall p :: p in before && p in after && before[p].SameAs(after[p]) ==> before[p] == after[p]
  {
    var result := Patch(before, Diff(before, after));
    forall p
      ensures p in result <==> p in after
      ensures p in after ==> result[p] == if Differs(p, before, after) then after[p] else before[p]
    {
      PatchedAt(before, after, p);
    }
    if result == after {
      forall p | p in before && p in after && before[p].SameAs(after[p])
        ensures before[p] == after[p]
      {
        assert result[p] == before[p];
      }
    }
  }

  /** An empty difference means equal leaves, and only that. */
  lemma NoChangesIffSame(before: LeafMap, after: LeafMap)
    ensures Diff(before, after) == [] <==> SameLeaves(before, after)
  {
    DiffIsTheExactOne([], before, after);
    if forall p :: !Differs(p, before, after) {
      forall p
        ensures p in before <==> p in after
      {
        assert !Differs(p, before, after);
      }
      forall p <- before
        ensures before[p].SameAs(after[p])
      {
        assert !Differs(p, before, after);
      }
    }
  }

  function Inverse(c: Change): Change {
    Change(c.path, c.newValue, c.oldValue, c.newPresent, c.oldPresent)
  }

  function InverseAll(changes: seq<Change>): (r: seq<Change>)
    ensures |r| == |changes| && forall i :: 0 <= i < |r| ==> r[i] == Inverse(changes[i])
  {
    seq(|changes|, i requires 0 <= i < |changes| => Inverse(changes[i]))
  }

  /** Swapping the two sides of every change is the difference in the other direction, so a revision can be undone. */
  lemma DiffBackwards(before: LeafMap, after: LeafMap)
    ensures Diff(after, before) == InverseAll(Diff(before, after))
    ensures SameLeaves(Patch(after, InverseAll(Diff(before, after))), before)
  {
    var changes := Diff(before, after);
    var inverse := InverseAll(changes);
    DiffIsTheExactOne(changes, before, after);
    assert PathsOf(inverse) == PathsOf(changes);
    forall p
      ensures Differs(p, after, before) <==> Differs(p, before, after)
    {
    }
    forall c <- inverse
      ensures Differs(c.path, after, before) && c == ChangeAt(c.path, after, before)
    {
      var i :| 0 <= i < |inverse| && inverse[i] == c;
      assert changes[i] in changes;
    }
    DiffIsTheExactOne(inverse, after, before);
    PatchReachesTheNewLeaves(after, before);
  }
}
