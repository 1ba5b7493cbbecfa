/** Python's stable `sorted(values, key=...)`, and why sorting by a distinguishing key is canonical. */
module Sorting {
  import opened Text

  function Sort<T>(xs: seq<T>, key: T -> Key): seq<T> {
    if xs == [] then [] else Insert(xs[0], Sort(xs[1..], key), key)
  }

  /** Puts `x`, which came earlier, before the first element whose key is not smaller. */
  function Insert<T>(x: T, xs: seq<T>, key: T -> Key): seq<T> {
    if xs == [] || KeyLe(key(x), key(xs[0])) then [x] + xs
    else [xs[0]] + Insert(x, xs[1..], key)
  }

  predicate Sorted<T>(xs: seq<T>, key: T -> Key) {
    forall i :: 0 <= i < |xs| - 1 ==> KeyLe(key(xs[i]), key(xs[i + 1]))
  }

  /** No two different elements share a key. */
  ghost predicate Distinguishes<T(!new)>(key: T -> Key, xs: seq<T>) {
    forall x, y :: x in xs && y in xs && key(x) == key(y) ==> x == y
  }

  lemma InsertMembers<T>(x: T, xs: seq<T>, key: T -> Key)
    ensures multiset(Insert(x, xs, key)) == multiset(xs) + multiset{x}
    ensures Insert(x, xs, key)[0] in [x] + xs
  {
    if xs != [] && !KeyLe(key(x), key(xs[0])) {
      InsertMembers(x, xs[1..], key);
      assert xs == [xs[0]] + xs[1..];
    }
  }

  lemma InsertSorted<T>(x: T, xs: seq<T>, key: T -> Key)
    requires Sorted(xs, key)
    ensures Sorted(Insert(x, xs, key), key)
  {
    if xs != [] && !KeyLe(key(x), key(xs[0])) {
      InsertSorted(x, xs[1..], key);
      KeyLeTotal(key(x), key(xs[0]));
      var rest := Insert(x, xs[1..], key);
      assert rest[0] == x || rest[0] == xs[1];
    }
  }

  /** The result holds the same values with the same multiplicities, in key order. */
  lemma {:induction false} SortIsOrderedPermutation<T>(xs: seq<T>, key: T -> Key)
    ensures multiset(Sort(xs, key)) == multiset(xs) && Sorted(Sort(xs, key), key)
  {
    if xs != [] {
      SortIsOrderedPermutation(xs[1..], key);
      InsertMembers(xs[0], Sort(xs[1..], key), key);
      InsertSorted(xs[0], Sort(xs[1..], key), key);
      assert xs == [xs[0]] + xs[1..];
    }
  }

  lemma {:induction false} FirstIsLeast<T>(xs: seq<T>, key: T -> Key, i: nat)
    requires Sorted(xs, key) && i < |xs|
    ensures KeyLe(key(xs[0]), key(xs[i]))
  {
    KeyLeReflexive(key(xs[0]));
    if i > 0 {
      FirstIsLeast(xs, key, i - 1);
      assert KeyLe(key(xs[i - 1]), key(xs[i]));
      KeyLeTransitive(key(xs[0]), key(xs[i - 1]), key(xs[i]));
    }
  }

  lemma SameFirst<T(!new)>(a: seq<T>, b: seq<T>, key: T -> Key)
    requires multiset(a) == multiset(b) && Sorted(a, key) && Sorted(b, key) && Distinguishes(key, a) && a != []
    ensures b != [] && a[0] == b[0]
  {
    assert a[0] in multiset(a);
    assert a[0] in multiset(b);
    assert b[0] in multiset(a);
    var i: nat :| i < |b| && b[i] == a[0];
    var j: nat :| j < |a| && a[j] == b[0];
    FirstIsLeast(b, key, i);
    FirstIsLeast(a, key, j);
    KeyLeAntisymmetric(key(a[0]), key(b[0]));
  }

  lemma SameRest<T>(a: seq<T>, b: seq<T>)
    requires a != [] && b != [] && a[0] == b[0] && multiset(a) == multiset(b)
    ensures multiset(a[1..]) == multiset(b[1..])
  {
    assert a == [a[0]] + a[1..] && b == [b[0]] + b[1..];
    assert multiset(a[1..]) == multiset(a) - multiset{a[0]};
    assert multiset(b[1..]) == multiset(b) - multiset{b[0]};
  }

  /** Two sorted arrangements of the same values coincide when the key tells the values apart. */
  lemma {:induction false} SortedUnique<T(!new)>(a: seq<T>, b: seq<T>, key: T -> Key)
    requires multiset(a) == multiset(b) && Sorted(a, key) && Sorted(b, key) && Distinguishes(key, a)
    ensures a == b
    decreases |a|
  {
    if a == [] {
      assert |multiset(b)| == 0;
    } else {
      SameFirst(a, b, key);
      SameRest(a, b);
      SortedUnique(a[1..], b[1..], key);
      assert a == [a[0]] + a[1..] && b == [b[0]] + b[1..];
    }
  }

  /** Sorting forgets the order in which the values were given. */
  lemma SortForgetsOrder<T(!new)>(a: seq<T>, b: seq<T>, key: T -> Key)
    requires multiset(a) == multiset(b) && Distinguishes(key, a)
    ensures Sort(a, key) == Sort(b, key)
  {
    SortIsOrderedPermutation(a, key);
    SortIsOrderedPermutation(b, key);
    forall x | x in Sort(a, key)
      ensures x in a
    {
      assert x in multiset(Sort(a, key));
    }
    SortedUnique(Sort(a, key), Sort(b, key), key);
  }

  /** Sorted input is left alone, even where keys repeat. */
  lemma {:induction false} SortSorted<T>(xs: seq<T>, key: T -> Key)
    requires Sorted(xs, key)
    ensures Sort(xs, key) == xs
  {
    if xs != [] {
      SortSorted(xs[1..], key);
      if |xs| > 1 {
        assert KeyLe(key(xs[0]), key(xs[1]));
      }
      assert xs == [xs[0]] + xs[1..];
    }
  }

  lemma SortMembers<T>(xs: seq<T>, key: T -> Key, x: T)
    ensures x in Sort(xs, key) <==> x in xs
    ensures |Sort(xs, key)| == |xs|
  {
    SortIsOrderedPermutation(xs, key);
    assert x in multiset(xs) <==> x in multiset(Sort(xs, key));
    assert |multiset(xs)| == |xs| && |multiset(Sort(xs, key))| == |Sort(xs, key)|;
  }

  /** No two positions give the same value of `f`. */
  predicate DistinctBy<T, K(==)>(xs: seq<T>, f: T -> K) {
    forall i, j :: 0 <= i < j < |xs| ==> f(xs[i]) != f(xs[j])
  }

  lemma OccursOnce<T>(xs: seq<T>, i: nat)
    requires i < |xs| && forall j :: 0 <= j < |xs| && j != i ==> xs[j] != xs[i]
    ensures multiset(xs)[xs[i]] == 1
  {
    assert xs == xs[..i] + [xs[i]] + xs[i + 1..];
    assert xs[i] !in xs[..i] && xs[i] !in xs[i + 1..];
  }

  lemma OccursTwice<T>(xs: seq<T>, i: nat, j: nat)
    requires i < j < |xs| && xs[i] == xs[j]
    ensures multiset(xs)[xs[i]] >= 2
  {
    assert xs == xs[..j] + [xs[j]] + xs[j + 1..];
    assert xs[i] in xs[..j];
  }

  lemma DistinctByPermutation<T, K>(a: seq<T>, b: seq<T>, f: T -> K)
    requires multiset(a) == multiset(b) && DistinctBy(a, f)
    ensures DistinctBy(b, f)
  {
    forall i, j | 0 <= i < j < |b|
      ensures f(b[i]) != f(b[j])
    {
      assert b[i] in multiset(a) && b[j] in multiset(a);
      var k: nat :| k < |a| && a[k] == b[i];
      var m: nat :| m < |a| && a[m] == b[j];
      if k == m {
        OccursTwice(b, i, j);
        OccursOnce(a, k);
      }
    }
  }

  lemma SameLength<T>(a: seq<T>, b: seq<T>)
    requires multiset(a) == multiset(b)
    ensures |a| == |b|
  {
    assert |multiset(a)| == |a| && |multiset(b)| == |b|;
  }
}
