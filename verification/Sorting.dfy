/** Sorted copies and their order statistics. */
module Sorting {
  predicate IsSorted(s: seq<int>) { forall i, j :: 0 <= i <= j < |s| ==> s[i] <= s[j] }

  function Insert(x: int, t: seq<int>): (r: seq<int>)
    ensures multiset(r) == multiset(t) + multiset{x} && |r| == |t| + 1
  {
    if t == [] || x <= t[0] then
      assert [x] + t == [x] + t;
      [x] + t
    else
      assert t == [t[0]] + t[1..];
      [t[0]] + Insert(x, t[1..])
  }

  function Sort(s: seq<int>): (r: seq<int>)
    ensures multiset(r) == multiset(s) && |r| == |s|
  {
    if s == [] then []
    else
      assert s == s[..|s| - 1] + [s[|s| - 1]];
      Insert(s[|s| - 1], Sort(s[..|s| - 1]))
  }

  lemma {:induction false} InsertSorted(x: int, t: seq<int>)
    requires IsSorted(t)
    ensures IsSorted(Insert(x, t))
    ensures t != [] ==> Insert(x, t)[0] == if x <= t[0] then x else t[0]
  {
    if t != [] && x > t[0] { InsertSorted(x, t[1..]); }
  }

  lemma {:induction false} SortSorts(s: seq<int>)
    ensures IsSorted(Sort(s))
  {
    if s != [] {
      SortSorts(s[..|s| - 1]);
      InsertSorted(s[|s| - 1], Sort(s[..|s| - 1]));
    }
  }

  lemma SameHead(a: seq<int>, b: seq<int>)
    requires IsSorted(a) && IsSorted(b) && multiset(a) == multiset(b) && a != []
    ensures b != [] && a[0] == b[0]
  {
    assert a[0] in multiset(a);
    assert a[0] in multiset(b);
    assert b[0] in multiset(b);
    assert b[0] in multiset(a);
  }

  lemma SameTail(a: seq<int>, b: seq<int>)
    requires a != [] && b != [] && a[0] == b[0] && multiset(a) == multiset(b)
    ensures multiset(a[1..]) == multiset(b[1..])
  {
    assert a == [a[0]] + a[1..] && b == [b[0]] + b[1..];
    assert multiset(a) == multiset{a[0]} + multiset(a[1..]);
    assert multiset(b) == multiset{a[0]} + multiset(b[1..]);
    assert multiset(a[1..]) == multiset(a) - multiset{a[0]};
    assert multiset(b[1..]) == multiset(b) - multiset{a[0]};
  }

  /** A multiset has one sorted listing. */
  lemma {:induction false} SortedUnique(a: seq<int>, b: seq<int>)
    requires IsSorted(a) && IsSorted(b) && multiset(a) == multiset(b)
    ensures a == b
    decreases |a|
  {
    if a == [] {
      assert |b| == |multiset(b)| == |multiset(a)| == 0;
    } else {
      SameHead(a, b);
      SameTail(a, b);
      SortedUnique(a[1..], b[1..]);
      assert a == [a[0]] + a[1..] && b == [b[0]] + b[1..];
    }
  }

  lemma SortPermuted(a: seq<int>, b: seq<int>)
    requires multiset(a) == multiset(b)
    ensures Sort(a) == Sort(b)
  {
    SortSorts(a);
    SortSorts(b);
    SortedUnique(Sort(a), Sort(b));
  }

  /** An insertion at or before d shifts the part of a sorted listing from d on by one place. */
  lemma {:induction false} InsertBefore(x: int, t: seq<int>, d: nat)
    requires IsSorted(t) && d < |t| && x <= t[d]
    ensures Insert(x, t)[d + 1..] == t[d..]
    decreases d
  {
    if x > t[0] {
      InsertBefore(x, t[1..], d - 1);
      assert Insert(x, t)[d + 1..] == Insert(x, t[1..])[d..];
      assert t[d..] == t[1..][d - 1..];
    }
  }

  /** An insertion after d leaves everything up to d in place. */
  lemma {:induction false} InsertAfter(x: int, t: seq<int>, d: nat)
    requires IsSorted(t) && d < |t| && x > t[d]
    ensures Insert(x, t)[d + 1..] == Insert(x, t[d + 1..])
    decreases d
  {
    assert x > t[0];
    if d == 0 {
      assert Insert(x, t)[1..] == Insert(x, t[1..]);
    } else {
      InsertAfter(x, t[1..], d - 1);
      assert Insert(x, t)[d + 1..] == Insert(x, t[1..])[d..];
      assert t[d + 1..] == t[1..][d..];
    }
  }
}
