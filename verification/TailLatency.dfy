/** The k largest latencies seen, in a bounded min-heap. */
module TailLatency {
  import opened Sorting

  /** Where the k largest of n begin in a sorted listing. */
  function Cut(n: nat, k: nat): nat { if n <= k then 0 else n - k }

  /** What a listing holds from d on. */
  function From(t: seq<int>, d: nat): multiset<int>
    requires d <= |t|
  {
    multiset(t[d..])
  }

  /** The min(k, n) largest of the n values, with multiplicity. */
  function Largest(values: seq<int>, k: nat): multiset<int> {
    From(Sort(values), Cut(|values|, k))
  }

  predicate Least(m: int, heap: multiset<int>) { m in heap && forall x :: x in heap ==> m <= x }

  function Top(heap: multiset<int>): (m: int)
    requires heap != multiset{}
    ensures Least(m, heap)
  {
    TopExists(heap);
    var m :| Least(m, heap);
    m
  }

  lemma Inhabited(heap: multiset<int>)
    ensures heap == multiset{} || exists y :: y in heap
  {
    if forall y :: y !in heap {
      assert heap == multiset{};
    }
  }

  lemma {:induction false} TopExists(heap: multiset<int>)
    requires heap != multiset{}
    ensures exists m :: Least(m, heap)
    decreases |heap|
  {
    Inhabited(heap);
    var y :| y in heap;
    var rest := heap - multiset{y};
    if rest == multiset{} {
      assert heap == multiset{y};
      assert Least(y, heap);
    } else {
      TopExists(rest);
      var m :| Least(m, rest);
      var least := if m <= y then m else y;
      assert forall x :: x in heap ==> x in rest || x == y;
      assert Least(least, heap);
    }
  }

  class Tail {
    /** The contents of the priority_queue. */
    var heap: multiset<int>
    const size: nat
    ghost var pushed: seq<int>

    ghost predicate Valid()
      reads this
    {
      size >= 1 && heap == Largest(pushed, size)
    }

    constructor (k: nat)
      requires k >= 1
      ensures Valid() && pushed == [] && size == k
    {
      heap, size, pushed := multiset{}, k, [];
    }

    /** push. */
    method Push(num: int)
      requires Valid()
      modifies this
      ensures Valid() && pushed == old(pushed) + [num]
    {
      LargestSize(pushed, size);
      LargestAfter(pushed, size, num);
      if |heap| < size {
        heap := heap + multiset{num};
      } else {
        if num > Top(heap) {
          heap := heap - multiset{Top(heap)};
          heap := heap + multiset{num};
        }
      }
      pushed := pushed + [num];
    }

    /** getResult: the k-th largest value, or the smallest when fewer than k were pushed. */
    method GetResult() returns (r: int)
      requires Valid() && pushed != []
      ensures r == Sort(pushed)[Cut(|pushed|, size)]
    {
      LargestSize(pushed, size);
      LargestTop(pushed, size);
      r := Top(heap);
    }

    /** clear. */
    method Clear()
      requires Valid()
      modifies this
      ensures Valid() && pushed == []
    {
      heap := multiset{};
      pushed := [];
    }
  }

  lemma LargestSize(values: seq<int>, k: nat)
    ensures |Largest(values, k)| == if |values| <= k then |values| else k
  {
  }

  lemma TopOfSorted(s: seq<int>)
    requires IsSorted(s) && s != []
    ensures multiset(s) != multiset{} && Top(multiset(s)) == s[0]
  {
    assert s[0] in multiset(s);
    var m := Top(multiset(s));
    assert m in multiset(s) && m <= s[0];
    assert m in s;
  }

  lemma LargestTop(values: seq<int>, k: nat)
    requires k >= 1 && values != []
    ensures Largest(values, k) != multiset{}
    ensures Top(Largest(values, k)) == Sort(values)[Cut(|values|, k)]
  {
    hide Sort, Top;
    var t := Sort(values);
    SortSorts(values);
    TopOfSorted(t[Cut(|values|, k)..]);
  }

  lemma SortAppend(values: seq<int>, x: int)
    ensures Sort(values + [x]) == Insert(x, Sort(values))
  {
    assert (values + [x])[..|values|] == values;
  }

  lemma NotFull(values: seq<int>, k: nat, x: int)
    requires |values| < k
    ensures Largest(values + [x], k) == Largest(values, k) + multiset{x}
  {
    SortAppend(values, x);
    hide Sort, Insert;
    assert Sort(values + [x])[0..] == Sort(values + [x]) && Sort(values)[0..] == Sort(values);
  }

  /** pop followed by push. */
  function Exchange(heap: multiset<int>, popped: int, added: int): multiset<int> {
    heap - multiset{popped} + multiset{added}
  }

  lemma ExchangeOne(rest: multiset<int>, popped: int, added: int)
    ensures Exchange(multiset{popped} + rest, popped, added) == rest + multiset{added}
  {
  }

  lemma TailLarger(x: int, t: seq<int>, d: nat)
    requires IsSorted(t) && d < |t| && x > t[d]
    ensures From(Insert(x, t), d + 1) == Exchange(From(t, d), t[d], x)
  {
    hide Insert, IsSorted, Exchange;
    InsertAfter(x, t, d);
    var rest := t[d + 1..];
    assert t[d..] == [t[d]] + rest;
    ExchangeOne(multiset(rest), t[d], x);
  }

  lemma LargestAppend(values: seq<int>, k: nat, x: int)
    requires k <= |values|
    ensures Largest(values + [x], k) == From(Insert(x, Sort(values)), |values| - k + 1)
  {
    SortAppend(values, x);
    hide Sort, Insert;
  }

  lemma LargestFull(values: seq<int>, k: nat)
    requires k <= |values|
    ensures Largest(values, k) == From(Sort(values), |values| - k)
  {
    hide Sort;
  }

  lemma FullLarger(values: seq<int>, k: nat, x: int)
    requires 1 <= k <= |values| && x > Sort(values)[|values| - k]
    ensures Largest(values + [x], k) == Exchange(Largest(values, k), Sort(values)[|values| - k], x)
  {
    hide From, Exchange, Sort, Insert, IsSorted, Largest;
    SortSorts(values);
    LargestFull(values, k);
    LargestAppend(values, k, x);
    TailLarger(x, Sort(values), |values| - k);
  }

  lemma TailSmaller(x: int, t: seq<int>, d: nat)
    requires IsSorted(t) && d < |t| && x <= t[d]
    ensures From(Insert(x, t), d + 1) == From(t, d)
  {
    hide Insert, IsSorted;
    InsertBefore(x, t, d);
  }

  lemma FullSmaller(values: seq<int>, k: nat, x: int)
    requires 1 <= k <= |values| && x <= Sort(values)[|values| - k]
    ensures Largest(values + [x], k) == Largest(values, k)
  {
    hide From, Sort, Insert, IsSorted, Largest;
    SortSorts(values);
    LargestFull(values, k);
    LargestAppend(values, k, x);
    TailSmaller(x, Sort(values), |values| - k);
  }

  /** One more value: a full heap gives up its smallest for a larger one, and ignores the rest. */
  lemma LargestAfter(values: seq<int>, k: nat, x: int)
    requires k >= 1
    ensures |values| < k ==> Largest(values + [x], k) == Largest(values, k) + multiset{x}
    ensures |values| >= k ==> Largest(values, k) != multiset{}
    ensures |values| >= k && x > Top(Largest(values, k)) ==>
      Largest(values + [x], k) == Exchange(Largest(values, k), Top(Largest(values, k)), x)
    ensures |values| >= k && x <= Top(Largest(values, k)) ==> Largest(values + [x], k) == Largest(values, k)
  {
    if |values| < k {
      NotFull(values, k, x);
    } else {
      LargestTop(values, k);
      if x > Sort(values)[|values| - k] { FullLarger(values, k, x); } else { FullSmaller(values, k, x); }
    }
    hide Sort, Largest, Top, Exchange;
  }

  /** The order in which values arrive does not matter. */
  lemma LargestPermuted(a: seq<int>, b: seq<int>, k: nat)
    requires multiset(a) == multiset(b)
    ensures Largest(a, k) == Largest(b, k)
  {
    SortPermuted(a, b);
    assert |a| == |multiset(a)| == |b|;
  }
}
