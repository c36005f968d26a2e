/** The generation-numbered cache of one backend thread. */
module AutoIncCache {
  import opened Decimal

  const INT_RANGE: nat := 0x1_0000_0000
  const MAX_VALUE: nat := 4 * 1024 * 1024

  /** The 32-bit counter after g increments from zero. */
  function Counter(g: nat): (c: int)
    ensures -0x8000_0000 <= c < 0x8000_0000
  {
    var m := g % INT_RANGE;
    if m < 0x8000_0000 then m else m - INT_RANGE
  }

  /** atomic<int>::operator++ wraps around. */
  function Increment(c: int): int {
    if c == 0x7FFF_FFFF then -0x8000_0000 else c + 1
  }

  lemma IncrementCounts(g: nat)
    ensures Increment(Counter(g)) == Counter(g + 1)
  {
  }

  /** Two generations share a counter exactly when they are a multiple of 2^32 apart. */
  lemma CounterCollides(g: nat, h: nat)
    ensures Counter(g) == Counter(h) <==> g % INT_RANGE == h % INT_RANGE
  {
  }

  function Subpool(thread: nat): string { "thread_" + Print(thread) }

  function FullKey(counter: int, thread: nat, key: string): string {
    PrintInt(counter) + "_" + Subpool(thread) + "_" + key
  }

  /** A full key names its counter, its thread and its key. */
  lemma FullKeyInjective(c1: int, n1: nat, k1: string, c2: int, n2: nat, k2: string)
    requires FullKey(c1, n1, k1) == FullKey(c2, n2, k2)
    ensures c1 == c2 && n1 == n2 && k1 == k2
  {
    Regroup(c1, n1, k1);
    Regroup(c2, n2, k2);
    var t := "thread";
    SplitFirst(PrintInt(c1), t + ['_'] + (Print(n1) + ['_'] + k1), PrintInt(c2), t + ['_'] + (Print(n2) + ['_'] + k2),
        '_');
    PrintIntInjective(c1, c2);
    SplitFirst(t, Print(n1) + ['_'] + k1, t, Print(n2) + ['_'] + k2, '_');
    SplitFirst(Print(n1), k1, Print(n2), k2, '_');
    PrintInjective(n1, n2);
  }

  lemma FullKeyText(counter: int, thread: nat, key: string)
    ensures FullKey(counter, thread, key) == PrintInt(counter) + "_thread_" + Print(thread) + "_" + key
  {
    var c, n := PrintInt(counter), Print(thread);
    assert c + "_" + ("thread_" + n) == c + "_thread_" + n;
  }

  lemma Regroup(c: int, n: nat, k: string)
    ensures FullKey(c, n, k) == PrintInt(c) + ['_'] + ("thread" + ['_'] + (Print(n) + ['_'] + k))
  {
    assert FullKey(c, n, k) == PrintInt(c) + ['_'] + ("thread" + ['_'] + Print(n)) + ['_'] + k;
  }

  // ---- the remote pool, which may lose items and refuse values

  type Items = map<string, string>

  function GetItem(items: Items, fullKey: string): string {
    if fullKey in items then items[fullKey] else ""
  }

  function SetItem(items: Items, fullKey: string, value: string, drop: bool): Items {
    if |value| > MAX_VALUE || drop then items else items[fullKey := value]
  }

  /** AutoIncCache with a client: `items` is the pool its client talks to. */
  class Cache {
    var counter: int
    const thread: nat
    var items: Items
    ghost var generation: nat

    ghost predicate Valid()
      reads this
    {
      counter == Counter(generation)
    }

    constructor (thread: nat)
      ensures Valid() && generation == 0 && items == map[] && this.thread == thread
    {
      counter, items, generation := 0, map[], 0;
      this.thread := thread;
    }

    /** set_; the allocator may drop the value. */
    method Put(key: string, value: string, drop: bool) returns (ok: bool)
      requires Valid()
      modifies this`items
      ensures items == SetItem(old(items), FullKey(Counter(generation), thread, key), value, drop)
      ensures ok == (|value| <= 4194304)
    {
      if |value| > 4 * 1024 * 1024 { return false; }
      var fullKey := PrintInt(counter) + "_" + Subpool(thread) + "_" + key;
      if !drop { items := items[fullKey := value]; }
      return true;
    }

    /** get_. */
    method Fetch(key: string) returns (value: string)
      requires Valid()
      ensures value == GetItem(items, FullKey(Counter(generation), thread, key))
    {
      var fullKey := PrintInt(counter) + "_" + Subpool(thread) + "_" + key;
      value := if fullKey in items then items[fullKey] else "";
    }

    /** del_. */
    method Remove(key: string)
      requires Valid()
      modifies this`items
      ensures items == old(items) - {FullKey(Counter(generation), thread, key)}
    {
      items := items - {PrintInt(counter) + "_" + Subpool(thread) + "_" + key};
    }

    /** invalidate_all_. */
    method InvalidateAll()
      requires Valid()
      modifies this`counter, this`generation
      ensures Valid() && generation == old(generation) + 1
    {
      IncrementCounts(generation);
      counter := if counter == 0x7FFF_FFFF then -0x8000_0000 else counter + 1;
      generation := generation + 1;
    }
  }

  // ---- runs of one cache object that has the pool to itself

  datatype Op = PutOp(key: string, value: string, drop: bool) | GetOp(key: string) | RemoveOp(key: string)
              | InvalidateOp | EvictOp(fullKey: string)

  datatype State = State(generation: nat, items: Items)

  function Step(thread: nat, s: State, op: Op): (State, string) {
    var c := Counter(s.generation);
    match op
    case PutOp(k, v, drop) => (s.(items := SetItem(s.items, FullKey(c, thread, k), v, drop)), "")
    case GetOp(k) => (s, GetItem(s.items, FullKey(c, thread, k)))
    case RemoveOp(k) => (s.(items := s.items - {FullKey(c, thread, k)}), "")
    case InvalidateOp => (s.(generation := s.generation + 1), "")
    case EvictOp(fk) => (s.(items := s.items - {fk}), "")
  }

  function Run(thread: nat, s: State, ops: seq<Op>): State
    decreases |ops|
  {
    if ops == [] then s else Run(thread, Step(thread, s, ops[0]).0, ops[1..])
  }

  function Invalidations(ops: seq<Op>): nat {
    if ops == [] then 0 else Invalidations(ops[..|ops| - 1]) + if ops[|ops| - 1].InvalidateOp? then 1 else 0
  }

  /** What the calls so far leave for k: the last value the pool took since the last invalidation, unless it was
      removed or evicted since. */
  function Current(thread: nat, ops: seq<Op>, k: string): (r: (bool, string))
    decreases |ops|
  {
    if ops == [] then (false, "")
    else
      var n := |ops| - 1;
      var before := ops[..n];
      match ops[n]
      case PutOp(key, v, drop) => if key == k && !drop && |v| <= 4194304
          then (true, v) else Current(thread, before, k)
      case RemoveOp(key) => if key == k then (false, "") else Current(thread, before, k)
      case EvictOp(fk) =>
        if fk == FullKey(Counter(Invalidations(before)), thread, k) then (false, "") else Current(thread, before, k)
      case InvalidateOp => (false, "")
      case GetOp(_) => Current(thread, before, k)
  }

  lemma {:induction false} RunSnoc(thread: nat, s: State, ops: seq<Op>, op: Op)
    ensures Run(thread, s, ops + [op]) == Step(thread, Run(thread, s, ops), op).0
    decreases |ops|
  {
    if ops == [] {
      assert [op][1..] == [] && [] + [op] == [op];
    } else {
      assert (ops + [op])[1..] == ops[1..] + [op];
      RunSnoc(thread, Step(thread, s, ops[0]).0, ops[1..], op);
    }
  }

  function Held(items: Items, fullKey: string): (bool, string) {
    if fullKey in items then (true, items[fullKey]) else (false, "")
  }

  ghost predicate PutUpTo(thread: nat, generation: nat, fullKey: string) {
    exists g: nat, k: string :: g <= generation && fullKey == FullKey(Counter(g), thread, k)
  }

  /** Every item was put under a generation up to the present one; the present one holds what is current. */
  ghost predicate Inv(thread: nat, s: State, ops: seq<Op>) {
    && s.generation == Invalidations(ops)
    && (forall fk :: fk in s.items ==> PutUpTo(thread, s.generation, fk))
    && (forall k: string :: Held(s.items, FullKey(Counter(s.generation), thread, k)) == Current(thread, ops, k))
  }

  const EMPTY := State(0, map[])

  lemma InvStep(thread: nat, s: State, ops: seq<Op>, op: Op)
    requires Inv(thread, s, ops) && Invalidations(ops + [op]) < INT_RANGE
    ensures Inv(thread, Step(thread, s, op).0, ops + [op])
  {
    hide FullKey, Counter;
    var s', ops', c := Step(thread, s, op).0, ops + [op], Counter(s.generation);
    assert ops'[..|ops|] == ops;
    forall fk | fk in s'.items ensures PutUpTo(thread, s'.generation, fk) {
      if fk in s.items {
        var g: nat, k: string :| g <= s.generation && fk == FullKey(Counter(g), thread, k);
        assert g <= s'.generation;
      } else {
        assert fk == FullKey(Counter(s.generation), thread, op.key);
      }
    }
    forall k: string ensures Held(s'.items, FullKey(Counter(s'.generation), thread, k)) == Current(thread, ops', k) {
      InvStepAt(thread, s, ops, op, k);
    }
  }

  lemma InvStepAt(thread: nat, s: State, ops: seq<Op>, op: Op, k: string)
    requires Inv(thread, s, ops) && Invalidations(ops + [op]) < INT_RANGE
    ensures var s' := Step(thread, s, op).0;
      Held(s'.items, FullKey(Counter(s'.generation), thread, k)) == Current(thread, ops + [op], k)
  {
    hide FullKey, Counter;
    var s', c := Step(thread, s, op).0, Counter(s.generation);
    assert (ops + [op])[..|ops|] == ops;
    var fk := FullKey(Counter(s'.generation), thread, k);
    if op.InvalidateOp? {
      if fk in s.items {
        var g: nat, j: string :| g <= s.generation && fk == FullKey(Counter(g), thread, j);
        FullKeyInjective(Counter(g), thread, j, Counter(s'.generation), thread, k);
        SmallCountersDiffer(g, s'.generation);
      }
    } else if (op.PutOp? || op.RemoveOp?) && op.key != k {
      if FullKey(c, thread, op.key) == fk { FullKeyInjective(c, thread, op.key, c, thread, k); }
    }
  }

  lemma SmallCountersDiffer(g: nat, h: nat)
    requires g < h < INT_RANGE
    ensures Counter(g) != Counter(h)
  {
  }

  lemma {:induction false} RunInv(thread: nat, ops: seq<Op>)
    requires Invalidations(ops) < INT_RANGE
    ensures Inv(thread, Run(thread, EMPTY, ops), ops)
  {
    if ops != [] {
      var n := |ops| - 1;
      assert ops == ops[..n] + [ops[n]];
      RunInv(thread, ops[..n]);
      RunSnoc(thread, EMPTY, ops[..n], ops[n]);
      InvStep(thread, Run(thread, EMPTY, ops[..n]), ops[..n], ops[n]);
    }
  }

  /** In any run with fewer than 2^32 invalidations a get answers exactly the last value the pool took for that key
      since the last invalidation, or nothing if there is none or it was removed or evicted since. */
  lemma GetIsCurrent(thread: nat, ops: seq<Op>, k: string)
    requires Invalidations(ops) < 4294967296
    ensures Step(thread, Run(thread, EMPTY, ops), GetOp(k)).1 == Current(thread, ops, k).1
  {
    hide FullKey, Counter;
    RunInv(thread, ops);
  }

  /** An old value comes back exactly when the invalidations since it was put are a multiple of 2^32. */
  lemma OldValueReturns(thread: nat, s: State, k: string, v: string, n: nat)
    requires s.items == map[FullKey(Counter(s.generation), thread, k) := v] && v != ""
    ensures Step(thread, s.(generation := s.generation + n), GetOp(k)).1 == v <==> n % 4294967296 == 0
  {
    hide FullKey;
    var g, h := s.generation, s.generation + n;
    if FullKey(Counter(h), thread, k) == FullKey(Counter(g), thread, k) {
      FullKeyInjective(Counter(h), thread, k, Counter(g), thread, k);
    }
    CounterCollides(g, h);
    SameResidue(g, n);
  }

  lemma SameResidue(g: nat, n: nat)
    ensures (g + n) % INT_RANGE == g % INT_RANGE <==> n % INT_RANGE == 0
  {
  }
}
