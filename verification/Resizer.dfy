/** Reallocating a bounded cache among its pools: shrink first, then grow. */
module Resizer {
  const SIZE_CONV: nat := 16 * 1024 * 1024

  /** Reserved bytes by pool name. */
  type Ledger = map<string, nat>

  datatype Request = Request(pool: string, units: nat)

  ghost function Total(l: Ledger): nat
    decreases |l|
  {
    if l == map[] then 0 else var p :| p in l; l[p] + Total(l - {p})
  }

  lemma {:induction false} TotalWithout(l: Ledger, p: string)
    requires p in l
    ensures Total(l) == l[p] + Total(l - {p})
    decreases |l|
  {
    var q :| q in l && Total(l) == l[q] + Total(l - {q});
    if q != p {
      TotalWithout(l - {q}, p);
      TotalWithout(l - {p}, q);
      assert l - {q} - {p} == l - {p} - {q};
    }
  }

  lemma TotalUpdate(l: Ledger, p: string, size: nat)
    requires p in l
    ensures Total(l[p := size]) + l[p] == Total(l) + size
  {
    TotalWithout(l, p);
    TotalWithout(l[p := size], p);
    assert l[p := size] - {p} == l - {p};
  }

  predicate Known(l: Ledger, reqs: seq<Request>) { forall i :: 0 <= i < |reqs| ==> reqs[i].pool in l }

  function Units(l: Ledger, p: string): nat
    requires p in l
  {
    l[p] / SIZE_CONV
  }

  function ShrunkOnce(m: Ledger, r: Request): (m': Ledger)
    requires r.pool in m
    ensures m'.Keys == m.Keys
  {
    if Units(m, r.pool) > r.units then m[r.pool := r.units * SIZE_CONV] else m
  }

  /** The ledger after the first loop. */
  function Shrunk(l: Ledger, reqs: seq<Request>): (m: Ledger)
    requires Known(l, reqs)
    ensures m.Keys == l.Keys
  {
    if reqs == [] then l
    else
      var n := |reqs| - 1;
      ShrunkOnce(Shrunk(l, reqs[..n]), reqs[n])
  }

  function GrownOnce(m: Ledger, r: Request): (m': Ledger)
    requires r.pool in m
    ensures m'.Keys == m.Keys
  {
    if Units(m, r.pool) < r.units then m[r.pool := r.units * SIZE_CONV] else m
  }

  /** The ledger after the second loop, if nothing bounds it. */
  function Grown(l: Ledger, reqs: seq<Request>): (m: Ledger)
    requires Known(l, reqs)
    ensures m.Keys == l.Keys
  {
    if reqs == [] then l
    else
      var n := |reqs| - 1;
      GrownOnce(Grown(l, reqs[..n]), reqs[n])
  }

  /** The ledger a request list asks for. */
  function Target(l: Ledger, reqs: seq<Request>): (m: Ledger)
    requires Known(l, reqs)
    ensures m.Keys == l.Keys
  {
    Grown(Shrunk(l, reqs), reqs)
  }

  predicate Asked(reqs: seq<Request>, p: string) { exists i :: 0 <= i < |reqs| && reqs[i].pool == p }

  /** The largest size asked for p. */
  function MaxAsked(reqs: seq<Request>, p: string): nat {
    if reqs == [] then 0
    else
      var n := |reqs| - 1;
      var m := MaxAsked(reqs[..n], p);
      if reqs[n].pool == p && reqs[n].units > m then reqs[n].units else m
  }

  lemma AskedSnoc(reqs: seq<Request>, p: string)
    requires reqs != []
    ensures Asked(reqs, p) <==> Asked(reqs[..|reqs| - 1], p) || reqs[|reqs| - 1].pool == p
  {
    var n := |reqs| - 1;
    if Asked(reqs[..n], p) {
      var i :| 0 <= i < n && reqs[..n][i].pool == p;
      assert reqs[i].pool == p;
    }
    if Asked(reqs, p) && reqs[n].pool != p {
      var i :| 0 <= i < |reqs| && reqs[i].pool == p;
      assert reqs[..n][i].pool == p;
    }
  }

  lemma {:induction false} ShrunkUnits(l: Ledger, reqs: seq<Request>, p: string)
    requires Known(l, reqs) && p in l
    ensures !Asked(reqs, p) ==> Shrunk(l, reqs)[p] == l[p]
    ensures Asked(reqs, p) ==> Units(Shrunk(l, reqs), p) <= MaxAsked(reqs, p)
  {
    if reqs != [] {
      var n := |reqs| - 1;
      ShrunkUnits(l, reqs[..n], p);
      AskedSnoc(reqs, p);
    }
  }

  lemma {:induction false} GrownUnits(l: Ledger, reqs: seq<Request>, p: string)
    requires Known(l, reqs) && p in l
    ensures !Asked(reqs, p) ==> Grown(l, reqs)[p] == l[p]
    ensures Units(Grown(l, reqs), p) == if Units(l, p) >= MaxAsked(reqs, p) then Units(l, p) else MaxAsked(reqs, p)
  {
    if reqs != [] {
      var n := |reqs| - 1;
      GrownUnits(l, reqs[..n], p);
      AskedSnoc(reqs, p);
    }
  }

  /** Each named pool is to have the largest size asked for it, also when it is named twice; others keep theirs. */
  lemma TargetIsMaxAsked(l: Ledger, reqs: seq<Request>, p: string)
    requires Known(l, reqs) && p in l
    ensures if Asked(reqs, p) then Units(Target(l, reqs), p) == MaxAsked(reqs, p) else Target(l, reqs)[p] == l[p]
  {
    ShrunkUnits(l, reqs, p);
    GrownUnits(Shrunk(l, reqs), reqs, p);
  }

  lemma NotAsked(reqs: seq<Request>, p: string)
    requires !Asked(reqs, p)
    ensures MaxAsked(reqs, p) == 0
  {
    if reqs != [] {
      AskedSnoc(reqs, p);
      NotAsked(reqs[..|reqs| - 1], p);
    }
  }

  predicate AsksFor(reqs: seq<Request>, p: string, units: nat) {
    exists i :: 0 <= i < |reqs| && reqs[i].pool == p && reqs[i].units == units
  }

  lemma {:induction false} MaxAskedIsLargest(reqs: seq<Request>, p: string)
    ensures forall i :: 0 <= i < |reqs| && reqs[i].pool == p ==> reqs[i].units <= MaxAsked(reqs, p)
    ensures Asked(reqs, p) ==> AsksFor(reqs, p, MaxAsked(reqs, p))
  {
    if reqs != [] {
      var n := |reqs| - 1;
      MaxAskedIsLargest(reqs[..n], p);
      AskedSnoc(reqs, p);
      forall i | 0 <= i < n && reqs[i].pool == p ensures reqs[i].units <= MaxAsked(reqs, p) {
        assert reqs[..n][i] == reqs[i];
      }
      if AsksFor(reqs[..n], p, MaxAsked(reqs, p)) {
        var i :| 0 <= i < n && reqs[..n][i].pool == p && reqs[..n][i].units == MaxAsked(reqs, p);
        assert reqs[i].pool == p;
      } else if Asked(reqs, p) {
        if !Asked(reqs[..n], p) { NotAsked(reqs[..n], p); }
        assert reqs[n].pool == p && reqs[n].units == MaxAsked(reqs, p);
      }
    }
  }

  /** Some row asks for a pool with a size below its present one. */
  predicate AsksLess(l: Ledger, reqs: seq<Request>, p: string)
    requires p in l
  {
    exists i :: 0 <= i < |reqs| && reqs[i].pool == p && reqs[i].units < l[p] / 16777216
  }

  lemma AsksLessSnoc(l: Ledger, reqs: seq<Request>, p: string)
    requires p in l && reqs != []
    ensures var r := reqs[|reqs| - 1];
      AsksLess(l, reqs, p) <==> AsksLess(l, reqs[..|reqs| - 1], p) || (r.pool == p && r.units < l[p] / 16777216)
  {
    var n := |reqs| - 1;
    if AsksLess(l, reqs[..n], p) {
      var i :| 0 <= i < n && reqs[..n][i].pool == p && reqs[..n][i].units < l[p] / 16777216;
      assert reqs[i].pool == p;
    }
    if AsksLess(l, reqs, p) {
      var i :| 0 <= i < |reqs| && reqs[i].pool == p && reqs[i].units < l[p] / 16777216;
      if i < n { assert reqs[..n][i].pool == p; }
    }
  }

  /** After the first loop a pool has its old size, or whole units below it. */
  lemma {:induction false} ShrunkBytes(l: Ledger, reqs: seq<Request>, p: string)
    requires Known(l, reqs) && p in l
    ensures var m := Shrunk(l, reqs)[p];
      if AsksLess(l, reqs, p) then m % 16777216 == 0 && m < l[p] && m / 16777216 < l[p] / 16777216 else m == l[p]
  {
    if reqs != [] {
      ShrunkBytes(l, reqs[..|reqs| - 1], p);
      AsksLessSnoc(l, reqs, p);
      ShrunkAppend(l, reqs);
      hide Shrunk, AsksLess;
    }
  }

  lemma GrowsTo(m: Ledger, r: Request, p: string)
    requires p in m && r.pool in m
    ensures GrownOnce(m, r)[p] == if r.pool == p && r.units > m[p] / 16777216 then r.units * 16777216 else m[p]
  {
  }

  lemma {:induction false} GrownBytes(l: Ledger, reqs: seq<Request>, p: string)
    requires Known(l, reqs) && p in l
    ensures Grown(l, reqs)[p] == if MaxAsked(reqs, p) > l[p] / 16777216 then MaxAsked(reqs, p) * 16777216 else l[p]
  {
    if reqs != [] {
      var n := |reqs| - 1;
      GrownBytes(l, reqs[..n], p);
      GrowsTo(Grown(l, reqs[..n]), reqs[n], p);
      assert Grown(l, reqs) == GrownOnce(Grown(l, reqs[..n]), reqs[n]);
      hide Grown, GrownOnce;
    }
  }

  /** The size in bytes after both loops: the largest request in units of 16 MB, unless every request for the pool
      is for its present size in units. Then, and without a request, not a byte changes. */
  lemma TargetBytes(l: Ledger, reqs: seq<Request>, p: string)
    requires Known(l, reqs) && p in l
    ensures Target(l, reqs)[p] ==
      if exists i :: 0 <= i < |reqs| && reqs[i].pool == p && reqs[i].units != l[p] / 16777216
      then MaxAsked(reqs, p) * 16777216 else l[p]
  {
    ShrunkBytes(l, reqs, p);
    ShrunkUnits(l, reqs, p);
    GrownBytes(Shrunk(l, reqs), reqs, p);
    MaxAskedIsLargest(reqs, p);
    LessIsAsked(l, reqs, p);
    hide Shrunk, Grown, MaxAsked, ShrunkOnce, GrownOnce;
  }

  lemma LessIsAsked(l: Ledger, reqs: seq<Request>, p: string)
    requires p in l
    ensures AsksLess(l, reqs, p) ==> Asked(reqs, p)
    ensures !Asked(reqs, p) ==> MaxAsked(reqs, p) == 0
  {
    if AsksLess(l, reqs, p) {
      var i :| 0 <= i < |reqs| && reqs[i].pool == p && reqs[i].units < l[p] / 16777216;
      assert Asked(reqs, p);
    }
    if !Asked(reqs, p) { NotAsked(reqs, p); }
  }

  lemma ShrinkStep(m: Ledger, r: Request)
    requires r.pool in m && Units(m, r.pool) > r.units
    ensures Total(m[r.pool := r.units * SIZE_CONV]) <= Total(m) && r.units * SIZE_CONV < m[r.pool]
  {
    TotalUpdate(m, r.pool, r.units * SIZE_CONV);
  }

  lemma GrowStep(m: Ledger, r: Request)
    requires r.pool in m && Units(m, r.pool) < r.units
    ensures Total(m[r.pool := r.units * SIZE_CONV]) >= Total(m) && r.units * SIZE_CONV > m[r.pool]
  {
    TotalUpdate(m, r.pool, r.units * SIZE_CONV);
  }

  /** Reserved space falls during the first loop. */
  lemma {:induction false} ShrinkingFalls(l: Ledger, reqs: seq<Request>, i: nat)
    requires Known(l, reqs) && i <= |reqs|
    ensures Total(Shrunk(l, reqs)) <= Total(Shrunk(l, reqs[..i])) <= Total(l)
    decreases |reqs|
  {
    if i == |reqs| { assert reqs[..i] == reqs; }
    if reqs != [] {
      var n := |reqs| - 1;
      var m, r, j := Shrunk(l, reqs[..n]), reqs[n], if i <= n then i else n;
      assert Shrunk(l, reqs) == ShrunkOnce(m, r);
      hide Shrunk, Total;
      if Units(m, r.pool) > r.units { ShrinkStep(m, r); }
      assert reqs[..n][..j] == reqs[..j];
      ShrinkingFalls(l, reqs[..n], j);
    }
  }

  /** And rises during the second. */
  lemma {:induction false} GrowingRises(l: Ledger, reqs: seq<Request>, i: nat)
    requires Known(l, reqs) && i <= |reqs|
    ensures Total(l) <= Total(Grown(l, reqs[..i])) <= Total(Grown(l, reqs))
    decreases |reqs|
  {
    if i == |reqs| { assert reqs[..i] == reqs; }
    if reqs != [] {
      var n := |reqs| - 1;
      var m, r, j := Grown(l, reqs[..n]), reqs[n], if i <= n then i else n;
      assert Grown(l, reqs) == GrownOnce(m, r);
      hide Grown, Total;
      if Units(m, r.pool) < r.units { GrowStep(m, r); }
      assert reqs[..n][..j] == reqs[..j];
      GrowingRises(l, reqs[..n], j);
    }
  }

  /** One more request of the second loop. */
  lemma GrownNext(l: Ledger, reqs: seq<Request>, i: nat)
    requires Known(l, reqs) && i < |reqs|
    ensures Grown(l, reqs[..i + 1]) == GrownOnce(Grown(l, reqs[..i]), reqs[i])
    ensures Total(Grown(l, reqs[..i + 1])) <= Total(Grown(l, reqs))
  {
    assert reqs[..i + 1][..i] == reqs[..i];
    GrowingRises(l, reqs, i + 1);
  }

  /** The ledger after the second loop in a cache of the given capacity: a grow that does not fit is left out. */
  ghost function GrownIn(l: Ledger, reqs: seq<Request>, capacity: nat): (m: Ledger)
    requires Known(l, reqs)
    ensures m.Keys == l.Keys
  {
    if reqs == [] then l
    else
      var n := |reqs| - 1;
      var m := GrownIn(l, reqs[..n], capacity);
      if Total(GrownOnce(m, reqs[n])) <= capacity then GrownOnce(m, reqs[n]) else m
  }

  lemma GrownInNext(l: Ledger, reqs: seq<Request>, capacity: nat, i: nat)
    requires Known(l, reqs) && i < |reqs|
    ensures var m := GrownIn(l, reqs[..i], capacity);
      GrownIn(l, reqs[..i + 1], capacity) ==
        if Total(GrownOnce(m, reqs[i])) <= capacity then GrownOnce(m, reqs[i]) else m
  {
    assert reqs[..i + 1][..i] == reqs[..i];
    hide Total;
  }

  lemma {:induction false} GrownInFits(l: Ledger, reqs: seq<Request>, capacity: nat)
    requires Known(l, reqs) && Total(Grown(l, reqs)) <= capacity
    ensures GrownIn(l, reqs, capacity) == Grown(l, reqs)
  {
    if reqs != [] {
      var n := |reqs| - 1;
      GrowingRises(l, reqs, n);
      hide Total;
      GrownInFits(l, reqs[..n], capacity);
    }
  }

  /** Whether or not all of it fits, a pool ends between its size after the first loop and the largest size asked. */
  lemma {:induction false} GrownInBounds(l: Ledger, reqs: seq<Request>, capacity: nat, p: string)
    requires Known(l, reqs) && p in l
    ensures var m := GrownIn(l, reqs, capacity);
      && l[p] <= m[p] && (!Asked(reqs, p) ==> m[p] == l[p])
      && (Units(m, p) <= Units(l, p) || Units(m, p) <= MaxAsked(reqs, p))
  {
    if reqs != [] {
      var n := |reqs| - 1;
      GrownInBounds(l, reqs[..n], capacity, p);
      AskedSnoc(reqs, p);
      GrownOnceBounds(GrownIn(l, reqs[..n], capacity), reqs[n], p);
      hide Total, GrownOnce, Units, Asked;
    }
  }

  lemma GrownOnceBounds(m: Ledger, r: Request, p: string)
    requires p in m && r.pool in m
    ensures var m' := GrownOnce(m, r);
      m[p] <= m'[p] && (m'[p] == m[p] || (p == r.pool && Units(m', p) == r.units))
  {
  }

  lemma SettledBounds(l: Ledger, reqs: seq<Request>, capacity: nat, p: string)
    requires Known(l, reqs) && p in l
    ensures var m := GrownIn(Shrunk(l, reqs), reqs, capacity);
      if Asked(reqs, p) then Shrunk(l, reqs)[p] <= m[p] && Units(m, p) <= MaxAsked(reqs, p) else m[p] == l[p]
  {
    hide Total, GrownIn, Shrunk;
    ShrunkUnits(l, reqs, p);
    GrownInBounds(Shrunk(l, reqs), reqs, capacity, p);
  }

  /** How many rows there are before the first one that names no pool. */
  function KnownRows(l: Ledger, reqs: seq<Request>): (n: nat)
    ensures n <= |reqs| && Known(l, reqs[..n])
    ensures Known(l, reqs) <==> n == |reqs|
    ensures n < |reqs| ==> reqs[n].pool !in l
  {
    if reqs == [] then 0
    else
      var n := |reqs| - 1;
      var m := KnownRows(l, reqs[..n]);
      assert reqs[..n][..m] == reqs[..m];
      if m == n && reqs[n].pool in l then assert reqs[..|reqs|] == reqs; |reqs| else m
  }

  lemma NextRow(l: Ledger, reqs: seq<Request>, i: nat)
    requires i < |reqs| && i <= KnownRows(l, reqs)
    ensures Known(l, reqs[..i]) && (reqs[i].pool in l <==> i < KnownRows(l, reqs))
    ensures i < KnownRows(l, reqs) ==> Known(l, reqs[..i + 1])
  {
    var known := reqs[..KnownRows(l, reqs)];
    assert i < |known| ==> known[i] == reqs[i];
    forall j | 0 <= j <= i && j < |known| ensures reqs[j].pool in l { assert known[j] == reqs[j]; }
    hide KnownRows;
  }

  lemma ShrunkAppend(l: Ledger, reqs: seq<Request>)
    requires reqs != [] && Known(l, reqs)
    ensures Shrunk(l, reqs) == ShrunkOnce(Shrunk(l, reqs[..|reqs| - 1]), reqs[|reqs| - 1])
  {
  }

  lemma NoneShrunk(l: Ledger, reqs: seq<Request>)
    ensures Known(l, reqs[..0]) && Shrunk(l, reqs[..0]) == l
  {
  }

  /** One more row of the first loop. */
  lemma ShrunkNext(l: Ledger, reqs: seq<Request>, i: nat)
    requires i < |reqs| && i <= KnownRows(l, reqs)
    ensures Known(l, reqs[..i]) && (reqs[i].pool in l <==> i < KnownRows(l, reqs))
    ensures i < KnownRows(l, reqs) ==>
      Known(l, reqs[..i + 1]) && Shrunk(l, reqs[..i + 1]) == ShrunkOnce(Shrunk(l, reqs[..i]), reqs[i])
  {
    hide KnownRows, Shrunk, ShrunkOnce, Known;
    NextRow(l, reqs, i);
    if i < KnownRows(l, reqs) {
      assert reqs[..i + 1][..i] == reqs[..i];
      ShrunkAppend(l, reqs[..i + 1]);
    }
  }

  /** At no point is more reserved than before or after. */
  lemma PeakReserved(l: Ledger, reqs: seq<Request>, i: nat)
    requires Known(l, reqs) && i <= |reqs|
    ensures Total(Shrunk(l, reqs[..i])) <= Total(l)
    ensures Total(Grown(Shrunk(l, reqs), reqs[..i])) <= Total(Target(l, reqs))
  {
    ShrinkingFalls(l, reqs, i);
    GrowingRises(Shrunk(l, reqs), reqs, i);
  }

  /** The cache object: pools of known sizes within a fixed capacity. */
  class Cache {
    var pools: Ledger
    var reserved: nat
    const capacity: nat

    ghost predicate Valid()
      reads this
    {
      reserved == Total(pools) && reserved <= capacity
    }

    constructor (capacity: nat)
      ensures Valid() && pools == map[] && this.capacity == capacity
    {
      pools, reserved, this.capacity := map[], 0, capacity;
    }

    /** addpool_: an existing pool keeps its size; a new one needs room. */
    method AddPool(name: string, size: nat) returns (ok: bool)
      requires Valid()
      modifies this
      ensures Valid()
      ensures ok <==> name in old(pools) || old(reserved) + size <= capacity
      ensures pools == if ok && name !in old(pools) then old(pools)[name := size] else old(pools)
    {
      if name in pools { return true; }
      if reserved + size > capacity { return false; }
      ghost var was := pools;
      pools, reserved := pools[name := size], reserved + size;
      TotalWithout(pools, name);
      assert pools - {name} == was;
      return true;
    }

    /** resizePool: a shrink always succeeds; a grow needs unreserved space. */
    method ResizePool(name: string, size: nat) returns (ok: bool)
      requires Valid() && name in pools
      modifies this
      ensures Valid()
      ensures ok <==> old(reserved) + size <= capacity + old(pools)[name] || size <= old(pools)[name]
      ensures pools == if ok then old(pools)[name := size] else old(pools)
    {
      var current := pools[name];
      TotalUpdate(pools, name, size);
      if size > current {
        if reserved + (size - current) > capacity { return false; }
        pools, reserved := pools[name := size], reserved + (size - current);
      } else if size < current {
        pools, reserved := pools[name := size], reserved - (current - size);
      }
      assert pools == old(pools)[name := size];
      return true;
    }

    /** One turn of the first loop. */
    method ShrinkOne(r: Request)
      requires Valid() && r.pool in pools
      modifies this
      ensures Valid() && pools == ShrunkOnce(old(pools), r)
    {
      var current := pools[r.pool] / SIZE_CONV;
      if current > r.units {
        ShrinkStep(pools, r);
        var _ := ResizePool(r.pool, r.units * SIZE_CONV);
      }
    }

    /** The first loop of executeNewConfig. A name without a pool makes the cache library throw. */
    method ShrinkPools(reqs: seq<Request>) returns (known: bool)
      requires Valid()
      modifies this
      ensures known <==> Known(old(pools), reqs)
      ensures Valid() && pools == Shrunk(old(pools), reqs[..KnownRows(old(pools), reqs)])
    {
      hide Shrunk, ShrunkOnce, Total, KnownRows, Known;
      NoneShrunk(pools, reqs);
      for i := 0 to |reqs|
        invariant i <= KnownRows(old(pools), reqs)
        invariant Valid() && Known(old(pools), reqs[..i]) && pools == Shrunk(old(pools), reqs[..i])
      {
        ShrunkNext(old(pools), reqs, i);
        if reqs[i].pool !in pools { return false; }
        ShrinkOne(reqs[i]);
      }
      return true;
    }

    /** One turn of the second loop. */
    method GrowOne(r: Request) returns (ok: bool)
      requires Valid() && r.pool in pools
      modifies this
      ensures Valid()
      ensures pools == if ok then GrownOnce(old(pools), r) else old(pools)
      ensures ok <==> Total(GrownOnce(old(pools), r)) <= capacity
    {
      ok := true;
      TotalUpdate(pools, r.pool, r.units * SIZE_CONV);
      var current := pools[r.pool] / SIZE_CONV;
      if current < r.units {
        ok := ResizePool(r.pool, r.units * SIZE_CONV);
      }
    }

    /** The second loop: every grow succeeds exactly when the target fits the cache. */
    method GrowPools(reqs: seq<Request>) returns (fits: bool)
      requires Valid() && Known(pools, reqs)
      modifies this
      ensures Valid() && pools == GrownIn(old(pools), reqs, capacity)
      ensures fits <==> Total(Grown(old(pools), reqs)) <= capacity
    {
      fits := true;
      for i := 0 to |reqs|
        invariant Valid() && pools == GrownIn(old(pools), reqs[..i], capacity)
        invariant fits ==> pools == Grown(old(pools), reqs[..i])
        invariant !fits ==> Total(Grown(old(pools), reqs)) > capacity
      {
        GrownNext(old(pools), reqs, i);
        GrownInNext(old(pools), reqs, capacity, i);
        hide Grown, Total, GrownIn;
        var ok := GrowOne(reqs[i]);
        fits := fits && ok;
      }
      assert reqs[..|reqs|] == reqs;
    }

    /** executeNewConfig, up to an exception for a name without a pool. */
    method ExecuteNewConfig(reqs: seq<Request>) returns (r: Outcome)
      requires Valid()
      modifies this
      ensures Valid() && pools.Keys == old(pools).Keys
      ensures r == Thrown <==> !Known(old(pools), reqs)
      ensures r == Thrown ==> pools == Shrunk(old(pools), reqs[..KnownRows(old(pools), reqs)])
      ensures r != Thrown ==> pools == GrownIn(Shrunk(old(pools), reqs), reqs, capacity)
      ensures r == Reached <==> Known(old(pools), reqs) && Total(Target(old(pools), reqs)) <= capacity
      ensures r == Reached ==> pools == Target(old(pools), reqs)
    {
      var known := ShrinkPools(reqs);
      if !known { return Thrown; }
      assert reqs[..|reqs|] == reqs;
      ghost var shrunk := pools;
      var fits := GrowPools(reqs);
      if fits { GrownInFits(shrunk, reqs, capacity); }
      return if fits then Reached else NoRoom;
    }
  }

  datatype Outcome = Reached | NoRoom | Thrown
}
