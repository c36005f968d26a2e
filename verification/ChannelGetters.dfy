/** Which threads may share one client object for getKV. */
module ChannelGetters {
  import opened Channel
  import opened ChannelSafety
  import opened ChannelProgress

  /** Only the threads in `getters` call getKV. */
  predicate OnlyGetters(work: seq<seq<Call>>, getters: set<nat>) {
    forall i: nat, j :: i < |work| && 0 <= j < |work[i]| && work[i][j].Get? ==> i in getters
  }

  /** Every getKV returned what its own request found in the buffer: the last accepted value, or nothing. */
  predicate AllRepliesOk(s: State) {
    forall i, r :: 0 <= i < |s.clients| && r in s.clients[i].replies ==>
        CopyOk(s.prefix, r.key, r.value, r.seen, r.lookup)
  }

  /** However n threads mix their calls, every getKV answers properly. */
  ghost predicate AlwaysProper(prefix: string, n: nat, getters: set<nat>) {
    forall work, steps ::
      |work| == n && DelFree(work) && OnlyGetters(work, getters) && IsRun(Init(prefix, work), steps) ==>
        AllRepliesOk(After(Init(prefix, work), steps))
  }

  // ---- one getter suffices

  predicate NoGets(s: State, i: nat) {
    i < |s.clients| && s.clients[i].replies == [] &&
    forall j :: 0 <= j < |s.clients[i].todo| ==> !s.clients[i].todo[j].Get?
  }

  lemma NoGetsStep(s: State, step: Step, i: nat)
    requires NoGets(s, i) && Enabled(s, step)
    ensures NoGets(Move(s, step), i)
  {
  }

  lemma {:induction false} NoGetsRun(s: State, steps: seq<Step>, i: nat)
    requires NoGets(s, i) && IsRun(s, steps)
    ensures NoGets(After(s, steps), i)
    decreases |steps|
  {
    hide NoGets;
    if steps != [] {
      NoGetsStep(s, steps[0], i);
      NoGetsRun(Move(s, steps[0]), steps[1..], i);
    }
  }

  lemma OneGetterProper(prefix: string, work: seq<seq<Call>>, steps: seq<Step>, g: nat)
    requires DelFree(work) && OnlyGetters(work, {g}) && IsRun(Init(prefix, work), steps)
    ensures AllRepliesOk(After(Init(prefix, work), steps))
  {
    hide IsRun, After, CopyOk;
    var s0 := Init(prefix, work);
    var s := After(s0, steps);
    PrefixStays(s0, steps);
    assert |s.clients| == |work| by { ClientsStay(s0, steps); }
    forall i: nat | i < |s.clients| ensures forall r :: r in s.clients[i].replies ==>
        CopyOk(s.prefix, r.key, r.value, r.seen, r.lookup) {
      if i == g {
        RepliesAreLastStored(prefix, work, steps, g);
      } else {
        assert NoGets(s0, i);
        NoGetsRun(s0, steps, i);
      }
    }
  }

  lemma ClientsStay(s: State, steps: seq<Step>)
    requires IsRun(s, steps)
    ensures |After(s, steps).clients| == |s.clients|
  {
  }

  // ---- two do not

  /** Thread i stores and reads "a", thread j stores and reads "b". */
  function RaceWork(n: nat, i: nat, j: nat): (work: seq<seq<Call>>)
    requires i < n && j < n && i != j
    ensures |work| == n && work[i] == [Set("a", "x"), Get("a")] && work[j] == [Set("b", "y"), Get("b")]
  {
    seq(n, k => if k == i then [Set("a", "x"), Get("a")] else if k == j then [Set("b", "y"), Get("b")] else [])
  }

  /** Two threads that share a client object: the member getValue is read after the Server semaphore is posted,
      so the first thread's getKV of "a" can return the value that the second thread read for "b". */
  lemma SecondGetterRaces(prefix: string, n: nat, i: nat, j: nat) returns (t: State)
    requires i < n && j < n && i != j
    ensures Reachable(t, prefix, RaceWork(n, i, j)) && |t.clients| == n && t.prefix == prefix
    ensures |t.clients[i].replies| == 1
    ensures var r := t.clients[i].replies[0]; r.key == "a" && r.copied == "x" && r.value == "y"
  {
    hide IsRun, After, Move, Reaches, Reachable, ClientMove, ServerMove, RaceWork;
    var work := RaceWork(n, i, j);
    var s0 := Init(prefix, work);
    DistinctKeys(prefix);
    var s1 := SetRun(s0, i);
    var s2 := SetRun(s1, j);
    ReachesTrans(s0, s1, s2);
    var s3 := GetRun(s2, i);
    ReachesTrans(s0, s2, s3);
    var s4 := GetRun(s3, j);
    ReachesTrans(s0, s3, s4);
    t := ReturnRun(s0, s4, i);
    ReachesReachable(prefix, work, t);
  }

  lemma ReturnRun(s0: State, s: State, i: nat) returns (t: State)
    requires Reaches(s0, s) && i < |s.clients| && s.clients[i].todo != [] && s.clients[i].todo[0].Get?
    requires s.clients[i].pc.Returning?
    ensures var c := s.clients[i];
      var r := Reply(c.todo[0].key, s.getValue, c.copied, c.seen, c.lookup);
      t == s.(clients := s.clients[i := Done(c).(replies := c.replies + [r])])
    ensures Reaches(s0, t)
  {
    ReachesMove(s0, s, ClientStep(i));
    t := Move(s, ClientStep(i));
  }

  lemma ReachesReachable(prefix: string, work: seq<seq<Call>>, t: State)
    requires Reaches(Init(prefix, work), t)
    ensures Reachable(t, prefix, work)
  {
    var steps :| IsRun(Init(prefix, work), steps) && After(Init(prefix, work), steps) == t;
  }

  lemma DistinctKeys(prefix: string)
    ensures prefix + "a" != prefix + "b"
  {
    assert (prefix + "a")[|prefix|] != (prefix + "b")[|prefix|];
  }

  lemma RaceImproper(prefix: string, n: nat, i: nat, j: nat, getters: set<nat>)
    requires i < n && j < n && i != j && i in getters && j in getters
    ensures !AlwaysProper(prefix, n, getters)
  {
    var work := RaceWork(n, i, j);
    assert DelFree(work) && OnlyGetters(work, getters);
    hide RaceWork, IsRun, After;
    var t := SecondGetterRaces(prefix, n, i, j);
    var steps :| IsRun(Init(prefix, work), steps) && t == After(Init(prefix, work), steps);
    ReachableInv(t, prefix, work);
    assert RepliesOk(t.prefix, t.clients[i]);
    var r := t.clients[i].replies[0];
    assert r in t.clients[i].replies;
    assert CopyOk(t.prefix, r.key, r.copied, r.seen, r.lookup) && !CopyOk(t.prefix, r.key, r.value, r.seen, r.lookup);
    assert !AllRepliesOk(t);
  }

  /** getKV answers properly in every run of n threads on one client object exactly when at most one of the
      threads calls it. */
  lemma GettersExactly(prefix: string, n: nat, getters: set<nat>)
    requires forall g :: g in getters ==> g < n
    ensures AlwaysProper(prefix, n, getters) <==> forall i, j :: i in getters && j in getters ==> i == j
  {
    hide AllRepliesOk, DelFree, OnlyGetters, IsRun, After, AlwaysProper;
    if i, j :| i in getters && j in getters && i != j {
      RaceImproper(prefix, n, i, j, getters);
    } else {
      SingleProper(prefix, n, getters);
    }
  }

  lemma SingleProper(prefix: string, n: nat, getters: set<nat>)
    requires forall i, j :: i in getters && j in getters ==> i == j
    ensures AlwaysProper(prefix, n, getters)
  {
    hide AllRepliesOk, DelFree, IsRun, After;
    forall work, steps | |work| == n && DelFree(work) && OnlyGetters(work, getters) && IsRun(Init(prefix, work), steps)
      ensures AllRepliesOk(After(Init(prefix, work), steps))
    {
      var g: nat := if g: nat :| g in getters then g else n;
      assert OnlyGetters(work, {g});
      OneGetterProper(prefix, work, steps, g);
    }
  }
}
