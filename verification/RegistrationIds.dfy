/** Which id a registration hands out, told from the order of events alone. */
module RegistrationIds {
  import opened Registration

  datatype Option<+T> = None | Some(value: T)

  /** Where the latest test by the listener stands. */
  function LastCheck(steps: seq<Step>): (i: Option<nat>)
    ensures i.Some? ==> i.value < |steps| && steps[i.value].Check?
  {
    if steps == [] then None
    else if steps[|steps| - 1].Check? then Some(|steps| - 1)
    else LastCheck(steps[..|steps| - 1])
  }

  /** The pool that a Register step at the end of these steps registers with. */
  function Registering(steps: seq<Step>): Option<string> {
    match LastCheck(steps) case None => None case Some(i) => Some(steps[i].pool)
  }

  predicate PoolLive(live: seq<Channel>, pool: string) {
    exists i :: 0 <= i < |live| && live[i].pool == pool
  }

  /** The id that the latest registration with the pool handed out: the last live channel right after it. */
  function LastIssued(steps: seq<Step>, pool: string): (id: Option<nat>)
    requires IsRun(Start(), steps)
    decreases |steps|
  {
    if steps == [] then None
    else
      var before := steps[..|steps| - 1];
      assert steps == before + [steps[|steps| - 1]];
      RunSnoc(Start(), before, steps[|steps| - 1]);
      var live := After(Start(), steps).live;
      if steps[|steps| - 1].Register? && Registering(before) == Some(pool) && live != [] then Some(live[|live| - 1].id)
      else LastIssued(before, pool)
  }

  lemma {:induction false} RunSnoc(s: State, steps: seq<Step>, step: Step)
    requires IsRun(s, steps + [step])
    ensures IsRun(s, steps) && Enabled(After(s, steps), step)
    ensures After(s, steps + [step]) == Move(After(s, steps), step)
    decreases |steps|
  {
    if steps == [] {
      assert (steps + [step])[1..] == [];
    } else {
      assert (steps + [step])[0] == steps[0] && (steps + [step])[1..] == steps[1..] + [step];
      RunSnoc(Move(s, steps[0]), steps[1..], step);
    }
  }

  lemma {:induction false} RunPrefix(steps: seq<Step>, n: nat)
    requires IsRun(Start(), steps) && n <= |steps|
    ensures IsRun(Start(), steps[..n])
    decreases |steps| - n
  {
    if n < |steps| {
      RunPrefix(steps, n + 1);
      assert steps[..n + 1] == steps[..n] + [steps[n]];
      RunSnoc(Start(), steps[..n], steps[n]);
    } else {
      assert steps[..n] == steps;
    }
  }

  /** Whether the pool had no live channel when the listener last tested it. */
  predicate Restarts(steps: seq<Step>)
    requires IsRun(Start(), steps) && LastCheck(steps).Some?
  {
    var i := LastCheck(steps).value;
    RunPrefix(steps, i);
    !PoolLive(After(Start(), steps[..i]).live, steps[i].pool)
  }

  /** The bookkeeping agrees with the events. */
  ghost predicate Tracks(steps: seq<Step>)
    requires IsRun(Start(), steps)
  {
    var s := After(Start(), steps);
    && Inv(s)
    && (s.listener.Checked? ==>
          && LastCheck(steps).Some? && s.listener == Checked(Registering(steps).value, Restarts(steps))
          && (!s.listener.restart ==> s.listener.pool in s.record))
    && forall pool :: IssuedOk(steps, s, pool)
  }

  predicate IssuedOk(steps: seq<Step>, s: State, pool: string)
    requires IsRun(Start(), steps)
  {
    match LastIssued(steps, pool)
    case None => pool !in s.record
    case Some(id) => pool in s.record && s.record[pool].next == id + 1
  }

  lemma {:induction false} LivePool(live: seq<Channel>, pool: string)
    ensures CountLive(live, pool) == 0 <==> !PoolLive(live, pool)
  {
    if live != [] {
      var n := |live| - 1;
      LivePool(live[..n], pool);
      if PoolLive(live[..n], pool) {
        var i :| 0 <= i < n && live[..n][i].pool == pool;
        assert live[i].pool == pool;
      }
      if PoolLive(live, pool) && live[n].pool != pool {
        var i :| 0 <= i < |live| && live[i].pool == pool;
        assert live[..n][i].pool == pool;
      }
    }
  }

  lemma {:induction false} RunTracks(steps: seq<Step>)
    requires IsRun(Start(), steps)
    ensures Tracks(steps)
    decreases |steps|
  {
    if steps != [] {
      var n := |steps| - 1;
      var before, step := steps[..n], steps[n];
      assert steps == before + [step];
      RunSnoc(Start(), before, step);
      RunTracks(before);
      hide IsRun, After, Tracks;
      match step
      case Check(pool) => CheckTracks(before, pool);
      case Register => RegisterTracks(before);
      case Retire(k) => RetireTracks(before, k);
    }
  }

  lemma CheckTracks(before: seq<Step>, pool: string)
    requires IsRun(Start(), before + [Check(pool)]) && IsRun(Start(), before) && Tracks(before)
    ensures Tracks(before + [Check(pool)])
  {
    var steps, s := before + [Check(pool)], After(Start(), before);
    RunSnoc(Start(), before, Check(pool));
    CheckInv(s, pool);
    assert steps[..|before|] == before;
    LivePool(s.live, pool);
    assert CountsOf(s, pool).active == CountLive(s.live, pool);
    assert IssuedOk(before, s, pool);
    hide IsRun, After, Inv, CountLive;
    forall p ensures IssuedOk(steps, After(Start(), steps), p) { assert IssuedOk(before, s, p); }
  }

  lemma RegisterTracks(before: seq<Step>)
    requires IsRun(Start(), before + [Register]) && IsRun(Start(), before) && Tracks(before)
    ensures Tracks(before + [Register])
  {
    var steps, s := before + [Register], After(Start(), before);
    RunSnoc(Start(), before, Register);
    RegisterInv(s);
    assert steps[..|before|] == before;
    hide IsRun, After, Inv, CountLive;
    forall p ensures IssuedOk(steps, After(Start(), steps), p) { assert IssuedOk(before, s, p); }
  }

  lemma RetireTracks(before: seq<Step>, k: nat)
    requires IsRun(Start(), before + [Retire(k)]) && IsRun(Start(), before) && Tracks(before)
    ensures Tracks(before + [Retire(k)])
  {
    var steps, s := before + [Retire(k)], After(Start(), before);
    RunSnoc(Start(), before, Retire(k));
    RetireInv(s, k);
    assert steps[..|before|] == before;
    if LastCheck(before).Some? { assert steps[..LastCheck(before).value] == before[..LastCheck(before).value]; }
    var pool := s.live[k].pool;
    LivePool(s.live, pool);
    assert CountsOf(s, pool).active == CountLive(s.live, pool);
    hide IsRun, After, Inv, CountLive;
    forall p ensures IssuedOk(steps, After(Start(), steps), p) { assert IssuedOk(before, s, p); }
  }

  /** In every run a registration adds one channel: number 0 if its pool had no live channel when the listener
      tested it, and otherwise the number after the one that the pool's previous registration was given. */
  lemma RegisterHandsOut(steps: seq<Step>)
    requires IsRun(Start(), steps + [Register])
    ensures IsRun(Start(), steps) && LastCheck(steps).Some?
    ensures var pool := Registering(steps).value;
      && (!Restarts(steps) ==> LastIssued(steps, pool).Some?)
      && After(Start(), steps + [Register]).live ==
          After(Start(), steps).live + [Channel(pool, if Restarts(steps) then 0 else LastIssued(steps, pool).value + 1)]
  {
    RunSnoc(Start(), steps, Register);
    RunTracks(steps);
    var s := After(Start(), steps);
    var pool := Registering(steps).value;
    assert IssuedOk(steps, s, pool);
    assert (steps + [Register])[..|steps|] == steps;
  }
}
