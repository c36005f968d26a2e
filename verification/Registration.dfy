/** Handing out channel ids while server threads retire them, and the names of the live channels. */
module Registration {
  import opened Decimal

  datatype Channel = Channel(pool: string, id: nat)

  /** poolRecord: how many channels of a pool are live, and the next id. */
  datatype Counts = Counts(active: int, next: nat)

  /** The listener thread reads poolRecord before it takes the lock. */
  datatype Listener = Listening | Checked(pool: string, restart: bool)

  datatype State = State(record: map<string, Counts>, listener: Listener, live: seq<Channel>)

  datatype Step = Check(pool: string) | Register | Retire(k: nat)

  function Start(): State { State(map[], Listening, []) }

  predicate Enabled(s: State, step: Step) {
    match step
    case Check(_) => s.listener.Listening?
    case Register => s.listener.Checked?
    case Retire(k) => k < |s.live|
  }

  /** std::map's operator[] creates a zero pair. */
  function CountsOf(s: State, pool: string): Counts {
    if pool in s.record then s.record[pool] else Counts(0, 0)
  }

  /** Check is the unlocked test of a registration; Register and Retire are the locked sections. */
  function Move(s: State, step: Step): State
    requires Enabled(s, step)
  {
    match step
    case Check(pool) => s.(listener := Checked(pool, pool !in s.record || s.record[pool].active == 0))
    case Register =>
      var pool := s.listener.pool;
      var c := if s.listener.restart then Counts(1, 0)
               else CountsOf(s, pool).(active := CountsOf(s, pool).active + 1);
      State(s.record[pool := c.(next := c.next + 1)], Listening, s.live + [Channel(pool, c.next)])
    case Retire(k) =>
      var pool := s.live[k].pool;
      var c := CountsOf(s, pool);
      State(s.record[pool := c.(active := c.active - 1)], s.listener, s.live[..k] + s.live[k + 1..])
  }

  predicate IsRun(s: State, steps: seq<Step>)
    decreases |steps|
  {
    steps != [] ==> Enabled(s, steps[0]) && IsRun(Move(s, steps[0]), steps[1..])
  }

  function After(s: State, steps: seq<Step>): State
    requires IsRun(s, steps)
    decreases |steps|
  {
    if steps == [] then s else After(Move(s, steps[0]), steps[1..])
  }

  function CountLive(live: seq<Channel>, pool: string): nat {
    if live == [] then 0
    else CountLive(live[..|live| - 1], pool) + if live[|live| - 1].pool == pool then 1 else 0
  }

  lemma {:induction false} CountJoin(a: seq<Channel>, b: seq<Channel>, pool: string)
    ensures CountLive(a + b, pool) == CountLive(a, pool) + CountLive(b, pool)
  {
    if b == [] {
      assert a + b == a;
    } else {
      assert (a + b)[..|a + b| - 1] == a + b[..|b| - 1];
      CountJoin(a, b[..|b| - 1], pool);
    }
  }

  lemma CountWithout(live: seq<Channel>, k: nat, pool: string)
    requires k < |live|
    ensures CountLive(live[..k] + live[k + 1..], pool) ==
      CountLive(live, pool) - (if live[k].pool == pool then 1 else 0)
  {
    assert live == live[..k] + ([live[k]] + live[k + 1..]);
    CountJoin(live[..k], [live[k]] + live[k + 1..], pool);
    CountJoin([live[k]], live[k + 1..], pool);
    CountJoin(live[..k], live[k + 1..], pool);
    assert [live[k]][..0] == [];
    assert CountLive([live[k]], pool) == if live[k].pool == pool then 1 else 0;
  }

  lemma {:induction false} CountZero(live: seq<Channel>, pool: string, i: nat)
    requires CountLive(live, pool) == 0 && i < |live|
    ensures live[i].pool != pool
  {
    if i < |live| - 1 { CountZero(live[..|live| - 1], pool, i); }
  }

  predicate Distinct(live: seq<Channel>) {
    forall i, j :: 0 <= i < j < |live| ==> live[i] != live[j]
  }

  ghost predicate ActiveOk(s: State) { forall pool :: CountsOf(s, pool).active == CountLive(s.live, pool) }

  predicate IdsOk(s: State) {
    forall i :: 0 <= i < |s.live| ==> s.live[i].id < CountsOf(s, s.live[i].pool).next
  }

  predicate RestartOk(s: State) {
    s.listener.Checked? && s.listener.restart ==> CountLive(s.live, s.listener.pool) == 0
  }

  ghost predicate Inv(s: State) { ActiveOk(s) && IdsOk(s) && Distinct(s.live) && RestartOk(s) }

  lemma CheckInv(s: State, pool: string)
    requires Inv(s) && s.listener.Listening?
    ensures Inv(Move(s, Check(pool)))
  {
    assert CountsOf(s, pool).active == CountLive(s.live, pool);
    assert forall p :: CountsOf(Move(s, Check(pool)), p) == CountsOf(s, p);
  }

  lemma RegisterActive(s: State)
    requires ActiveOk(s) && RestartOk(s) && s.listener.Checked?
    ensures ActiveOk(Move(s, Register))
  {
    var s' := Move(s, Register);
    assert s'.live[..|s.live|] == s.live;
    forall p ensures CountsOf(s', p).active == CountLive(s'.live, p) {
      assert CountsOf(s, p).active == CountLive(s.live, p);
    }
  }

  lemma RegisterIds(s: State, i: nat)
    requires IdsOk(s) && RestartOk(s) && s.listener.Checked? && i < |s.live|
    ensures var s' := Move(s, Register);
      s.live[i] != s'.live[|s.live|] && s.live[i].id < CountsOf(s', s.live[i].pool).next
  {
    if s.listener.restart { CountZero(s.live, s.listener.pool, i); }
  }

  lemma RegisterInv(s: State)
    requires Inv(s) && s.listener.Checked?
    ensures Inv(Move(s, Register))
  {
    RegisterActive(s);
    var s' := Move(s, Register);
    hide ActiveOk, CountLive;
    forall i | 0 <= i < |s.live| ensures s.live[i] != s'.live[|s.live|] &&
        s.live[i].id < CountsOf(s', s.live[i].pool).next {
      RegisterIds(s, i);
    }
  }

  lemma RetireActive(s: State, k: nat)
    requires ActiveOk(s) && RestartOk(s) && k < |s.live|
    ensures ActiveOk(Move(s, Retire(k))) && RestartOk(Move(s, Retire(k)))
  {
    var s' := Move(s, Retire(k));
    forall p ensures CountsOf(s', p).active == CountLive(s'.live, p) {
      CountWithout(s.live, k, p);
      assert CountsOf(s, p).active == CountLive(s.live, p);
    }
    if s.listener.Checked? { CountWithout(s.live, k, s.listener.pool); }
  }

  lemma RetireInv(s: State, k: nat)
    requires Inv(s) && k < |s.live|
    ensures Inv(Move(s, Retire(k)))
  {
    RetireActive(s, k);
    var s' := Move(s, Retire(k));
    hide ActiveOk, RestartOk, CountLive;
    forall i | 0 <= i < |s'.live| ensures s'.live[i].id < CountsOf(s', s'.live[i].pool).next {
      assert s'.live[i] == s.live[if i < k then i else i + 1];
    }
    forall i, j | 0 <= i < j < |s'.live| ensures s'.live[i] != s'.live[j] {
      assert s'.live[i] == s.live[if i < k then i else i + 1];
      assert s'.live[j] == s.live[if j < k then j else j + 1];
    }
  }

  lemma {:induction false} RunInv(s: State, steps: seq<Step>)
    requires Inv(s) && IsRun(s, steps)
    ensures Inv(After(s, steps))
    decreases |steps|
  {
    hide Inv, Move;
    if steps != [] {
      match steps[0] {
        case Check(p) => CheckInv(s, p);
        case Register => RegisterInv(s);
        case Retire(k) => RetireInv(s, k);
      }
      RunInv(Move(s, steps[0]), steps[1..]);
    }
  }

  /** However registrations interleave with retiring threads, also between the unlocked test and the lock: a
      pool's active count is the number of its live channels, live channels are pairwise distinct, and a
      registration that restarts the ids finds no live channel of its pool. */
  lemma RegistrationSafe(steps: seq<Step>, pool: string)
    requires IsRun(Start(), steps)
    ensures var s := After(Start(), steps);
      && CountsOf(s, pool).active == CountLive(s.live, pool)
      && Distinct(s.live)
      && (s.listener == Checked(pool, true) ==> forall i :: 0 <= i < |s.live| ==> s.live[i].pool != pool)
  {
    RunInv(Start(), steps);
    var s := After(Start(), steps);
    if s.listener == Checked(pool, true) {
      forall i | 0 <= i < |s.live| ensures s.live[i].pool != pool { CountZero(s.live, pool, i); }
    }
  }

  // ---- names

  /** The shared memory and the request semaphore share a name in different namespaces. */
  datatype Kind = Request | Server | GetBack

  function Suffix(k: Kind): string {
    match k case Request => "" case Server => "_Server" case GetBack => "_getback"
  }

  function NameOf(c: Channel, k: Kind): string { c.pool + "_" + Print(c.id) + Suffix(k) }

  /** The names of the first channel of a pool. */
  lemma FirstNames(pool: string)
    ensures NameOf(Channel(pool, 0), Request) == pool + "_0"
    ensures NameOf(Channel(pool, 0), Server) == pool + "_0_Server"
    ensures NameOf(Channel(pool, 0), GetBack) == pool + "_0_getback"
  {
    assert Print(0) == "0";
    assert pool + "_" + "0" == pool + "_0";
    assert pool + "_0" + "_Server" == pool + "_0_Server";
    assert pool + "_0" + "_getback" == pool + "_0_getback";
  }

  lemma ChannelNameInjective(a: Channel, b: Channel)
    requires NameOf(a, Request) == NameOf(b, Request)
    ensures a == b
  {
    assert NameOf(a, Request) == a.pool + ['_'] + Print(a.id);
    assert NameOf(b, Request) == b.pool + ['_'] + Print(b.id);
    SplitLast(a.pool, Print(a.id), b.pool, Print(b.id), '_');
    PrintInjective(a.id, b.id);
  }

  lemma LastOfName(c: Channel, k: Kind)
    ensures NameOf(c, k) != []
    ensures var last := NameOf(c, k)[|NameOf(c, k)| - 1];
      match k case Request => IsDigit(last) case Server => last == 'r' case GetBack => last == 'k'
  {
    var base := c.pool + "_" + Print(c.id);
    assert k == Request ==> NameOf(c, k) == base;
    assert base[|base| - 1] == Print(c.id)[|Print(c.id)| - 1];
  }

  lemma NameInjective(a: Channel, b: Channel, k: Kind, l: Kind)
    requires NameOf(a, k) == NameOf(b, l)
    ensures a == b && k == l
  {
    LastOfName(a, k);
    LastOfName(b, l);
    assert k == l;
    var x, y, n := NameOf(a, Request), NameOf(b, Request), |Suffix(k)|;
    assert NameOf(a, k) == x + Suffix(k) && NameOf(b, k) == y + Suffix(k);
    assert x == NameOf(a, k)[..|NameOf(a, k)| - n] == y;
    ChannelNameInjective(a, b);
  }

  /** No two live channels share a shared-memory or semaphore name, whatever the pools are called, and the
      three semaphores of one channel differ. */
  lemma LiveNamesDistinct(steps: seq<Step>, i: nat, j: nat, k: Kind, l: Kind)
    requires IsRun(Start(), steps) && i < |After(Start(), steps).live| && j < |After(Start(), steps).live|
    ensures var live := After(Start(), steps).live;
      NameOf(live[i], k) == NameOf(live[j], l) ==> i == j && k == l
  {
    RunInv(Start(), steps);
    var live := After(Start(), steps).live;
    if NameOf(live[i], k) == NameOf(live[j], l) { NameInjective(live[i], live[j], k, l); }
  }
}
