/** Channel progress: every schedule ends, none gets stuck, and a client that closes is served to the end. */
module ChannelProgress {
  import opened Channel
  import opened ChannelSafety

  // ---- every schedule ends

  function PcRank(pc: ClientPc): nat {
    match pc
    case Waiting => 19
    case HaveToken => 18
    case WroteCtrl => 17
    case WroteKey => 16
    case Posting => 15
    case AwaitBack => 9
    case Copying => 8
    case Releasing => 7
    case Returning => 6
  }

  function ClientRank(c: Client): nat {
    if c.todo == [] then 0 else 20 * (|c.todo| - 1) + PcRank(c.pc)
  }

  function Ranks(cs: seq<Client>): nat {
    if cs == [] then 0 else Ranks(cs[..|cs| - 1]) + ClientRank(cs[|cs| - 1])
  }

  function ServerRank(pc: ServerPc): nat {
    match pc
    case Idle => 0
    case Dispatch => 3
    case PostServer => 2
    case PostBack => 2
    case DelPost => 2
    case FallPost => 1
    case ClosePost => 1
    case Exited => 0
  }

  /** Steps still possible. */
  function Work(s: State): nat { Ranks(s.clients) + 4 * s.semReq + ServerRank(s.server) }

  lemma {:induction false} RanksUpdate(cs: seq<Client>, i: nat, c: Client)
    requires i < |cs|
    ensures Ranks(cs[i := c]) + ClientRank(cs[i]) == Ranks(cs) + ClientRank(c)
  {
    var n := |cs| - 1;
    if i == n {
      assert cs[i := c][..n] == cs[..n];
    } else {
      assert cs[i := c][..n] == cs[..n][i := c];
      RanksUpdate(cs[..n], i, c);
    }
  }

  predicate Real(step: Step) { step.ClientStep? || step.ServerStep? }

  /** Every step of a client or of the server, deletes included, lowers the measure. */
  lemma MoveWork(s: State, step: Step)
    requires Enabled(s, step)
    ensures if Real(step) then Work(Move(s, step)) < Work(s) else Work(Move(s, step)) == Work(s)
  {
    hide ClientMove, ClientRank;
    if step.ClientStep? {
      ClientMoveRank(s, step.i);
      RanksUpdate(s.clients, step.i, Move(s, step).clients[step.i]);
    }
  }

  lemma ClientMoveRank(s: State, i: nat)
    requires Enabled(s, ClientStep(i))
    ensures var s' := ClientMove(s, i);
      && s'.clients == s.clients[i := s'.clients[i]] && s'.server == s.server
      && ClientRank(s'.clients[i]) + 4 * s'.semReq < ClientRank(s.clients[i]) + 4 * s.semReq
  {
  }

  function RealSteps(steps: seq<Step>): nat {
    if steps == [] then 0 else (if Real(steps[0]) then 1 else 0) + RealSteps(steps[1..])
  }

  /** No schedule takes more steps of clients and server than the workload's measure. */
  lemma {:induction false} SchedulesEnd(s: State, steps: seq<Step>)
    requires IsRun(s, steps)
    ensures RealSteps(steps) + Work(After(s, steps)) <= Work(s)
    decreases |steps|
  {
    if steps != [] {
      MoveWork(s, steps[0]);
      SchedulesEnd(Move(s, steps[0]), steps[1..]);
    }
  }

  // ---- no schedule gets stuck

  predicate Finished(c: Client) { c.todo == [] }

  /** While the server runs, some client or the server can move until every client has finished. */
  lemma NeverStuck(s: State, prefix: string, work: seq<seq<Call>>, i: nat) returns (step: Step)
    requires DelFree(work) && Reachable(s, prefix, work) && !s.server.Exited?
    requires i < |s.clients| && (!Finished(s.clients[i]) || s.token != Free)
    ensures Real(step) && Enabled(s, step)
  {
    ReachableInv(s, prefix, work);
    var j := if s.token.Free? then i else s.token.i;
    assert PcOk(s.clients[j], s.token, j, s.buffer.ctrl.SigGet?);
    match s.token
    case Free => step := ClientStep(i);
    case Held(_) => step := ClientStep(j);
    case Asked(_) => step := ServerStep(true);
    case Served(_) => step := ServerStep(true);
    case Answered(_) => step := ClientStep(j);
    case Reading(_) => step := ClientStep(j);
  }

  /** The last unfinished call is the close; the server exits, or is about to, only after it. */
  ghost predicate CloseInv(s: State) {
    && |s.clients| == 1
    && var c := s.clients[0];
    && (forall j :: 0 <= j < |c.todo| ==> (c.todo[j].Close? <==> j == |c.todo| - 1))
    && (c.todo != [] ==> !s.server.Exited? && !s.server.ClosePost?)
    && (match s.token
        case Asked(_) => s.buffer.ctrl.SigClose? <==> c.todo == []
        case Served(_) => if s.server.Dispatch? then s.buffer.ctrl.SigClose? <==> c.todo == []
                          else s.server.ClosePost? <==> c.todo == []
        case Free => s.server.Exited? <==> c.todo == []
        case _ => c.todo != [])
  }

  lemma CloseStep(s: State, step: Step)
    requires Inv(s) && CloseInv(s) && Enabled(s, step)
    ensures CloseInv(Move(s, step))
  {
    assert PcOk(s.clients[0], s.token, 0, s.buffer.ctrl.SigGet?);
  }

  lemma {:induction false} CloseRun(s: State, steps: seq<Step>)
    requires Inv(s) && CloseInv(s) && IsRun(s, steps)
    ensures Inv(After(s, steps)) && CloseInv(After(s, steps))
    decreases |steps|
  {
    if steps != [] {
      CloseStep(s, steps[0]);
      MoveInv(s, steps[0]);
      CloseRun(Move(s, steps[0]), steps[1..]);
    }
  }

  /** A single client that makes calls and then closes: wherever its run stops, with nothing left that a
      client or the server could do, all calls have returned, every set has been acted on, and the server has
      exited; and the server never exits while a call is unfinished or a set is pending. */
  lemma SingleClientCompletes(prefix: string, calls: seq<Call>, steps: seq<Step>)
    requires forall c :: c in calls ==> c.Set? || c.Get?
    requires IsRun(Init(prefix, [calls + [Close]]), steps)
    ensures var s := After(Init(prefix, [calls + [Close]]), steps);
      && (s.server.Exited? ==> Finished(s.clients[0]) && forall e :: e in s.log ==> !e.fate.Pending?)
      && ((forall step :: Enabled(s, step) ==> !Real(step)) ==> s.server.Exited?)
  {
    var work := [calls + [Close]];
    var s0 := Init(prefix, work);
    var todo := calls + [Close];
    forall j | 0 <= j < |todo| ensures !todo[j].Del? && (todo[j].Close? <==> j == |todo| - 1) {
      if j < |calls| { assert todo[j] in calls; }
    }
    InitInv(prefix, work);
    assert s0.clients[0].todo == todo;
    CloseRun(s0, steps);
    var s := After(s0, steps);
    if forall step :: Enabled(s, step) ==> !Real(step) {
      if !s.server.Exited? {
        var step := NeverStuck(s, prefix, work, 0);
      }
    }
  }

  // ---- running several calls

  lemma {:induction false} RunsJoin(s: State, a: seq<Step>, b: seq<Step>)
    requires IsRun(s, a) && IsRun(After(s, a), b)
    ensures IsRun(s, a + b) && After(s, a + b) == After(After(s, a), b)
    decreases |a|
  {
    if a == [] {
      assert a + b == b;
    } else {
      RunsJoin(Move(s, a[0]), a[1..], b);
      assert (a + b)[1..] == a[1..] + b;
    }
  }

  ghost predicate Reaches(s: State, t: State) {
    exists steps :: IsRun(s, steps) && After(s, steps) == t
  }

  lemma ReachesSelf(s: State)
    ensures Reaches(s, s)
  {
    assert IsRun(s, []) && After(s, []) == s;
  }

  lemma ReachesMove(s: State, t: State, step: Step)
    requires Reaches(s, t) && Enabled(t, step)
    ensures Reaches(s, Move(t, step))
  {
    var steps :| IsRun(s, steps) && After(s, steps) == t;
    var one := [step];
    assert one[1..] == [] && IsRun(Move(t, step), []);
    assert IsRun(t, one) && After(t, one) == After(Move(t, step), []);
    RunsJoin(s, steps, one);
  }

  lemma ReachesTrans(s: State, t: State, u: State)
    requires Reaches(s, t) && Reaches(t, u)
    ensures Reaches(s, u)
  {
    var a :| IsRun(s, a) && After(s, a) == t;
    var b :| IsRun(t, b) && After(t, b) == u;
    RunsJoin(s, a, b);
  }

  /** From the wait on Server to the request post. */
  lemma AskRun(s: State, i: nat) returns (t: State)
    requires i < |s.clients| && s.clients[i].todo != [] && s.clients[i].pc.Waiting? && s.semServer > 0
    requires !s.clients[i].todo[0].Close?
    ensures Reaches(s, t)
    ensures var c, call := s.clients[i], s.clients[i].todo[0];
      t == s.(semServer := s.semServer - 1, semReq := s.semReq + 1, token := Asked(i),
              buffer := Buffer(SignalOf(call), s.prefix + call.key, if call.Set? then call.value else ""),
              log := if call.Set? then s.log + [Entry(s.prefix + call.key, call.value, Pending)] else s.log,
              clients := s.clients[i := if call.Get? then c.(seen := s.log, pc := AwaitBack)
                                        else Done(c.(seen := s.log))])
  {
    hide IsRun, After, Reaches, ServerMove;
    ReachesSelf(s);
    var t1 := Move(s, ClientStep(i));
    ReachesMove(s, s, ClientStep(i));
    var t2 := Move(t1, ClientStep(i));
    ReachesMove(s, t1, ClientStep(i));
    var t3 := Move(t2, ClientStep(i));
    ReachesMove(s, t2, ClientStep(i));
    var t4 := Move(t3, ClientStep(i));
    ReachesMove(s, t3, ClientStep(i));
    t := Move(t4, ClientStep(i));
    ReachesMove(s, t4, ClientStep(i));
  }

  /** A setKV and the server's reaction to it. */
  lemma SetRun(s: State, i: nat) returns (t: State)
    requires i < |s.clients| && s.clients[i].todo != [] && s.clients[i].pc.Waiting? && s.semServer == 1
    requires s.clients[i].todo[0].Set? && s.server.Idle?
    ensures Reaches(s, t)
    ensures var c, call := s.clients[i], s.clients[i].todo[0];
      var k := s.prefix + call.key;
      t == s.(token := Free, semServer := 1,
              buffer := Buffer(SigSet, k, call.value), log := s.log + [Entry(k, call.value, Stored)],
              store := s.store[k := call.value], lost := s.lost - {k}, outside := s.outside - {k},
              clients := s.clients[i := Done(c.(seen := s.log))])
  {
    hide IsRun, After, Reaches;
    var a := AskRun(s, i);
    ReachesMove(s, a, ServerStep(true));
    var b := Move(a, ServerStep(true));
    ReachesMove(s, b, ServerStep(true));
    var c := Move(b, ServerStep(true));
    ReachesMove(s, c, ServerStep(true));
    t := Move(c, ServerStep(true));
  }

  /** A getKV up to the post of Server: the result is still to be built from the member getValue. */
  lemma GetRun(s: State, i: nat) returns (t: State)
    requires i < |s.clients| && s.clients[i].todo != [] && s.clients[i].pc.Waiting? && s.semServer == 1 &&
        s.semBack == 0
    requires s.clients[i].todo[0].Get? && s.server.Idle? && s.prefix + s.clients[i].todo[0].key in s.store
    ensures Reaches(s, t)
    ensures var c, call := s.clients[i], s.clients[i].todo[0];
      var k := s.prefix + call.key;
      var l := LookedUp(s, k);
      t == s.(token := Free, semServer := 1, buffer := Buffer(SigGet, k, s.store[k]), getValue := s.store[k],
          lookup := l,
              clients := s.clients[i := c.(seen := s.log, pc := Returning, copied := s.store[k], lookup := l)])
  {
    hide IsRun, After, Reaches;
    var a := AskRun(s, i);
    ReachesMove(s, a, ServerStep(true));
    var b := Move(a, ServerStep(true));
    ReachesMove(s, b, ServerStep(true));
    var c := Move(b, ServerStep(true));
    ReachesMove(s, c, ServerStep(true));
    var d := Move(c, ServerStep(true));
    ReachesMove(s, d, ClientStep(i));
    var e := Move(d, ClientStep(i));
    ReachesMove(s, e, ClientStep(i));
    var f := Move(e, ClientStep(i));
    ReachesMove(s, f, ClientStep(i));
    t := Move(f, ClientStep(i));
  }
}
