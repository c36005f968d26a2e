/** What a delete does to a channel: the case SIG_DEL runs on into SIG_CLOSE. */
module ChannelDeletes {
  import opened Channel
  import opened ChannelSafety
  import opened ChannelProgress

  /** A dispatched delete posts Server twice and ends the service loop. */
  lemma DeleteStopsServer(s: State) returns (t: State)
    requires s.server.Dispatch? && s.buffer.ctrl.SigDel?
    ensures Reaches(s, t) && t.server.Exited? && t.semServer == s.semServer + 2 && Tokens(t) == Tokens(s) + 1
    ensures t.clients == s.clients && t.semBack == s.semBack && t.semReq == s.semReq && t.buffer == s.buffer
    ensures t.store == s.store - {s.buffer.key} && t.getValue == s.getValue && t.outside == s.outside
  {
    ReachesSelf(s);
    ReachesMove(s, s, ServerStep(true));
    var a := Move(s, ServerStep(true));
    ReachesMove(s, a, ServerStep(true));
    var b := Move(a, ServerStep(true));
    ReachesMove(s, b, ServerStep(true));
    t := Move(b, ServerStep(true));
  }

  /** After that no getKV that has not taken an answer ever returns. */
  lemma {:induction false} NoAnswerAfterExit(s: State, steps: seq<Step>, i: nat)
    requires s.server.Exited? && s.semBack == 0 && IsRun(s, steps) && i < |s.clients|
    requires !s.clients[i].pc.Copying? && !s.clients[i].pc.Releasing? && !s.clients[i].pc.Returning?
    ensures After(s, steps).server.Exited? && After(s, steps).clients[i].replies == s.clients[i].replies
    decreases |steps|
  {
    if steps != [] { NoAnswerAfterExit(Move(s, steps[0]), steps[1..], i); }
  }

  // ---- mutual exclusion

  /** At most one party is between taking the token and passing it on. */
  predicate Exclusive(s: State) { Critical(s.clients) + ServerCritical(s.server) <= 1 }

  /** Only the threads in `deleters` call delKV. */
  predicate OnlyDeleters(work: seq<seq<Call>>, deleters: set<nat>) {
    forall i: nat, j :: i < |work| && 0 <= j < |work[i]| && work[i][j].Del? ==> i in deleters
  }

  /** However n threads mix their calls, no two parties are at the shared struct at a time. */
  ghost predicate AlwaysExclusive(prefix: string, n: nat, deleters: set<nat>) {
    forall work, steps ::
      |work| == n && OnlyDeleters(work, deleters) && IsRun(Init(prefix, work), steps) ==>
        Exclusive(After(Init(prefix, work), steps))
  }

  predicate SpareOk(s: State) { s.spare == 0 || (s.spare == 1 && s.server.Exited?) }

  lemma {:induction false} SpareRun(s: State, steps: seq<Step>)
    requires SpareOk(s) && IsRun(s, steps)
    ensures SpareOk(After(s, steps)) && |After(s, steps).clients| == |s.clients|
    decreases |steps|
  {
    if steps != [] { SpareRun(Move(s, steps[0]), steps[1..]); }
  }

  lemma {:induction false} CriticalBound(cs: seq<Client>)
    ensures Critical(cs) <= |cs|
  {
    if cs != [] { CriticalBound(cs[..|cs| - 1]); }
  }

  lemma {:induction false} TwoCritical(cs: seq<Client>, i: nat, j: nat)
    requires i < j < |cs| && InCritical(cs[i].pc) && InCritical(cs[j].pc)
    ensures Critical(cs) >= 2
  {
    var n := |cs| - 1;
    if j < n {
      TwoCritical(cs[..n], i, j);
    } else {
      OneCritical(cs[..n], i);
    }
  }

  lemma {:induction false} OneCritical(cs: seq<Client>, i: nat)
    requires i < |cs| && InCritical(cs[i].pc)
    ensures Critical(cs) >= 1
  {
    if i < |cs| - 1 { OneCritical(cs[..|cs| - 1], i); }
  }

  lemma NoDeletersExclusive(prefix: string, work: seq<seq<Call>>, steps: seq<Step>)
    requires DelFree(work) && IsRun(Init(prefix, work), steps)
    ensures Exclusive(After(Init(prefix, work), steps))
  {
    InitInv(prefix, work);
    RunInv(Init(prefix, work), steps);
    TokensConserved(prefix, work, steps);
  }

  lemma OneThreadExclusive(prefix: string, work: seq<seq<Call>>, steps: seq<Step>)
    requires |work| <= 1 && IsRun(Init(prefix, work), steps)
    ensures Exclusive(After(Init(prefix, work), steps))
  {
    var s := After(Init(prefix, work), steps);
    SpareRun(Init(prefix, work), steps);
    TokensConserved(prefix, work, steps);
    CriticalBound(s.clients);
  }

  /** Thread i deletes twice, thread j reads. */
  function DeleteWork(n: nat, i: nat, j: nat): (work: seq<seq<Call>>)
    requires i < n && j < n && i != j
    ensures |work| == n && work[i] == [Del("a"), Del("a")] && work[j] == [Get("a")]
  {
    seq(n, k => if k == i then [Del("a"), Del("a")] else if k == j then [Get("a")] else [])
  }

  lemma DeleteRun(prefix: string, n: nat, i: nat, j: nat) returns (t: State)
    requires i < n && j < n && i != j
    ensures Reaches(Init(prefix, DeleteWork(n, i, j)), t) && |t.clients| == n && t.semServer == 2
    ensures t.clients[i].pc.Waiting? && t.clients[i].todo == [Del("a")]
    ensures t.clients[j].pc.Waiting? && t.clients[j].todo == [Get("a")]
  {
    hide IsRun, After, Reaches, DeleteWork;
    var s0 := Init(prefix, DeleteWork(n, i, j));
    var a := AskRun(s0, i);
    ReachesMove(s0, a, ServerStep(true));
    var b := Move(a, ServerStep(true));
    t := DeleteStopsServer(b);
    ReachesTrans(s0, b, t);
  }

  /** After a delete two threads hold a token each. */
  lemma DeleterNotExclusive(prefix: string, n: nat, i: nat, j: nat, deleters: set<nat>)
    requires i < n && j < n && i != j && i in deleters
    ensures !AlwaysExclusive(prefix, n, deleters)
  {
    var work := DeleteWork(n, i, j);
    assert OnlyDeleters(work, deleters);
    var s0 := Init(prefix, work);
    hide IsRun, After, Reaches, DeleteWork, Init, OnlyDeleters;
    var t := DeleteRun(prefix, n, i, j);
    ReachesMove(s0, t, ClientStep(i));
    var u := Move(t, ClientStep(i));
    ReachesMove(s0, u, ClientStep(j));
    var v := Move(u, ClientStep(j));
    TwoCritical(v.clients, if i < j then i else j, if i < j then j else i);
    assert !Exclusive(v);
    ReachedNotExclusive(prefix, n, work, deleters, v);
  }

  lemma ReachedNotExclusive(prefix: string, n: nat, work: seq<seq<Call>>, deleters: set<nat>, v: State)
    requires |work| == n && OnlyDeleters(work, deleters) && Reaches(Init(prefix, work), v) && !Exclusive(v)
    ensures !AlwaysExclusive(prefix, n, deleters)
  {
    hide OnlyDeleters, Exclusive, Init;
    var steps :| IsRun(Init(prefix, work), steps) && After(Init(prefix, work), steps) == v;
  }

  /** Mutual exclusion holds in every run of n threads exactly when none of them calls delKV, or there is but one
      thread. */
  lemma DeletersExactly(prefix: string, n: nat, deleters: set<nat>)
    requires forall i :: i in deleters ==> i < n
    ensures AlwaysExclusive(prefix, n, deleters) <==> deleters == {} || n <= 1
  {
    hide Exclusive, IsRun, After;
    if deleters != {} && n > 1 {
      var i :| i in deleters;
      DeleterNotExclusive(prefix, n, i, if i == 0 then 1 else 0, deleters);
    } else {
      forall work, steps | |work| == n && OnlyDeleters(work, deleters) && IsRun(Init(prefix, work), steps)
        ensures Exclusive(After(Init(prefix, work), steps))
      {
        if n <= 1 {
          OneThreadExclusive(prefix, work, steps);
        } else {
          assert DelFree(work);
          NoDeletersExclusive(prefix, work, steps);
        }
      }
    }
  }

  // ---- what can still return

  /** Calls not yet returned. */
  function Left(cs: seq<Client>): nat {
    if cs == [] then 0 else Left(cs[..|cs| - 1]) + |cs[|cs| - 1].todo|
  }

  lemma {:induction false} LeftUpdate(cs: seq<Client>, i: nat, c: Client)
    requires i < |cs|
    ensures Left(cs[i := c]) + |cs[i].todo| == Left(cs) + |c.todo|
  {
    var n := |cs| - 1;
    if i == n {
      assert cs[i := c][..n] == cs[..n];
    } else {
      assert cs[i := c][..n] == cs[..n][i := c];
      LeftUpdate(cs[..n], i, c);
    }
  }

  predicate NoAnswers(s: State) {
    s.server.Exited? && s.semBack == 0 &&
    forall i :: 0 <= i < |s.clients| ==>
      !s.clients[i].pc.Copying? && !s.clients[i].pc.Releasing? && !s.clients[i].pc.Returning?
  }

  lemma StrandedStep(s: State, step: Step)
    requires NoAnswers(s) && Enabled(s, step)
    ensures NoAnswers(Move(s, step))
    ensures var s' := Move(s, step);
      Left(s.clients) + s'.semServer + Critical(s'.clients) <= Left(s'.clients) + s.semServer + Critical(s.clients)
  {
    if step.ClientStep? {
      CriticalUpdate(s.clients, step.i, Move(s, step).clients[step.i]);
      LeftUpdate(s.clients, step.i, Move(s, step).clients[step.i]);
    }
  }

  lemma {:induction false} StrandedRun(s: State, steps: seq<Step>)
    requires NoAnswers(s) && IsRun(s, steps)
    ensures NoAnswers(After(s, steps))
    ensures var s' := After(s, steps);
      Left(s.clients) + s'.semServer + Critical(s'.clients) <= Left(s'.clients) + s.semServer + Critical(s.clients)
    decreases |steps|
  {
    hide NoAnswers, Left, Critical;
    if steps != [] {
      StrandedStep(s, steps[0]);
      StrandedRun(Move(s, steps[0]), steps[1..]);
    }
  }

  /** Once the server has exited and no getKV is on its way back, at most two more calls return, whoever makes
      them, and no getKV does. */
  lemma AtMostTwoReturn(prefix: string, work: seq<seq<Call>>, before: seq<Step>, steps: seq<Step>)
    requires IsRun(Init(prefix, work), before) && NoAnswers(After(Init(prefix, work), before))
    requires IsRun(After(Init(prefix, work), before), steps)
    ensures var s := After(Init(prefix, work), before);
      var s' := After(s, steps);
      && Left(s.clients) <= Left(s'.clients) + 2
      && |s'.clients| == |s.clients|
      && forall i :: 0 <= i < |s.clients| ==> s'.clients[i].replies == s.clients[i].replies
  {
    var s := After(Init(prefix, work), before);
    SpareRun(Init(prefix, work), before);
    TokensConserved(prefix, work, before);
    StrandedRun(s, steps);
    hide IsRun, After, Left;
    forall i: nat | i < |s.clients| ensures After(s, steps).clients[i].replies == s.clients[i].replies {
      NoAnswerAfterExit(s, steps, i);
    }
  }

  // ---- one thread, calls after a delete

  predicate IsSuffix(todo: seq<Call>, all: seq<Call>) { |todo| <= |all| && todo == all[|all| - |todo|..] }

  /** A thread with the calls `todo`, of which those up to a delete come before `rest`. */
  predicate Ahead(todo: seq<Call>, rest: seq<Call>) {
    && |todo| > |rest|
    && var d := |todo| - |rest| - 1;
    && todo[d].Del? && todo[d + 1..] == rest
    && forall j :: 0 <= j < d ==> todo[j].Set? || todo[j].Get?
  }

  function Bit(b: bool): nat { if b then 1 else 0 }

  /** Before the delete has been posted. */
  predicate ServingOk(s: State, rest: seq<Call>) {
    && |s.clients| == 1
    && var c := s.clients[0];
    && Ahead(c.todo, rest) && s.spare == 0
    && s.semReq + s.semServer + s.semBack + Bit(InCritical(c.pc)) + ServerCritical(s.server) == 1
    && (s.server.Idle? || s.server.Dispatch? || s.server.PostServer? || s.server.PostBack?)
    && (s.semReq == 1 || s.server.Dispatch? ==>
          if c.pc.AwaitBack? then s.buffer.ctrl.SigGet? else s.buffer.ctrl.SigSet? && c.pc.Waiting?)
    && (s.semBack == 1 || s.server.PostBack? ==> c.pc.AwaitBack?)
    && (s.server.PostServer? ==> c.pc.Waiting?)
    && (c.pc.AwaitBack? ==> s.semReq == 1 || s.semBack == 1 || s.server.Dispatch? || s.server.PostBack?)
    && (c.pc.AwaitBack? || c.pc.Copying? || c.pc.Releasing? || c.pc.Returning? ==> c.todo[0].Get?)
    && (c.pc.WroteCtrl? || c.pc.WroteKey? || c.pc.Posting? ==> s.buffer.ctrl == SignalOf(c.todo[0]))
  }

  /** The thread once its delete has been posted: none of the calls it has since returned from is a getKV. */
  predicate ThreadOk(c: Client, rest: seq<Call>) {
    && IsSuffix(c.todo, rest)
    && (forall j :: 0 <= j < |rest| - |c.todo| ==> !rest[j].Get?)
    && !c.pc.Copying? && !c.pc.Releasing? && !c.pc.Returning?
    && (c.todo == [] ==> c.pc.Waiting?)
    && (c.pc.AwaitBack? ==> c.todo[0].Get?)
    && (c.pc.WroteCtrl? || c.pc.WroteKey? ==> !c.todo[0].Close?)
  }

  /** How many requests it has posted since. */
  function Posted(c: Client, rest: seq<Call>): int { |rest| - |c.todo| + Bit(c.pc.AwaitBack?) }

  /** From the post of the delete on: each of the server's two posts lets one request be made. */
  predicate StoppingOk(s: State, rest: seq<Call>) {
    && |s.clients| == 1 && s.semBack == 0
    && var c := s.clients[0];
    && ThreadOk(c, rest)
    && var posted := Posted(c, rest);
    && var unused := s.semServer + Bit(InCritical(c.pc));
    match s.server
    case Idle => s.semReq == 1 && unused == 0 && posted == 0 && s.buffer.ctrl.SigDel?
    case Dispatch => s.semReq == 0 && unused == 0 && posted == 0 && s.buffer.ctrl.SigDel?
    case DelPost => s.semReq == 0 && unused == 0 && posted == 0
    case FallPost => s.semReq == posted && unused + posted == 1
    case Exited => s.semReq == posted && unused + posted == 2
    case _ => false
  }

  lemma ServingClient(s: State, rest: seq<Call>)
    requires ServingOk(s, rest) && Enabled(s, ClientStep(0))
    ensures ServingOk(Move(s, ClientStep(0)), rest) || StoppingOk(Move(s, ClientStep(0)), rest)
  {
    var c := s.clients[0];
    AheadNext(c.todo, rest);
    hide Ahead;
    if c.pc.Posting? && c.todo[0].Del? {
      hide IsSuffix;
      assert ThreadOk(Move(s, ClientStep(0)).clients[0], rest);
      assert StoppingOk(Move(s, ClientStep(0)), rest);
    } else {
      hide StoppingOk, IsSuffix;
      assert ServingOk(Move(s, ClientStep(0)), rest);
    }
  }

  lemma AheadNext(todo: seq<Call>, rest: seq<Call>)
    requires Ahead(todo, rest)
    ensures todo[0].Set? || todo[0].Get? || todo[0].Del?
    ensures if todo[0].Del? then todo[1..] == rest && IsSuffix(rest, rest) else Ahead(todo[1..], rest)
  {
  }

  lemma ServingServer(s: State, stored: bool, rest: seq<Call>)
    requires ServingOk(s, rest) && Enabled(s, ServerStep(stored))
    ensures ServingOk(Move(s, ServerStep(stored)), rest)
  {
    hide Ahead, SignalOf;
  }

  lemma ServingStep(s: State, step: Step, rest: seq<Call>)
    requires ServingOk(s, rest) && Enabled(s, step)
    ensures ServingOk(Move(s, step), rest) || StoppingOk(Move(s, step), rest)
  {
    match step
    case ClientStep(i) => ServingClient(s, rest);
    case ServerStep(stored) => ServingServer(s, stored, rest);
    case _ => hide ClientMove, ServerMove, Ahead;
  }

  lemma SuffixNext(todo: seq<Call>, all: seq<Call>)
    requires IsSuffix(todo, all) && todo != []
    ensures IsSuffix(todo[1..], all) && todo[0] == all[|all| - |todo|]
  {
  }

  lemma ThreadStep(s: State, rest: seq<Call>)
    requires |s.clients| == 1 && s.semBack == 0 && ThreadOk(s.clients[0], rest) && Enabled(s, ClientStep(0))
    ensures var s' := ClientMove(s, 0);
      var c, c' := s.clients[0], s'.clients[0];
      && |s'.clients| == 1 && ThreadOk(c', rest) && s'.server == s.server && s'.semBack == 0
      && s'.semReq - s.semReq == Posted(c', rest) - Posted(c, rest)
      && s'.semServer + Bit(InCritical(c'.pc)) + Posted(c', rest) ==
          s.semServer + Bit(InCritical(c.pc)) + Posted(c, rest)
      && s.semServer + Bit(InCritical(c.pc)) > 0
  {
    SuffixNext(s.clients[0].todo, rest);
    hide IsSuffix, SignalOf;
  }

  lemma StoppingClient(s: State, rest: seq<Call>)
    requires StoppingOk(s, rest) && Enabled(s, ClientStep(0))
    ensures StoppingOk(Move(s, ClientStep(0)), rest)
  {
    ThreadStep(s, rest);
    hide ClientMove, ThreadOk, Posted, Bit, InCritical;
  }

  lemma StoppingServer(s: State, stored: bool, rest: seq<Call>)
    requires StoppingOk(s, rest) && Enabled(s, ServerStep(stored))
    ensures StoppingOk(Move(s, ServerStep(stored)), rest)
  {
    hide IsSuffix, SignalOf;
  }

  lemma StoppingStep(s: State, step: Step, rest: seq<Call>)
    requires StoppingOk(s, rest) && Enabled(s, step)
    ensures StoppingOk(Move(s, step), rest)
  {
    match step
    case ClientStep(i) => StoppingClient(s, rest);
    case ServerStep(stored) => StoppingServer(s, stored, rest);
    case _ => hide ClientMove, ServerMove, IsSuffix;
  }

  lemma {:induction false} DeletingRun(s: State, steps: seq<Step>, rest: seq<Call>)
    requires (ServingOk(s, rest) || StoppingOk(s, rest)) && IsRun(s, steps)
    ensures ServingOk(After(s, steps), rest) || StoppingOk(After(s, steps), rest)
    decreases |steps|
  {
    hide ServingOk, StoppingOk;
    if steps != [] {
      if ServingOk(s, rest) { ServingStep(s, steps[0], rest); } else { StoppingStep(s, steps[0], rest); }
      DeletingRun(Move(s, steps[0]), steps[1..], rest);
    }
  }

  /** How many of the calls after a delete return: the first two, up to the first getKV. */
  function Passing(rest: seq<Call>): (n: nat)
    ensures n <= |rest| && n <= 2
  {
    if rest == [] || rest[0].Get? then 0
    else if |rest| == 1 || rest[1].Get? then 1 else 2
  }

  ghost predicate Stopped(s: State) { forall step :: Enabled(s, step) ==> !Real(step) }

  lemma StoppedServing(s: State, rest: seq<Call>)
    requires ServingOk(s, rest)
    ensures !Stopped(s)
  {
    assert Enabled(s, ServerStep(true)) || Enabled(s, ClientStep(0));
    assert Real(ServerStep(true)) && Real(ClientStep(0));
  }

  lemma StoppedStopping(s: State, rest: seq<Call>)
    requires StoppingOk(s, rest) && Stopped(s)
    ensures s.server.Exited? && s.clients[0].todo == rest[Passing(rest)..]
  {
    assert Real(ServerStep(true)) && Real(ClientStep(0));
    assert !Enabled(s, ServerStep(true)) && !Enabled(s, ClientStep(0));
    assert s.server.Exited?;
  }

  /** A thread that deletes for the first time and goes on: when nothing can move any more, the server has exited
      and of the calls after the delete exactly the first two have returned, or those before a getKV if it comes
      sooner. */
  lemma DeleteLetsTwoPass(prefix: string, calls: seq<Call>, k: string, rest: seq<Call>, steps: seq<Step>)
    requires forall c :: c in calls ==> c.Set? || c.Get?
    requires IsRun(Init(prefix, [calls + [Del(k)] + rest]), steps)
    ensures var s := After(Init(prefix, [calls + [Del(k)] + rest]), steps);
      Stopped(s) ==> s.server.Exited? && |s.clients| == 1 && s.clients[0].todo == rest[Passing(rest)..]
  {
    hide IsRun, After, Stopped, Passing;
    var todo := calls + [Del(k)] + rest;
    var s0 := Init(prefix, [todo]);
    assert Ahead(todo, rest);
    assert s0.clients[0].todo == todo;
    assert ServingOk(s0, rest);
    DeletingRun(s0, steps, rest);
    var s := After(s0, steps);
    if Stopped(s) {
      if ServingOk(s, rest) { StoppedServing(s, rest); }
      StoppedStopping(s, rest);
    }
  }
}
