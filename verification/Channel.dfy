/** The shared-memory request channel: three semaphores, one buffer, any number of client threads on one
    CachelibClient, and one server thread. Every semaphore operation and every buffer access is a step. */
module Channel {
  datatype Call = Set(key: string, value: string) | Get(key: string) | Del(key: string) | Close

  datatype Signal = SigSet | SigGet | SigDel | SigClose

  /** struct shm_stru: what both sides read and write. */
  datatype Buffer = Buffer(ctrl: Signal, key: string, value: string)

  datatype ClientPc =
    | Waiting      // before the wait on the Server semaphore
    | HaveToken    // about to write ctrl
    | WroteCtrl    // about to write key
    | WroteKey     // about to write or clear value
    | Posting      // about to post the request semaphore
    | AwaitBack    // getKV: before the wait on the GetBack semaphore
    | Copying      // getKV: about to copy value into the member getValue
    | Releasing    // getKV: about to post the Server semaphore
    | Returning    // getKV: about to build the result from getValue

  datatype ServerPc =
    | Idle         // before the wait on the request semaphore
    | Dispatch     // about to act on ctrl
    | PostServer | PostBack
    | DelPost      // SIG_DEL: about to post Server
    | FallPost     // SIG_DEL has no break: about to post Server again in the SIG_CLOSE case
    | ClosePost
    | Exited

  /** A setKV in the order of the Server semaphore, and what set_ made of it. */
  datatype Fate = Pending | Stored | Dropped
  datatype Entry = Entry(key: string, value: string, fate: Fate)

  datatype Option<+T> = None | Some(value: T)

  /** What stood in the way of a key's last setKV on this channel when the server looked the key up: whether the
      item was gone, and the value another channel of the pool had given it since. */
  datatype Lookup = Lookup(key: string, gone: bool, outside: Option<string>)

  /** A finished getKV: its key, what it returned, what it had copied out of the buffer, the setKVs that took
      the Server semaphore before it, and the server's lookup. */
  datatype Reply = Reply(key: string, value: string, copied: string, seen: seq<Entry>, lookup: Lookup)

  datatype Client = Client(
    todo: seq<Call>, pc: ClientPc, replies: seq<Reply>,
    // history, read by no step
    copied: string, seen: seq<Entry>, lookup: Lookup)

  /** Where the token is, and on whose behalf. */
  datatype Token = Free | Held(i: nat) | Asked(i: nat) | Served(i: nat) | Answered(i: nat) | Reading(i: nat)

  datatype State = State(
    prefix: string,
    semReq: nat, semServer: nat, semBack: nat,
    buffer: Buffer, getValue: string,
    server: ServerPc, store: map<string, string>,
    clients: seq<Client>,
    // history, read by no step
    token: Token, log: seq<Entry>, lost: set<string>, outside: map<string, string>, lookup: Lookup, spare: nat)

  /** Steps: a client thread, the server (set_ may fail to allocate), an eviction, a set by any other channel. */
  datatype Step = ClientStep(i: nat) | ServerStep(stored: bool) | Evict(key: string) | Foreign(key: string,
      value: string)

  function SignalOf(c: Call): Signal {
    match c case Set(_, _) => SigSet case Get(_) => SigGet case Del(_) => SigDel case Close => SigClose
  }

  const UNTOUCHED := Lookup("", false, None)

  function Start(todo: seq<Call>): Client { Client(todo, Waiting, [], "", [], UNTOUCHED) }

  function Init(prefix: string, work: seq<seq<Call>>): State {
    State(prefix, 0, 1, 0, Buffer(SigSet, "", ""), "", Idle, map[],
          seq(|work|, i requires 0 <= i < |work| => Start(work[i])),
          Free, [], {}, map[], UNTOUCHED, 0)
  }

  predicate Enabled(s: State, step: Step) {
    match step
    case ClientStep(i) =>
      && i < |s.clients| && s.clients[i].todo != []
      && (s.clients[i].pc.Waiting? ==> s.semServer > 0)
      && (s.clients[i].pc.AwaitBack? ==> s.semBack > 0)
      && (s.clients[i].pc.WroteCtrl? || s.clients[i].pc.WroteKey? ==> !s.clients[i].todo[0].Close?)
      && (s.clients[i].pc.AwaitBack? || s.clients[i].pc.Returning? ==> s.clients[i].todo[0].Get?)
    case ServerStep(_) => !s.server.Exited? && (s.server.Idle? ==> s.semReq > 0)
    case Evict(k) => k in s.store
    case Foreign(_, _) => true
  }

  function Done(c: Client): Client
    requires c.todo != []
  {
    c.(todo := c.todo[1..], pc := Waiting)
  }

  /** setKV, getKV, delKV and the destructor. */
  function ClientMove(s: State, i: nat): (s': State)
    requires Enabled(s, ClientStep(i))
    ensures |s'.clients| == |s.clients|
  {
    var c := s.clients[i];
    var call := c.todo[0];
    match c.pc
    case Waiting =>
      s.(semServer := s.semServer - 1, token := Held(i),
         clients := s.clients[i := c.(pc := HaveToken, seen := s.log)],
         log := if call.Set? then s.log + [Entry(s.prefix + call.key, call.value, Pending)] else s.log)
    case HaveToken =>
      s.(buffer := s.buffer.(ctrl := SignalOf(call)),
         clients := s.clients[i := c.(pc := if call.Close? then Posting else WroteCtrl)])
    case WroteCtrl =>
      s.(buffer := s.buffer.(key := s.prefix + call.key), clients := s.clients[i := c.(pc := WroteKey)])
    case WroteKey =>
      s.(buffer := s.buffer.(value := if call.Set? then call.value else ""),
         clients := s.clients[i := c.(pc := Posting)])
    case Posting =>
      s.(semReq := s.semReq + 1, token := Asked(i),
         clients := s.clients[i := if call.Get? then c.(pc := AwaitBack) else Done(c)])
    case AwaitBack =>
      s.(semBack := s.semBack - 1, token := Reading(i), clients := s.clients[i := c.(pc := Copying)])
    case Copying =>
      s.(getValue := s.buffer.value,
         clients := s.clients[i := c.(pc := Releasing, copied := s.buffer.value, lookup := s.lookup)])
    case Releasing =>
      s.(semServer := s.semServer + 1, token := Free, clients := s.clients[i := c.(pc := Returning)])
    case Returning =>
      var r := Reply(call.key, s.getValue, c.copied, c.seen, c.lookup);
      s.(clients := s.clients[i := Done(c).(replies := c.replies + [r])])
  }

  function Resolve(log: seq<Entry>, fate: Fate): seq<Entry> {
    if log == [] then [] else log[|log| - 1 := log[|log| - 1].(fate := fate)]
  }

  function LookedUp(s: State, k: string): Lookup {
    Lookup(k, k in s.lost, if k in s.outside then Some(s.outside[k]) else None)
  }

  /** The loop of sharedMemCtl. */
  function ServerMove(s: State, stored: bool): (s': State)
    requires Enabled(s, ServerStep(stored))
    ensures s'.clients == s.clients
  {
    match s.server
    case Idle =>
      s.(semReq := s.semReq - 1, server := Dispatch, token := if s.token.Asked? then Served(s.token.i) else s.token)
    case Dispatch =>
      (match s.buffer.ctrl
       case SigSet =>
         s.(server := PostServer,
            store := if stored then s.store[s.buffer.key := s.buffer.value] else s.store,
            lost := if stored then s.lost - {s.buffer.key} else s.lost,
            outside := if stored then s.outside - {s.buffer.key} else s.outside,
            log := Resolve(s.log, if stored then Stored else Dropped))
       case SigGet =>
         s.(server := PostBack, lookup := LookedUp(s, s.buffer.key),
            buffer := if s.buffer.key in s.store then s.buffer.(value := s.store[s.buffer.key]) else s.buffer)
       case SigDel => s.(server := DelPost, store := s.store - {s.buffer.key}, lost := s.lost + {s.buffer.key})
       case SigClose => s.(server := ClosePost))
    case PostServer => s.(semServer := s.semServer + 1, server := Idle, token := Free)
    case PostBack =>
      s.(semBack := s.semBack + 1, server := Idle, token := if s.token.Served? then Answered(s.token.i) else s.token)
    case DelPost => s.(semServer := s.semServer + 1, server := FallPost, token := Free)
    case FallPost => s.(semServer := s.semServer + 1, server := Exited, spare := s.spare + 1)
    case ClosePost => s.(semServer := s.semServer + 1, server := Exited, token := Free)
    case Exited => s
  }

  function Move(s: State, step: Step): (s': State)
    requires Enabled(s, step)
    ensures |s'.clients| == |s.clients|
  {
    match step
    case ClientStep(i) => ClientMove(s, i)
    case ServerStep(stored) => ServerMove(s, stored)
    case Evict(k) => s.(store := s.store - {k}, lost := s.lost + {k})
    case Foreign(k, v) => s.(store := s.store[k := v], lost := s.lost - {k}, outside := s.outside[k := v])
  }

  /** A run: every step enabled when it is taken. */
  predicate IsRun(s: State, steps: seq<Step>)
    decreases |steps|
  {
    steps != [] ==> Enabled(s, steps[0]) && IsRun(Move(s, steps[0]), steps[1..])
  }

  function After(s: State, steps: seq<Step>): (s': State)
    requires IsRun(s, steps)
    ensures |s'.clients| == |s.clients|
    decreases |steps|
  {
    if steps == [] then s else After(Move(s, steps[0]), steps[1..])
  }

  // ---- token conservation

  predicate InCritical(pc: ClientPc) {
    pc.HaveToken? || pc.WroteCtrl? || pc.WroteKey? || pc.Posting? || pc.Copying? || pc.Releasing?
  }

  function Critical(cs: seq<Client>): nat {
    if cs == [] then 0 else Critical(cs[..|cs| - 1]) + if InCritical(cs[|cs| - 1].pc) then 1 else 0
  }

  function ServerCritical(pc: ServerPc): nat {
    if pc.Idle? || pc.FallPost? || pc.Exited? then 0 else 1
  }

  function Tokens(s: State): nat {
    s.semReq + s.semServer + s.semBack + Critical(s.clients) + ServerCritical(s.server)
  }

  lemma {:induction false} CriticalUpdate(cs: seq<Client>, i: nat, c: Client)
    requires i < |cs|
    ensures Critical(cs[i := c]) + (if InCritical(cs[i].pc) then 1 else 0) ==
            Critical(cs) + (if InCritical(c.pc) then 1 else 0)
  {
    var n := |cs| - 1;
    if i == n {
      assert cs[i := c][..n] == cs[..n];
    } else {
      assert cs[i := c][..n] == cs[..n][i := c];
      CriticalUpdate(cs[..n], i, c);
    }
  }

  lemma {:induction false} NobodyCritical(cs: seq<Client>)
    requires forall i :: 0 <= i < |cs| ==> !InCritical(cs[i].pc)
    ensures Critical(cs) == 0
  {
    if cs != [] { NobodyCritical(cs[..|cs| - 1]); }
  }

  /** Each step moves tokens; only the second post of a SIG_DEL makes one. */
  lemma MoveTokens(s: State, step: Step)
    requires Enabled(s, step)
    ensures Tokens(Move(s, step)) - Move(s, step).spare == Tokens(s) - s.spare
  {
    match step
    case ClientStep(i) => ClientTokens(s, i);
    case ServerStep(_) => hide Critical;
    case _ =>
  }

  lemma ClientTokens(s: State, i: nat)
    requires Enabled(s, ClientStep(i))
    ensures Tokens(ClientMove(s, i)) == Tokens(s) && ClientMove(s, i).spare == s.spare
  {
    var c := ClientMove(s, i).clients[i];
    assert ClientMove(s, i).clients == s.clients[i := c];
    CriticalUpdate(s.clients, i, c);
    hide Critical;
  }

  lemma {:induction false} RunTokens(s: State, steps: seq<Step>)
    requires IsRun(s, steps)
    ensures Tokens(After(s, steps)) - After(s, steps).spare == Tokens(s) - s.spare
    decreases |steps|
  {
    if steps != [] {
      MoveTokens(s, steps[0]);
      RunTokens(Move(s, steps[0]), steps[1..]);
    }
  }

  /** In every reachable state the semaphore counts and the parties inside a critical section sum to one,
      except that the first served delete leaves a second token behind for good. */
  lemma TokensConserved(prefix: string, work: seq<seq<Call>>, steps: seq<Step>)
    requires IsRun(Init(prefix, work), steps)
    ensures Tokens(After(Init(prefix, work), steps)) == 1 + After(Init(prefix, work), steps).spare
  {
    NobodyCritical(Init(prefix, work).clients);
    RunTokens(Init(prefix, work), steps);
  }
}
