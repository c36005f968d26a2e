/** What every reachable state of a channel without deletes keeps, and what getKV may return. */
module ChannelSafety {
  import opened Channel

  /** The value of the last set of k that the store accepted. */
  function LastStored(log: seq<Entry>, k: string): Option<string> {
    if log == [] then None
    else
      var e := log[|log| - 1];
      if e.key == k && e.fate.Stored? then Some(e.value) else LastStored(log[..|log| - 1], k)
  }

  predicate NoDel(c: Client) { forall i :: 0 <= i < |c.todo| ==> !c.todo[i].Del? }

  predicate Away(pc: ClientPc) { pc.Waiting? || pc.Returning? }

  /** Where client i may be, given the token and whether the buffer holds a get. */
  predicate PcOk(c: Client, t: Token, i: nat, getting: bool) {
    && NoDel(c)
    && (c.todo == [] ==> c.pc.Waiting?)
    && (c.pc.AwaitBack? || c.pc.Copying? || c.pc.Releasing? || c.pc.Returning? ==> c.todo[0].Get?)
    && (c.pc.WroteCtrl? || c.pc.WroteKey? ==> !c.todo[0].Close?)
    && (match t
        case Free => Away(c.pc)
        case Held(j) => if i == j then c.pc.HaveToken? || c.pc.WroteCtrl? || c.pc.WroteKey? ||
            c.pc.Posting? else Away(c.pc)
        case Asked(j) => if i == j && getting then c.pc.AwaitBack? else Away(c.pc)
        case Served(j) => if i == j && getting then c.pc.AwaitBack? else Away(c.pc)
        case Answered(j) => if i == j then c.pc.AwaitBack? else Away(c.pc)
        case Reading(j) => if i == j then c.pc.Copying? || c.pc.Releasing? else Away(c.pc))
  }

  /** One token: each semaphore and each party agrees with where it is. */
  predicate TokenOk(s: State) {
    && s.semServer == (if s.token.Free? then 1 else 0)
    && s.semReq == (if s.token.Asked? then 1 else 0)
    && s.semBack == (if s.token.Answered? then 1 else 0)
    && (if s.token.Served? then s.server.Dispatch? || s.server.PostServer? || s.server.PostBack? || s.server.ClosePost?
        else s.server.Idle? || s.server.Exited?)
    && (!s.token.Free? ==> s.token.i < |s.clients|)
    && s.spare == 0
    && (forall i :: 0 <= i < |s.clients| ==> PcOk(s.clients[i], s.token, i, s.buffer.ctrl.SigGet?))
  }

  /** The request in the buffer is the one the token holder is making. */
  predicate BufferOk(s: State) {
    match s.token
    case Held(i) =>
      && i < |s.clients| && s.clients[i].todo != []
      && var c, call := s.clients[i], s.clients[i].todo[0];
      && (call.Get? ==> c.seen == s.log)
      && (c.pc.WroteCtrl? || c.pc.WroteKey? || c.pc.Posting? ==> s.buffer.ctrl == SignalOf(call))
      && ((c.pc.WroteKey? || c.pc.Posting?) && !call.Close? && !call.Del? ==> s.buffer.key == s.prefix + call.key)
      && (c.pc.Posting? && call.Set? ==> s.buffer.value == call.value)
      && (c.pc.Posting? && call.Get? ==> s.buffer.value == "")
    case Asked(i) => RequestOk(s, i)
    case Served(i) =>
      && (s.server.Dispatch? ==> RequestOk(s, i))
      && (s.server.PostServer? ==> s.buffer.ctrl.SigSet?)
      && (s.server.ClosePost? ==> s.buffer.ctrl.SigClose?)
      && (s.server.PostBack? ==> s.buffer.ctrl.SigGet? && Asking(s, i) && AnswerOk(s, s.buffer.key, s.buffer.value))
    case Answered(i) => Asking(s, i) && AnswerOk(s, s.buffer.key, s.buffer.value)
    case Reading(i) =>
      && i < |s.clients|
      && (s.clients[i].pc.Copying? ==> Asking(s, i) && AnswerOk(s, s.buffer.key, s.buffer.value))
    case Free => true
  }

  predicate RequestOk(s: State, i: nat) {
    && !s.buffer.ctrl.SigDel?
    && (s.buffer.ctrl.SigGet? ==> Asking(s, i) && s.buffer.value == "")
  }

  /** Client i is in getKV for the key in the buffer, and nobody has taken the Server semaphore since. */
  predicate Asking(s: State, i: nat) {
    && i < |s.clients| && s.clients[i].todo != [] && s.clients[i].todo[0].Get?
    && s.buffer.key == s.prefix + s.clients[i].todo[0].key && s.clients[i].seen == s.log
  }

  /** What a get must answer: nothing if the item was gone; else the value another channel gave the key since the
      last set accepted here; else the value of that set; else nothing. */
  function Expected(log: seq<Entry>, lookup: Lookup): string {
    if lookup.gone then ""
    else match lookup.outside
      case Some(v) => v
      case None => match LastStored(log, lookup.key) case Some(v) => v case None => ""
  }

  predicate AnswerOk(s: State, k: string, v: string) {
    s.lookup.key == k && v == Expected(s.log, s.lookup)
  }

  /** A set whose fate is open is the newest one, and it is the request in the token's hands. */
  predicate PendingOk(s: State) {
    && (forall j :: 0 <= j < |s.log| - 1 ==> !s.log[j].fate.Pending?)
    && var last := |s.log| - 1;
    match s.token
    case Held(i) =>
      && i < |s.clients| && s.clients[i].todo != []
      && var call := s.clients[i].todo[0];
      if call.Set? then s.log != [] && s.log[last] == Entry(s.prefix + call.key, call.value, Pending)
      else s.log != [] ==> !s.log[last].fate.Pending?
    case Asked(i) => PendingInBuffer(s)
    case Served(i) => if s.server.Dispatch? then PendingInBuffer(s) else s.log != [] ==> !s.log[last].fate.Pending?
    case _ => s.log != [] ==> !s.log[last].fate.Pending?
  }

  predicate PendingInBuffer(s: State) {
    var last := |s.log| - 1;
    if s.buffer.ctrl.SigSet? then s.log != [] && s.log[last] == Entry(s.buffer.key, s.buffer.value, Pending)
    else s.log != [] ==> !s.log[last].fate.Pending?
  }

  /** The store holds what the last write of each key left, unless that is gone. */
  ghost predicate StoreOk(s: State) {
    forall k: string ::
      if k in s.store then k !in s.lost && s.store[k] == Expected(s.log, LookedUp(s, k)) &&
          (k in s.outside || LastStored(s.log, k).Some?)
      else k in s.lost || (LastStored(s.log, k).None? && k !in s.outside)
  }

  /** What a reader copied out of the buffer, against the sets ordered before it. */
  predicate CopyOk(prefix: string, key: string, copied: string, seen: seq<Entry>, lookup: Lookup) {
    lookup.key == prefix + key && copied == Expected(seen, lookup)
  }

  predicate RepliesOk(prefix: string, c: Client) {
    && (c.pc.Releasing? || c.pc.Returning? ==>
          c.todo != [] && c.todo[0].Get? && CopyOk(prefix, c.todo[0].key, c.copied, c.seen, c.lookup))
    && forall r :: r in c.replies ==> CopyOk(prefix, r.key, r.copied, r.seen, r.lookup)
  }

  ghost predicate Inv(s: State) {
    && TokenOk(s) && BufferOk(s) && PendingOk(s) && StoreOk(s)
    && forall i :: 0 <= i < |s.clients| ==> RepliesOk(s.prefix, s.clients[i])
  }

  predicate DelFree(work: seq<seq<Call>>) {
    forall i, j :: 0 <= i < |work| && 0 <= j < |work[i]| ==> !work[i][j].Del?
  }

  lemma InitInv(prefix: string, work: seq<seq<Call>>)
    requires DelFree(work)
    ensures Inv(Init(prefix, work))
  {
  }

  // ---- each step keeps the invariant

  lemma ClientTokenOk(s: State, i: nat)
    requires TokenOk(s) && Enabled(s, ClientStep(i)) && BufferOk(s)
    ensures TokenOk(Move(s, ClientStep(i)))
  {
    var s' := Move(s, ClientStep(i));
    forall j | 0 <= j < |s.clients| ensures PcOk(s'.clients[j], s'.token, j, s'.buffer.ctrl.SigGet?) {
      ClientPcOk(s, i, j);
    }
  }

  lemma ClientPcOk(s: State, i: nat, j: nat)
    requires TokenOk(s) && Enabled(s, ClientStep(i)) && BufferOk(s) && j < |s.clients|
    ensures var s' := Move(s, ClientStep(i)); PcOk(s'.clients[j], s'.token, j, s'.buffer.ctrl.SigGet?)
  {
    assert PcOk(s.clients[i], s.token, i, s.buffer.ctrl.SigGet?);
    assert PcOk(s.clients[j], s.token, j, s.buffer.ctrl.SigGet?);
  }

  lemma ClientBufferOk(s: State, i: nat)
    requires TokenOk(s) && BufferOk(s) && Enabled(s, ClientStep(i))
    ensures BufferOk(Move(s, ClientStep(i)))
  {
    assert PcOk(s.clients[i], s.token, i, s.buffer.ctrl.SigGet?);
    hide Expected, NoDel, LastStored;
  }

  lemma ClientPendingOk(s: State, i: nat)
    requires TokenOk(s) && BufferOk(s) && PendingOk(s) && Enabled(s, ClientStep(i))
    ensures PendingOk(Move(s, ClientStep(i)))
  {
    assert PcOk(s.clients[i], s.token, i, s.buffer.ctrl.SigGet?);
    hide AnswerOk, Expected, LastStored, NoDel, Asking;
  }

  lemma ClientStoreOk(s: State, i: nat)
    requires TokenOk(s) && StoreOk(s) && Enabled(s, ClientStep(i))
    ensures StoreOk(Move(s, ClientStep(i)))
  {
  }

  lemma ServerTokenOk(s: State, stored: bool)
    requires TokenOk(s) && BufferOk(s) && Enabled(s, ServerStep(stored))
    ensures TokenOk(Move(s, ServerStep(stored)))
  {
  }

  lemma ServerStoreOk(s: State, stored: bool)
    requires TokenOk(s) && BufferOk(s) && PendingOk(s) && StoreOk(s) && Enabled(s, ServerStep(stored))
    ensures StoreOk(Move(s, ServerStep(stored)))
  {
  }

  lemma ServerBufferOk(s: State, stored: bool)
    requires TokenOk(s) && BufferOk(s) && StoreOk(s) && PendingOk(s) && Enabled(s, ServerStep(stored))
    ensures BufferOk(Move(s, ServerStep(stored)))
  {
  }

  lemma ServerPendingOk(s: State, stored: bool)
    requires TokenOk(s) && BufferOk(s) && PendingOk(s) && Enabled(s, ServerStep(stored))
    ensures PendingOk(Move(s, ServerStep(stored)))
  {
  }

  lemma RepliesKept(s: State, step: Step)
    requires Inv(s) && Enabled(s, step)
    ensures var s' := Move(s, step); forall i :: 0 <= i < |s'.clients| ==> RepliesOk(s'.prefix, s'.clients[i])
  {
  }

  lemma EnvironmentInv(s: State, step: Step)
    requires Inv(s) && Enabled(s, step) && (step.Evict? || step.Foreign?)
    ensures Inv(Move(s, step))
  {
  }

  /** Every step keeps the invariant. */
  lemma MoveInv(s: State, step: Step)
    requires Inv(s) && Enabled(s, step)
    ensures Inv(Move(s, step))
  {
    hide TokenOk, BufferOk, PendingOk, StoreOk, RepliesOk, PcOk, ClientMove, ServerMove;
    match step
    case ClientStep(i) =>
      ClientTokenOk(s, i);
      ClientBufferOk(s, i);
      ClientPendingOk(s, i);
      ClientStoreOk(s, i);
      RepliesKept(s, step);
    case ServerStep(stored) =>
      ServerTokenOk(s, stored);
      ServerBufferOk(s, stored);
      ServerPendingOk(s, stored);
      ServerStoreOk(s, stored);
      RepliesKept(s, step);
    case _ => EnvironmentInv(s, step);
  }

  lemma {:induction false} RunInv(s: State, steps: seq<Step>)
    requires Inv(s) && IsRun(s, steps)
    ensures Inv(After(s, steps))
    decreases |steps|
  {
    if steps != [] {
      MoveInv(s, steps[0]);
      RunInv(Move(s, steps[0]), steps[1..]);
    }
  }

  ghost predicate Reachable(s: State, prefix: string, work: seq<seq<Call>>) {
    exists steps :: IsRun(Init(prefix, work), steps) && s == After(Init(prefix, work), steps)
  }

  lemma ReachableInv(s: State, prefix: string, work: seq<seq<Call>>)
    requires DelFree(work) && Reachable(s, prefix, work)
    ensures Inv(s)
  {
    var steps :| IsRun(Init(prefix, work), steps) && s == After(Init(prefix, work), steps);
    InitInv(prefix, work);
    RunInv(Init(prefix, work), steps);
  }

  // ---- mutual exclusion

  /** A party that is reading or writing the shared struct. */
  predicate Touches(s: State, i: int) {
    if i == -1 then !s.server.Idle? && !s.server.Exited?
    else 0 <= i < |s.clients| && InCritical(s.clients[i].pc)
  }

  predicate Awaits(s: State, i: int) { 0 <= i < |s.clients| && s.clients[i].pc.AwaitBack? }

  /** At most one of the clients and the server (party -1) is in a critical section, then no semaphore can be
      taken, and only the client that asked can take a posted answer. */
  lemma MutualExclusion(s: State, prefix: string, work: seq<seq<Call>>, i: int, j: int)
    requires DelFree(work) && Reachable(s, prefix, work)
    ensures Touches(s, i) && Touches(s, j) ==> i == j
    ensures Touches(s, i) ==> s.semReq == 0 && s.semServer == 0 && s.semBack == 0
    ensures Awaits(s, i) && Awaits(s, j) ==> i == j
    ensures Awaits(s, i) && Enabled(s, ClientStep(i)) ==>
      s.token == Answered(i) && s.buffer.key == s.prefix + s.clients[i].todo[0].key
  {
    ReachableInv(s, prefix, work);
    if 0 <= i < |s.clients| { assert PcOk(s.clients[i], s.token, i, s.buffer.ctrl.SigGet?); }
    if 0 <= j < |s.clients| { assert PcOk(s.clients[j], s.token, j, s.buffer.ctrl.SigGet?); }
  }

  // ---- what a get sees

  /** When client i is about to copy its answer, the buffer holds what the get must answer by the sets ordered
      before it and the server's lookup of its own key. All those sets have been acted on. */
  lemma GetSeesLastStored(s: State, prefix: string, work: seq<seq<Call>>, i: nat)
    requires DelFree(work) && Reachable(s, prefix, work) && i < |s.clients| && s.clients[i].pc.Copying?
    ensures s.clients[i].todo != [] && s.clients[i].todo[0].Get? && s.clients[i].seen == s.log
    ensures s.lookup.key == s.prefix + s.clients[i].todo[0].key && s.buffer.value == Expected(s.log, s.lookup)
    ensures forall e :: e in s.log ==> !e.fate.Pending?
  {
    ReachableInv(s, prefix, work);
    assert PcOk(s.clients[i], s.token, i, s.buffer.ctrl.SigGet?);
    assert s.token == Reading(i);
  }

  function LastSet(log: seq<Entry>, k: string): Option<string> {
    if log == [] then None
    else if log[|log| - 1].key == k then Some(log[|log| - 1].value)
    else LastSet(log[..|log| - 1], k)
  }

  /** How many sets there are up to the last one of k. */
  function LastPlace(log: seq<Entry>, k: string): (n: nat)
    ensures n <= |log| && (n > 0 ==> log[n - 1].key == k)
  {
    if log == [] then 0 else if log[|log| - 1].key == k then |log| else LastPlace(log[..|log| - 1], k)
  }

  /** The last accepted value of k is its last set value exactly when there is no set of k, or the store took
      the last one, or the store had accepted the same value before. */
  lemma {:induction false} LastStoredIsLastSet(log: seq<Entry>, k: string)
    ensures var n := LastPlace(log, k);
      LastStored(log, k) == LastSet(log, k) <==>
        n == 0 || log[n - 1].fate.Stored? || LastStored(log[..n - 1], k) == Some(log[n - 1].value)
  {
    if log != [] && log[|log| - 1].key != k {
      var m, n := |log| - 1, LastPlace(log, k);
      LastStoredIsLastSet(log[..m], k);
      assert n > 0 ==> log[..m][..n - 1] == log[..n - 1];
    }
  }

  // ---- what getKV returns

  /** Only client g calls getKV. */
  predicate SoleGetter(s: State, g: nat) {
    forall i, j :: 0 <= i < |s.clients| && i != g && 0 <= j < |s.clients[i].todo| ==> !s.clients[i].todo[j].Get?
  }

  predicate OwnValue(c: Client, getValue: string) {
    && (c.pc.Releasing? || c.pc.Returning? ==> getValue == c.copied)
    && forall r :: r in c.replies ==> r.value == r.copied
  }

  lemma SoleGetterKept(s: State, step: Step, g: nat)
    requires SoleGetter(s, g) && Enabled(s, step)
    ensures SoleGetter(Move(s, step), g)
  {
  }

  lemma OwnValueStep(s: State, step: Step, g: nat)
    requires TokenOk(s) && SoleGetter(s, g) && g < |s.clients| && OwnValue(s.clients[g], s.getValue) && Enabled(s, step)
    ensures OwnValue(Move(s, step).clients[g], Move(s, step).getValue)
  {
    hide NoDel, SignalOf;
    match step
    case ClientStep(i) => assert PcOk(s.clients[i], s.token, i, s.buffer.ctrl.SigGet?);
    case ServerStep(_) => hide PcOk;
    case _ =>
  }

  lemma SoleGetterStep(s: State, step: Step, g: nat)
    requires Inv(s) && SoleGetter(s, g) && g < |s.clients| && OwnValue(s.clients[g], s.getValue) && Enabled(s, step)
    ensures SoleGetter(Move(s, step), g) && OwnValue(Move(s, step).clients[g], Move(s, step).getValue)
  {
    hide SoleGetter, OwnValue, TokenOk, BufferOk, PendingOk, StoreOk, RepliesOk;
    SoleGetterKept(s, step, g);
    OwnValueStep(s, step, g);
  }

  lemma {:induction false} SoleGetterRun(s: State, steps: seq<Step>, g: nat)
    requires Inv(s) && SoleGetter(s, g) && g < |s.clients| && OwnValue(s.clients[g], s.getValue) && IsRun(s, steps)
    ensures var s' := After(s, steps); OwnValue(s'.clients[g], s'.getValue)
    decreases |steps|
  {
    if steps != [] {
      SoleGetterStep(s, steps[0], g);
      MoveInv(s, steps[0]);
      SoleGetterRun(Move(s, steps[0]), steps[1..], g);
    }
  }

  /** When one thread makes all the getKV calls on a client object, every one of them returns exactly what it
      must, by the setKVs that took the Server semaphore first and the server's lookup. */
  lemma RepliesAreLastStored(prefix: string, work: seq<seq<Call>>, steps: seq<Step>, g: nat)
    requires DelFree(work) && IsRun(Init(prefix, work), steps) && SoleGetter(Init(prefix, work), g) && g < |work|
    ensures forall r :: r in After(Init(prefix, work), steps).clients[g].replies ==>
      CopyOk(prefix, r.key, r.value, r.seen, r.lookup)
  {
    InitInv(prefix, work);
    RunInv(Init(prefix, work), steps);
    SoleGetterRun(Init(prefix, work), steps, g);
    PrefixStays(Init(prefix, work), steps);
    var s := After(Init(prefix, work), steps);
    assert RepliesOk(s.prefix, s.clients[g]);
  }

  lemma {:induction false} PrefixStays(s: State, steps: seq<Step>)
    requires IsRun(s, steps)
    ensures After(s, steps).prefix == s.prefix
    decreases |steps|
  {
    if steps != [] { PrefixStays(Move(s, steps[0]), steps[1..]); }
  }

  // ---- a key that nobody evicts or overwrites

  predicate Disturbs(step: Step, k: string) {
    (step.Evict? || step.Foreign?) && step.key == k
  }

  predicate Calm(l: Lookup, k: string) { l.key == k ==> !l.gone && l.outside.None? }

  predicate Undisturbed(s: State, k: string) {
    && k !in s.lost && k !in s.outside && Calm(s.lookup, k)
    && forall i :: 0 <= i < |s.clients| ==> ClientUndisturbed(s.clients[i], k)
  }

  predicate ClientUndisturbed(c: Client, k: string) {
    Calm(c.lookup, k) && forall r :: r in c.replies ==> Calm(r.lookup, k)
  }

  lemma ClientMoveUndisturbed(s: State, i: nat, k: string)
    requires Enabled(s, ClientStep(i)) && ClientUndisturbed(s.clients[i], k) && Calm(s.lookup, k)
    ensures var s' := ClientMove(s, i);
      && ClientUndisturbed(s'.clients[i], k) && s'.clients == s.clients[i := s'.clients[i]]
      && s'.lost == s.lost && s'.outside == s.outside && s'.lookup == s.lookup
  {
    hide Calm, SignalOf;
  }

  lemma ServerMoveUndisturbed(s: State, stored: bool, k: string)
    requires Enabled(s, ServerStep(stored)) && (s.server.Dispatch? ==> !s.buffer.ctrl.SigDel?) && !s.server.DelPost?
    requires k !in s.lost && k !in s.outside && Calm(s.lookup, k)
    ensures var s' := ServerMove(s, stored); k !in s'.lost && k !in s'.outside && Calm(s'.lookup, k)
  {
  }

  lemma UndisturbedStep(s: State, step: Step, k: string)
    requires Inv(s) && Undisturbed(s, k) && Enabled(s, step) && !Disturbs(step, k)
    ensures Undisturbed(Move(s, step), k)
  {
    hide ClientMove, ServerMove, Calm, ClientUndisturbed, PcOk, PendingOk, StoreOk, RepliesOk, AnswerOk;
    match step
    case ClientStep(i) =>
      ClientMoveUndisturbed(s, i, k);
    case ServerStep(stored) =>
      ServerMoveUndisturbed(s, stored, k);
    case _ =>
  }

  lemma {:induction false} UndisturbedRun(s: State, steps: seq<Step>, k: string)
    requires Inv(s) && Undisturbed(s, k) && IsRun(s, steps) && forall step :: step in steps ==> !Disturbs(step, k)
    ensures Undisturbed(After(s, steps), k)
    decreases |steps|
  {
    hide Inv, Undisturbed;
    if steps != [] {
      UndisturbedStep(s, steps[0], k);
      MoveInv(s, steps[0]);
      UndisturbedRun(Move(s, steps[0]), steps[1..], k);
    }
  }

  /** In a run in which k is neither evicted nor written by another channel, every get of k returns the last value
      the store accepted for k among the sets ordered before it, and is empty only if there is none or it is empty. */
  lemma UndisturbedReplies(prefix: string, work: seq<seq<Call>>, steps: seq<Step>, g: nat, k: string)
    requires DelFree(work) && IsRun(Init(prefix, work), steps) && SoleGetter(Init(prefix, work), g) && g < |work|
    requires forall step :: step in steps ==> !Disturbs(step, prefix + k)
    ensures forall r :: r in After(Init(prefix, work), steps).clients[g].replies && r.key == k ==>
      r.value == match LastStored(r.seen, prefix + k) case Some(v) => v case None => ""
  {
    hide IsRun, After;
    RepliesAreLastStored(prefix, work, steps, g);
    InitInv(prefix, work);
    UndisturbedRun(Init(prefix, work), steps, prefix + k);
  }
}
