/** Whole runs of tmdb calls against a map. */
module TmdbRuns {
  import opened Bytes
  import opened TmdbData
  import opened TmdbIndex
  import opened Tmdb
  import opened TmdbUpdate
  import opened TmdbStore

  datatype Op =
    | StoreOp(key: Text, value: Text, mode: int, pad: seq<byte>)
    | DeleteOp(key: Text)
    | FetchOp(key: Text)
    | ReopenOp

  datatype Answer = Status(ret: int) | Answered(value: Fetched) | Opened

  /** The store as a map: insert if absent, replace if present, remove, look up. */
  function MapStep(m: map<Text, Text>, op: Op): (map<Text, Text>, Answer) {
    match op
    case StoreOp(k, v, mode, _) =>
      if mode != TDB_INSERT && mode != TDB_REPLACE && mode != TDB_STORE then (m, Status(TDB_ERROR))
      else if !KeyOk(k) || |v| > MAX_RECORD_LEN then (m, Status(TDB_ERROR))
      else if k in m then if mode == TDB_INSERT then (m, Status(TDB_OK)) else (m[k := v], Status(TDB_SUCCESS))
      else if mode == TDB_REPLACE then (m, Status(TDB_OK)) else (InsertSpec(m, k, v), Status(TDB_SUCCESS))
    case DeleteOp(k) =>
      if !KeyOk(k) then (m, Status(TDB_ERROR))
      else if k in m then (m - {k}, Status(TDB_SUCCESS)) else (m, Status(TDB_OK))
    case FetchOp(k) => (m, Answered(if KeyOk(k) && k in m then Found(m[k]) else Absent))
    case ReopenOp => (m, Opened)
  }

  function MapRun(m: map<Text, Text>, ops: seq<Op>): (map<Text, Text>, seq<Answer>)
    decreases |ops|
  {
    if ops == [] then (m, [])
    else
      var (m', a) := MapStep(m, ops[0]);
      var (m'', rest) := MapRun(m', ops[1..]);
      (m'', [a] + rest)
  }

  predicate PadFits(op: Op) {
    op.StoreOp? && KeyOk(op.key) ==> PadOk(op.key, op.pad)
  }

  /** One call on the files. Reopening leaves them alone, as does a fetch. */
  function Step(f: Files, op: Op, how: Addresses): (r: (Files, Answer))
    requires TABLE_END <= |f.idx| && DATA_HEADER <= |f.dat| && PadFits(op)
    ensures TABLE_END <= |r.0.idx| && DATA_HEADER <= |r.0.dat|
  {
    match op
    case StoreOp(k, v, mode, pad) =>
      var (f', ret) := StoreFiles(f, k, v, mode, pad, how);
      (f', Status(ret))
    case DeleteOp(k) =>
      var (f', ret) := RemoveFiles(f, k, how);
      (f', Status(ret))
    case FetchOp(k) => (f, Answered(FetchFiles(f, k)))
    case ReopenOp => (f, Opened)
  }

  function Run(f: Files, ops: seq<Op>, how: Addresses): (r: (Files, seq<Answer>))
    requires TABLE_END <= |f.idx| && DATA_HEADER <= |f.dat| && forall op :: op in ops ==> PadFits(op)
    ensures TABLE_END <= |r.0.idx| && DATA_HEADER <= |r.0.dat|
    decreases |ops|
  {
    if ops == [] then (f, [])
    else
      var (f', a) := Step(f, ops[0], how);
      var (f'', rest) := Run(f', ops[1..], how);
      (f'', [a] + rest)
  }

  const GROWTH: nat := 16 + MAX_RECORD_LEN

  /** Room for n more calls below the largest file offset. */
  predicate Room(f: Files, n: nat) {
    |f.idx| + RECORD * n <= OFF_MAX && |f.dat| + GROWTH * n <= OFF_MAX
  }

  /** Calls whose in-place writes, if any, go to the fields the comments name. */
  predicate Faithful(op: Op, how: Addresses) {
    match op
    case StoreOp(_, _, mode, _) => how.AsCommented? || mode == TDB_INSERT
    case DeleteOp(_) => how.AsCommented?
    case _ => true
  }

  predicate CleanOp(op: Op) { op.StoreOp? ==> Clean(op.key) }

  ghost predicate Good(f: Files, log: seq<Value>, m: map<Text, Text>, tidy: bool) {
    Tmdb.Valid(f, log) && Represents(f, m) && (tidy ==> Tidy(f))
  }

  lemma StoreStep(f: Files, log: seq<Value>, m: map<Text, Text>, op: Op, how: Addresses, tidy: bool)
    returns (log': seq<Value>)
    requires op.StoreOp? && PadFits(op) && Faithful(op, how) && (tidy ==> CleanOp(op))
    requires Good(f, log, m, tidy) && Room(f, 1)
    ensures Good(Step(f, op, how).0, log', MapStep(m, op).0, tidy)
    ensures Step(f, op, how).1 == MapStep(m, op).1
  {
    hide Tmdb.Valid, Tidy, Hash, Inserted, Append, Deleted, Replaced, ValueAt, Find, DataPtr, Answers, InsertSpec;
    var StoreOp(k, v, mode, pad) := op;
    log' := log;
    if KeyOk(k) && |v| <= MAX_RECORD_LEN && (mode == TDB_INSERT || mode == TDB_REPLACE || mode == TDB_STORE) {
      assert View(f, k) == if k in m then Found(m[k]) else Absent;
      if k in m && mode != TDB_INSERT {
        ReplaceRefines(f, log, m, k, v);
        log' := log + [v];
      } else if k !in m && mode != TDB_REPLACE {
        InsertRefines(f, log, m, k, v, pad);
        log' := log + [v];
      }
    }
  }

  lemma DeleteStep(f: Files, log: seq<Value>, m: map<Text, Text>, k: Text, how: Addresses)
    requires how.AsCommented? && Good(f, log, m, true) && Room(f, 1)
    ensures Good(Step(f, DeleteOp(k), how).0, log, MapStep(m, DeleteOp(k)).0, true)
    ensures Step(f, DeleteOp(k), how).1 == MapStep(m, DeleteOp(k)).1
  {
    hide Tmdb.Valid, Tidy, Hash, Inserted, Append, Deleted, Replaced, ValueAt, Find, DataPtr, Answers, InsertSpec, Head;
    assert Represents(f, m);
    if KeyOk(k) {
      assert View(f, k) == if k in m then Found(m[k]) else Absent;
      if k in m { DeleteRefines(f, log, m, k); }
    }
  }

  lemma StepRefines(f: Files, log: seq<Value>, m: map<Text, Text>, op: Op, how: Addresses, tidy: bool)
    returns (log': seq<Value>)
    requires PadFits(op) && Faithful(op, how) && (tidy ==> CleanOp(op)) && (op.DeleteOp? ==> tidy)
    requires Good(f, log, m, tidy) && Room(f, 1)
    ensures Good(Step(f, op, how).0, log', MapStep(m, op).0, tidy)
    ensures Step(f, op, how).1 == MapStep(m, op).1
  {
    match op
    case StoreOp(_, _, _, _) => log' := StoreStep(f, log, m, op, how, tidy);
    case DeleteOp(k) =>
      DeleteStep(f, log, m, k, how);
      log' := log;
    case FetchOp(k) =>
      log' := log;
      if KeyOk(k) { assert View(f, k) == if k in m then Found(m[k]) else Absent; }
    case ReopenOp => log' := log;
  }

  lemma StepRoom(f: Files, op: Op, how: Addresses, n: nat)
    requires TABLE_END <= |f.idx| && DATA_HEADER <= |f.dat| && PadFits(op) && Faithful(op, how) && Room(f, n + 1)
    ensures Room(Step(f, op, how).0, n)
  {
    hide Hash, Inserted, Append, Replaced, ValueAt, Find, DataPtr, Head;
  }

  /** Every run of calls answers as the map does, whatever was there before and whichever handle made the
      calls. With in-place writes at the coded addresses this is claimed for insertions, fetches and reopens;
      with the commented ones, for every mode, and for deletions when every stored key is one that rtrim
      leaves alone. */
  lemma {:induction false} RunRefines(f: Files, log: seq<Value>, m: map<Text, Text>, ops: seq<Op>, how: Addresses,
      tidy: bool)
    returns (log': seq<Value>)
    requires Good(f, log, m, tidy) && Room(f, |ops|)
    requires forall op :: op in ops ==>
      PadFits(op) && Faithful(op, how) && (tidy ==> CleanOp(op)) && (op.DeleteOp? ==> tidy)
    ensures Run(f, ops, how).1 == MapRun(m, ops).1
    ensures Good(Run(f, ops, how).0, log', MapRun(m, ops).0, tidy)
    decreases |ops|
  {
    hide Good, Step, MapStep, Room, Hash;
    log' := log;
    if ops != [] {
      var op := ops[0];
      GoodSizes(f, log, m, tidy);
      RoomForOne(f, |ops|);
      log' := StepRefines(f, log, m, op, how, tidy);
      StepRoom(f, op, how, |ops| - 1);
      log' := RunRefines(Step(f, op, how).0, log', MapStep(m, op).0, ops[1..], how, tidy);
    } else {
      GoodSizes(f, log, m, tidy);
    }
  }

  lemma RoomForOne(f: Files, n: nat)
    requires Room(f, n) && n > 0
    ensures Room(f, 1)
  {
  }

  lemma GoodSizes(f: Files, log: seq<Value>, m: map<Text, Text>, tidy: bool)
    requires Good(f, log, m, tidy)
    ensures TABLE_END <= |f.idx| && DATA_HEADER <= |f.dat|
  {
  }

  /** The value of the first acceptable insertion of k. */
  function FirstStored(ops: seq<Op>, k: Text): Fetched {
    if ops == [] then Absent
    else if ops[0].StoreOp? && ops[0].key == k && |ops[0].value| <= MAX_RECORD_LEN then Found(ops[0].value)
    else FirstStored(ops[1..], k)
  }

  predicate InsertRun(ops: seq<Op>) {
    forall op :: op in ops ==> !op.DeleteOp? && CleanOp(op) && (op.StoreOp? ==> op.mode == TDB_INSERT)
  }

  lemma {:induction false} FirstValueStays(m: map<Text, Text>, ops: seq<Op>, k: Text)
    requires InsertRun(ops) && KeyOk(k)
    ensures var m' := MapRun(m, ops).0;
      (if k in m' then Found(m'[k]) else Absent) == if k in m then Found(m[k]) else FirstStored(ops, k)
    decreases |ops|
  {
    if ops != [] {
      FirstValueStays(MapStep(m, ops[0]).0, ops[1..], k);
    }
  }

  /** After any run of insertions, fetches and reopens on a created store, fetching k answers the first
      value stored for k, and reports k absent if there was none. */
  lemma FetchAnswersFirstValue(ops: seq<Op>, k: Text, how: Addresses)
    requires InsertRun(ops) && KeyOk(k) && Room(Created(), |ops|) && forall op :: op in ops ==> PadFits(op)
    ensures FetchFiles(Run(Created(), ops, how).0, k) == FirstStored(ops, k)
  {
    hide Step, MapStep, MapRun, Run, Hash, FirstStored, Tmdb.Valid, Tidy, Find;
    CreatedIsEmpty();
    var f0 := Created();
    var log := RunRefines(f0, [], map[], ops, how, true);
    FirstValueStays(map[], ops, k);
    var f, m := Run(f0, ops, how).0, MapRun(map[], ops).0;
    assert Represents(f, m);
    assert View(f, k) == if k in m then Found(m[k]) else Absent;
  }
}
