/** What the back ends answer, told from the insertions alone. */
module BackendReads {
  import opened Decimal
  import opened CacheUtils
  import opened AutoIncCache
  import opened Backends

  type Op = Backends.Op

  datatype Option<+T> = None | Some(value: T)

  // ---- LevelDB

  /** After an insertion that the database carries out, a read gives the fields back, from the database and from a
      pool that took them, exactly when they are 128 characters wide. */
  lemma LevelReadBack(thread: nat, s: Store<string>, enabled: bool, k: int, values: seq<string>, drop: bool, d: bool)
    ensures var s' := LevelInsert(thread, s, enabled, k, values, drop, true).0;
      && (LevelRead(thread, s', false, k, d).1 == Fields(values) <==> FixedWidth(values, 128))
      && (enabled && !drop && |Pack(values)| <= 4194304 ==>
            (LevelRead(thread, s', true, k, d).1 == Fields(values) <==> FixedWidth(values, 128)))
  {
    hide FullKey, Counter, Unpack, Pack, FixedWidth;
    UnpackPackExactly(values, 128);
  }

  /** Whether or not the database carries it out, an insertion changes no other key's answer. */
  lemma LevelOthersKept(thread: nat, s: Store<string>, on: bool, k: int, values: seq<string>, drop: bool, done: bool,
                        j: int, d: bool)
    requires j != k
    ensures LevelRead(thread, LevelInsert(thread, s, on, k, values, drop, done).0, on, j, d).1 ==
            LevelRead(thread, s, on, j, d).1
  {
    hide FullKey, Counter, Unpack, Pack;
    LevelKeys(Counter(s.generation), thread, j, k);
  }

  /** With the cache off nothing but the database is touched. With it on a read is a hit exactly when the pool holds
      a non-empty item for the key. */
  lemma LevelHits(thread: nat, s: Store<string>, enabled: bool, k: int, d: bool)
    ensures var fk := FullKey(Counter(s.generation), thread, PrintInt(k));
      LevelRead(thread, s, enabled, k, d).0.hits ==
        s.hits + if enabled && fk in s.items && s.items[fk] != "" then 1 else 0
    ensures !enabled ==> LevelRead(thread, s, enabled, k, d).0 == s
    ensures LevelRead(thread, s, enabled, k, d).0.db == s.db
  {
    hide FullKey, Counter;
  }

  lemma LevelOffKeepsPool(thread: nat, s: Store<string>, k: int, values: seq<string>, drop: bool, done: bool)
    ensures LevelInsert(thread, s, false, k, values, drop, done).0 ==
      if done then s.(db := s.db[k := Pack(values)]) else s
  {
    hide Pack;
  }

  /** What a read brings in, or an insertion offers, makes the next read a hit, if the pool takes it. */
  lemma LevelWarms(thread: nat, s: Store<string>, k: int, values: seq<string>, d: bool)
    ensures k in s.db && 0 < |s.db[k]| <= 4194304 ==>
      var s' := LevelRead(thread, s, true, k, false).0;
      LevelRead(thread, s', true, k, d).0.hits == s'.hits + 1
    ensures 0 < |Pack(values)| <= 4194304 ==>
      var s' := LevelInsert(thread, s, true, k, values, false, true).0;
      LevelRead(thread, s', true, k, d).0.hits == s'.hits + 1
  {
    hide FullKey, Counter, Pack, Unpack;
  }

  function LevelAfter(thread: nat, s: Store<string>, enabled: bool, ops: seq<Op>): Store<string>
    decreases |ops|
  {
    if ops == [] then s else LevelAfter(thread, LevelStep(thread, s, enabled, ops[0]).0, enabled, ops[1..])
  }

  lemma {:induction false} LevelRunSnoc(thread: nat, s: Store<string>, enabled: bool, ops: seq<Op>, op: Op)
    ensures LevelAfter(thread, s, enabled, ops + [op]) ==
            LevelStep(thread, LevelAfter(thread, s, enabled, ops), enabled, op).0
    ensures LevelRun(thread, s, enabled, ops + [op]) ==
            LevelRun(thread, s, enabled, ops) + [LevelStep(thread, LevelAfter(thread, s, enabled, ops), enabled, op).1]
    ensures |LevelRun(thread, s, enabled, ops)| == |ops|
    decreases |ops|
  {
    hide LevelStep;
    if ops == [] {
      assert (ops + [op])[1..] == [] && ops + [op] == [op];
    } else {
      assert (ops + [op])[0] == ops[0] && (ops + [op])[1..] == ops[1..] + [op];
      LevelRunSnoc(thread, LevelStep(thread, s, enabled, ops[0]).0, enabled, ops[1..], op);
    }
  }

  /** The fields of the last insertion of k that the database carried out. */
  function LastInserted(ops: seq<Op>, k: int): Option<seq<string>> {
    if ops == [] then None
    else
      var op := ops[|ops| - 1];
      if op.InsertOp? && op.key == k && op.done then Some(op.values) else LastInserted(ops[..|ops| - 1], k)
  }

  lemma {:induction false} LevelHoldsLast(thread: nat, ops: seq<Op>, k: int)
    ensures var db := LevelAfter(thread, Store(map[], 0, map[], 0), false, ops).db;
      match LastInserted(ops, k) case None => k !in db case Some(vs) => k in db && db[k] == Pack(vs)
  {
    if ops != [] {
      var n := |ops| - 1;
      assert ops == ops[..n] + [ops[n]];
      LevelRunSnoc(thread, Store(map[], 0, map[], 0), false, ops[..n], ops[n]);
      LevelHoldsLast(thread, ops[..n], k);
      hide LevelAfter, LevelRun, FullKey, Counter, Pack, Unpack;
    }
  }

  /** A read at the end of a run answers the fields last inserted for its key, exactly when they are 128 characters
      wide, and no record when there are none; with the cache on as well, for the runs it is transparent for. */
  lemma LevelReadsLast(thread: nat, ops: seq<Op>, k: int, d: bool, enabled: bool)
    requires enabled ==> LevelAllowedRun(thread, Store(map[], 0, map[], 0), ops + [ReadOp(k, d)])
    ensures var answers := LevelRun(thread, Store(map[], 0, map[], 0), enabled, ops + [ReadOp(k, d)]);
      |answers| == |ops| + 1 &&
      match LastInserted(ops, k)
      case None => answers[|ops|] == NoRecord
      case Some(vs) => answers[|ops|].Fields? && (answers[|ops|] == Fields(vs) <==> FixedWidth(vs, 128))
  {
    hide LevelAfter, LevelRun, FullKey, Counter, Pack, Unpack, FixedWidth, LastInserted, LevelAllowedRun;
    if enabled { LevelTransparentFromEmpty(thread, map[], ops + [ReadOp(k, d)]); }
    LevelRunSnoc(thread, Store(map[], 0, map[], 0), false, ops, ReadOp(k, d));
    LevelHoldsLast(thread, ops, k);
    match LastInserted(ops, k)
    case None =>
    case Some(vs) => UnpackPackExactly(vs, 128);
  }

  // ---- MySQL and SQLite

  /** A new record is read back whole, also with the cache on: nothing the pool holds can stand for its key. */
  lemma SqlReadBack(thread: nat, table: string, s: Store<seq<string>>, on: bool, k: int, values: seq<string>, d: bool)
    requires SqlAgrees(thread, table, s) && k !in s.db
    ensures SqlRead(thread, table, SqlInsert(s, k, values, true).0, on, k, [], d).1 == Fields(values)
  {
    hide FullKey, Counter, Unpack, Pack, ReadSql;
    assert [] + values == values;
  }

  /** An insertion, rejected or not, changes no other key's answer, and a rejected one not its own. */
  lemma SqlOthersKept(thread: nat, table: string, s: Store<seq<string>>, on: bool, k: int, values: seq<string>,
                      done: bool, j: int, d: bool)
    requires SqlAgrees(thread, table, s) && (FixedWidth(values, 128) || Pack(values) == "")
    requires j != k || k in s.db || !done
    ensures SqlRead(thread, table, SqlInsert(s, k, values, done).0, on, j, [], d).1 ==
            SqlRead(thread, table, s, on, j, [], d).1
  {
    hide FullKey, Counter, Unpack, Pack, ReadSql, FixedWidth, SqlAgrees;
    var s' := SqlInsert(s, k, values, done).0;
    SqlStepAgrees(thread, table, s, s, InsertOp(k, values, false, done));
    SqlReadAnswer(thread, table, s, s, j, d);
    SqlReadAnswer(thread, table, s', s', j, d);
  }

  lemma SqlHits(thread: nat, table: string, s: Store<seq<string>>, enabled: bool, k: int, results: seq<string>, d: bool)
    ensures var fk := FullKey(Counter(s.generation), thread, ReadSql(table, k));
      SqlRead(thread, table, s, enabled, k, results, d).0.hits ==
        s.hits + if enabled && fk in s.items && s.items[fk] != "" then 1 else 0
    ensures !enabled ==> SqlRead(thread, table, s, enabled, k, results, d).0 == s
    ensures SqlRead(thread, table, s, enabled, k, results, d).0.db == s.db
  {
    hide FullKey, Counter, ReadSql;
  }

  /** What a read brings in makes the next read a hit, if the pool takes it. */
  lemma SqlWarms(thread: nat, table: string, s: Store<seq<string>>, k: int, d: bool)
    requires k in s.db && 0 < |Pack(s.db[k])| <= 4194304
    ensures var s' := SqlRead(thread, table, s, true, k, [], false).0;
      SqlRead(thread, table, s', true, k, [], d).0.hits == s'.hits + 1
  {
    hide FullKey, Counter, Pack, Unpack, ReadSql;
    assert [] + s.db[k] == s.db[k];
  }

  /** An insertion, also one that fails, makes every next read a miss, for fewer than 2^32 of them. */
  lemma SqlInsertInvalidates(thread: nat, table: string, s: Store<seq<string>>, k: int, values: seq<string>, done: bool,
                             j: int, d: bool)
    requires forall fk :: fk in s.items ==> PutUpTo(thread, s.generation, fk)
    requires s.generation + 1 < 4294967296
    ensures var s' := SqlInsert(s, k, values, done).0;
      s'.items == s.items && SqlRead(thread, table, s', true, j, [], d).0.hits == s.hits
  {
    hide FullKey, Counter, Unpack, Pack, ReadSql;
    var s' := SqlInsert(s, k, values, done).0;
    var fk := FullKey(Counter(s'.generation), thread, ReadSql(table, j));
    if fk in s.items {
      var g: nat, key: string :| g <= s.generation && fk == FullKey(Counter(g), thread, key);
      FullKeyInjective(Counter(g), thread, key, Counter(s'.generation), thread, ReadSql(table, j));
      SmallCountersDiffer(g, s'.generation);
    }
  }

  function SqlAfter(thread: nat, table: string, s: Store<seq<string>>, enabled: bool, ops: seq<Op>): Store<seq<string>>
    decreases |ops|
  {
    if ops == [] then s
    else SqlAfter(thread, table, SqlStep(thread, table, s, enabled, ops[0]).0, enabled, ops[1..])
  }

  lemma {:induction false} SqlRunSnoc(thread: nat, table: string, s: Store<seq<string>>, enabled: bool, ops: seq<Op>,
                                      op: Op)
    ensures SqlAfter(thread, table, s, enabled, ops + [op]) ==
            SqlStep(thread, table, SqlAfter(thread, table, s, enabled, ops), enabled, op).0
    ensures SqlRun(thread, table, s, enabled, ops + [op]) ==
            SqlRun(thread, table, s, enabled, ops) +
            [SqlStep(thread, table, SqlAfter(thread, table, s, enabled, ops), enabled, op).1]
    ensures |SqlRun(thread, table, s, enabled, ops)| == |ops|
    decreases |ops|
  {
    hide SqlStep;
    if ops == [] {
      assert (ops + [op])[1..] == [] && ops + [op] == [op];
    } else {
      assert (ops + [op])[0] == ops[0] && (ops + [op])[1..] == ops[1..] + [op];
      SqlRunSnoc(thread, table, SqlStep(thread, table, s, enabled, ops[0]).0, enabled, ops[1..], op);
    }
  }

  /** The fields of the first insertion of k that did not fail: later ones are rejected as duplicates. */
  function FirstInserted(ops: seq<Op>, k: int): Option<seq<string>> {
    if ops == [] then None
    else if ops[0].InsertOp? && ops[0].key == k && ops[0].done then Some(ops[0].values)
    else FirstInserted(ops[1..], k)
  }

  lemma {:induction false} SqlHoldsFirst(thread: nat, table: string, s: Store<seq<string>>, ops: seq<Op>, k: int)
    ensures var db := SqlAfter(thread, table, s, false, ops).db;
      if k in s.db then k in db && db[k] == s.db[k]
      else match FirstInserted(ops, k) case None => k !in db case Some(vs) => k in db && db[k] == vs
    decreases |ops|
  {
    hide FullKey, Counter, Pack, Unpack, ReadSql;
    if ops != [] { SqlHoldsFirst(thread, table, SqlStep(thread, table, s, false, ops[0]).0, ops[1..], k); }
  }

  /** A read at the end of a run answers the fields first inserted for its key, or no record; with the cache on as
      well, when all rows have fields of 128 characters or nothing to cache. */
  lemma SqlReadsFirst(thread: nat, table: string, ops: seq<Op>, k: int, d: bool, enabled: bool)
    requires enabled ==> forall op :: op in ops && op.InsertOp? ==> FixedWidth(op.values, 128) || Pack(op.values) == ""
    ensures var answers := SqlRun(thread, table, Store(map[], 0, map[], 0), enabled, ops + [ReadOp(k, d)]);
      |answers| == |ops| + 1 &&
      answers[|ops|] == match FirstInserted(ops, k) case None => NoRecord case Some(vs) => Fields(vs)
  {
    hide SqlAfter, SqlRun, FullKey, Counter, Pack, Unpack, FixedWidth, FirstInserted, ReadSql;
    var empty: Store<seq<string>> := Store(map[], 0, map[], 0);
    if enabled {
      assert SafeOps(ops + [ReadOp(k, d)]);
      SqlTransparentFromEmpty(thread, table, map[], ops + [ReadOp(k, d)]);
    }
    SqlRunSnoc(thread, table, empty, false, ops, ReadOp(k, d));
    SqlHoldsFirst(thread, table, empty, ops, k);
    match FirstInserted(ops, k)
    case None =>
    case Some(vs) => assert [] + vs == vs;
  }
}
