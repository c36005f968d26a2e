/** Read-through caching in front of a database: write-through (LevelDB) and generation bump (MySQL, SQLite). */
module Backends {
  import opened Decimal
  import opened CacheUtils
  import opened AutoIncCache

  const MAX_FIELD_SIZE: nat := 128

  datatype Store<V> = Store(db: map<int, V>, generation: nat, items: Items, hits: nat)

  /** Calls and evictions. The pool may drop what it is offered, the database may fail to carry an insertion out. */
  datatype Op =
    | ReadOp(key: int, drop: bool)
    | InsertOp(key: int, values: seq<string>, drop: bool, done: bool)
    | EvictOp(fullKey: string)

  /** What a call reports: a record, no record, or how an insertion went. */
  datatype Answer = Fields(results: seq<string>) | NoRecord | Inserted | Rejected | Nothing

  /** The pool's key for the cache key k of this thread in the present generation. */
  function Key<V>(s: Store<V>, thread: nat, k: string): string { FullKey(Counter(s.generation), thread, k) }

  // ---- LevelDB

  function LevelRead(thread: nat, s: Store<string>, enabled: bool, key: int, drop: bool): (Store<string>, Answer) {
    var fk := Key(s, thread, PrintInt(key));
    var cached := GetItem(s.items, fk);
    if enabled && cached != "" then (s.(hits := s.hits + 1), Fields(Unpack(cached, MAX_FIELD_SIZE)))
    else if key in s.db then
      (if enabled then s.(items := SetItem(s.items, fk, s.db[key], drop)) else s,
       Fields(Unpack(s.db[key], MAX_FIELD_SIZE)))
    else (s, NoRecord)
  }

  /** The pool is offered the value whether or not the database took it. */
  function LevelInsert(thread: nat, s: Store<string>, enabled: bool, key: int, values: seq<string>, drop: bool,
      done: bool)
    : (Store<string>, Answer)
  {
    var v := Pack(values);
    var s' := if done then s.(db := s.db[key := v]) else s;
    (if enabled then s'.(items := SetItem(s.items, Key(s, thread, PrintInt(key)), v, drop)) else s',
     if done then Inserted else Rejected)
  }

  class LevelDBBackend {
    var db: map<int, string>
    const cache: Cache
    var cacheEnabled: bool
    var hitCount: nat

    constructor (cache: Cache, enabled: bool)
      ensures db == map[] && this.cache == cache && cacheEnabled == enabled && hitCount == 0
    {
      db, this.cache, cacheEnabled, hitCount := map[], cache, enabled, 0;
    }

    ghost function Content(): Store<string>
      reads this, cache
    {
      Store(db, cache.generation, cache.items, hitCount)
    }

    /** read_record; `drop` says whether the pool refuses the value that a miss offers it. */
    method ReadRecord(key: int, drop: bool) returns (ok: bool, results: seq<string>)
      requires cache.Valid()
      modifies this`hitCount, cache`items
      ensures cache.Valid()
      ensures (Content(), if ok then Fields(results) else NoRecord) ==
        LevelRead(cache.thread, old(Content()), cacheEnabled, key, drop)
    {
      if cacheEnabled {
        var value := cache.Fetch(PrintInt(key));
        if value != "" {
          results := UnpackValues(value, MAX_FIELD_SIZE);
          hitCount := hitCount + 1;
          return true, results;
        }
      }
      if key in db {
        results := UnpackValues(db[key], MAX_FIELD_SIZE);
        if cacheEnabled {
          var _ := cache.Put(PrintInt(key), db[key], drop);
        }
        return true, results;
      }
      return false, [];
    }

    /** insert_record; `done` is the status of the Put. */
    method InsertRecord(key: int, values: seq<string>, drop: bool, done: bool) returns (ok: bool)
      requires cache.Valid()
      modifies this`db, cache`items
      ensures cache.Valid()
      ensures (Content(), if ok then Inserted else Rejected) ==
        LevelInsert(cache.thread, old(Content()), cacheEnabled, key, values, drop, done)
    {
      var value := Pack(values);
      if done { db := db[key := value]; }
      if cacheEnabled {
        var _ := cache.Put(PrintInt(key), value, drop);
      }
      return done;
    }
  }

  function LevelStep(thread: nat, s: Store<string>, enabled: bool, op: Op): (Store<string>, Answer) {
    match op
    case ReadOp(k, drop) => LevelRead(thread, s, enabled, k, drop)
    case InsertOp(k, vs, drop, done) => LevelInsert(thread, s, enabled, k, vs, drop, done)
    case EvictOp(fk) => (s.(items := s.items - {fk}), Nothing)
  }

  function LevelRun(thread: nat, s: Store<string>, enabled: bool, ops: seq<Op>): seq<Answer>
    decreases |ops|
  {
    if ops == [] then []
    else
      var (s', a) := LevelStep(thread, s, enabled, ops[0]);
      [a] + LevelRun(thread, s', enabled, ops[1..])
  }

  predicate Taken(values: seq<string>, drop: bool) { !drop && |Pack(values)| <= MAX_VALUE }

  predicate SameInDb(s: Store<string>, key: int, values: seq<string>) { key in s.db && s.db[key] == Pack(values) }

  /** Pool and database both take the value, or the one that does had it already, or the key is new to both. */
  predicate LevelAllowed(s: Store<string>, op: Op) {
    op.InsertOp? ==>
      || SameInDb(s, op.key, op.values)
      || (if Taken(op.values, op.drop) then op.done else op.done ==> op.key !in s.db)
  }

  predicate LevelAllowedRun(thread: nat, s: Store<string>, ops: seq<Op>)
    decreases |ops|
  {
    ops != [] ==> LevelAllowed(s, ops[0]) && LevelAllowedRun(thread, LevelStep(thread, s, false, ops[0]).0, ops[1..])
  }

  /** The pool repeats the database. */
  ghost predicate LevelAgrees(thread: nat, s: Store<string>) {
    forall k: int :: Key(s, thread, PrintInt(k)) in s.items ==>
        k in s.db && s.items[Key(s, thread, PrintInt(k))] == s.db[k]
  }

  lemma LevelKeys(c: int, thread: nat, a: int, b: int)
    ensures FullKey(c, thread, PrintInt(a)) == FullKey(c, thread, PrintInt(b)) <==> a == b
  {
    if FullKey(c, thread, PrintInt(a)) == FullKey(c, thread, PrintInt(b)) {
      FullKeyInjective(c, thread, PrintInt(a), c, thread, PrintInt(b));
      PrintIntInjective(a, b);
    }
  }

  lemma LevelStepAgrees(thread: nat, s: Store<string>, off: Store<string>, op: Op)
    requires LevelAgrees(thread, s) && off.db == s.db && LevelAllowed(s, op)
    ensures LevelAgrees(thread, LevelStep(thread, s, true, op).0)
    ensures LevelStep(thread, s, true, op).0.db == LevelStep(thread, off, false, op).0.db
    ensures LevelStep(thread, s, true, op).1 == LevelStep(thread, off, false, op).1
  {
    hide FullKey, Counter, Unpack;
    var s' := LevelStep(thread, s, true, op).0;
    forall k: int | Key(s', thread, PrintInt(k)) in s'.items
      ensures k in s'.db && s'.items[Key(s', thread, PrintInt(k))] == s'.db[k]
    {
      if !op.EvictOp? { LevelKeys(Counter(s.generation), thread, k, op.key); }
    }
  }

  /** With the write-through cache on, every run answers as with it off, whatever the pool evicts or drops, as
      long as no insertion over an existing key is dropped by the pool. */
  lemma {:induction false} LevelTransparent(thread: nat, s: Store<string>, off: Store<string>, ops: seq<Op>)
    requires LevelAgrees(thread, s) && off.db == s.db && LevelAllowedRun(thread, off, ops)
    ensures LevelRun(thread, s, true, ops) == LevelRun(thread, off, false, ops)
    decreases |ops|
  {
    if ops != [] {
      LevelStepAgrees(thread, s, off, ops[0]);
      LevelTransparent(thread, LevelStep(thread, s, true, ops[0]).0, LevelStep(thread, off, false, ops[0]).0, ops[1..]);
    }
  }

  lemma LevelTransparentFromEmpty(thread: nat, db: map<int, string>, ops: seq<Op>)
    requires LevelAllowedRun(thread, Store(db, 0, map[], 0), ops)
    ensures LevelRun(thread, Store(db, 0, map[], 0), true, ops) == LevelRun(thread, Store(db, 0, map[], 0), false, ops)
  {
    LevelTransparent(thread, Store(db, 0, map[], 0), Store(db, 0, map[], 0), ops);
  }

  /** Reading k after any insertion of k is transparent exactly when what the pool then holds for k is nothing, or
      what the database then holds. */
  lemma LevelInsertExactly(thread: nat, s: Store<string>, k: int, values: seq<string>, drop: bool, done: bool, d: bool)
    requires LevelAgrees(thread, s)
    ensures var s' := LevelInsert(thread, s, true, k, values, drop, done).0;
      var cached := GetItem(s.items, Key(s, thread, PrintInt(k)));
      LevelRead(thread, s', true, k, d).1 == LevelRead(thread, s', false, k, d).1 <==>
        if Taken(values, drop) then done || Pack(values) == "" || SameInDb(s, k, values)
        else !done || cached == "" || cached == Pack(values)
  {
    hide FullKey, Counter, Unpack;
    var s' := LevelInsert(thread, s, true, k, values, drop, done).0;
    var cached := GetItem(s.items, Key(s, thread, PrintInt(k)));
    PackUnpack(cached, MAX_FIELD_SIZE);
    PackUnpack(Pack(values), MAX_FIELD_SIZE);
    if k in s.db { PackUnpack(s.db[k], MAX_FIELD_SIZE); }
  }

  // ---- MySQL and SQLite

  function ReadSql(table: string, key: int): string {
    "SELECT * FROM " + table + " WHERE ycsb_key = " + PrintInt(key) + ";"
  }

  lemma ReadSqlInjective(table: string, a: int, b: int)
    ensures ReadSql(table, a) == ReadSql(table, b) <==> a == b
  {
    var front := "SELECT * FROM " + table + " WHERE ycsb_key = ";
    assert ReadSql(table, a) == front + PrintInt(a) + ";" && ReadSql(table, b) == front + PrintInt(b) + ";";
    if ReadSql(table, a) == ReadSql(table, b) {
      var s := ReadSql(table, a);
      assert PrintInt(a) == s[|front|..|s| - 1] == PrintInt(b);
      PrintIntInjective(a, b);
    }
  }

  /** `results` is the caller's vector: a hit replaces it, a miss appends to it and caches all of it. */
  function SqlRead(thread: nat, table: string, s: Store<seq<string>>, enabled: bool, key: int,
                   results: seq<string>, drop: bool): (Store<seq<string>>, Answer)
  {
    var fk := Key(s, thread, ReadSql(table, key));
    var cached := GetItem(s.items, fk);
    if enabled && cached != "" then (s.(hits := s.hits + 1), Fields(Unpack(cached, MAX_FIELD_SIZE)))
    else if key in s.db then
      var all := results + s.db[key];
      (if enabled then s.(items := SetItem(s.items, fk, Pack(all), drop)) else s, Fields(all))
    else (s, NoRecord)
  }

  /** The generation moves on before the statement runs; a key that exists makes the statement fail. */
  function SqlInsert(s: Store<seq<string>>, key: int, values: seq<string>, done: bool): (Store<seq<string>>, Answer) {
    var s' := s.(generation := s.generation + 1);
    if key in s.db || !done then (s', Rejected) else (s'.(db := s.db[key := values]), Inserted)
  }

  class MySQLBackend {
    var db: map<int, seq<string>>
    const cache: Cache
    const table: string
    var cacheEnabled: bool
    var hitCount: nat

    constructor (cache: Cache, table: string, enabled: bool)
      ensures db == map[] && this.cache == cache && this.table == table && cacheEnabled == enabled && hitCount == 0
    {
      db, this.cache, this.table, cacheEnabled, hitCount := map[], cache, table, enabled, 0;
    }

    ghost function Content(): Store<seq<string>>
      reads this, cache
    {
      Store(db, cache.generation, cache.items, hitCount)
    }

    /** read_record. */
    method ReadRecord(key: int, results: seq<string>, drop: bool) returns (ok: bool, results': seq<string>)
      requires cache.Valid()
      modifies this`hitCount, cache`items
      ensures cache.Valid()
      ensures (Content(), if ok then Fields(results') else NoRecord) ==
        SqlRead(cache.thread, table, old(Content()), cacheEnabled, key, results, drop)
    {
      var sql := ReadSql(table, key);
      if cacheEnabled {
        var value := cache.Fetch(sql);
        if value != "" {
          results' := UnpackValues(value, MAX_FIELD_SIZE);
          hitCount := hitCount + 1;
          return true, results';
        }
      }
      results' := results;
      if key in db {
        var row := db[key];
        for i := 0 to |row|
          invariant results' == results + row[..i]
        {
          results' := results' + [row[i]];
        }
        assert row[..|row|] == row;
        if cacheEnabled {
          var _ := cache.Put(sql, Pack(results'), drop);
        }
        return true, results';
      }
      return false, results';
    }

    /** insert_record; a duplicate key, like any other failure, is reported by the driver's exception. */
    method InsertRecord(key: int, values: seq<string>, done: bool) returns (threw: bool)
      requires cache.Valid()
      modifies this`db, cache`counter, cache`generation
      ensures cache.Valid()
      ensures (Content(), if threw then Rejected else Inserted) == SqlInsert(old(Content()), key, values, done)
    {
      cache.InvalidateAll();
      if key in db || !done { return true; }
      db := db[key := values];
      return false;
    }
  }

  function SqlStep(thread: nat, table: string, s: Store<seq<string>>, enabled: bool, op: Op): (Store<seq<string>>,
      Answer) {
    match op
    case ReadOp(k, drop) => SqlRead(thread, table, s, enabled, k, [], drop)
    case InsertOp(k, vs, _, done) => SqlInsert(s, k, vs, done)
    case EvictOp(fk) => (s.(items := s.items - {fk}), Nothing)
  }

  function SqlRun(thread: nat, table: string, s: Store<seq<string>>, enabled: bool, ops: seq<Op>): seq<Answer>
    decreases |ops|
  {
    if ops == [] then []
    else
      var (s', a) := SqlStep(thread, table, s, enabled, ops[0]);
      [a] + SqlRun(thread, table, s', enabled, ops[1..])
  }

  /** A record the cache can give back: fields of fixed width, or nothing to cache. */
  predicate SafeRow(row: seq<string>) { FixedWidth(row, MAX_FIELD_SIZE) || Pack(row) == "" }

  /** Whatever generation an item is from, it repeats a record that can be given back. */
  ghost predicate SqlAgrees(thread: nat, table: string, s: Store<seq<string>>) {
    && (forall k :: k in s.db ==> SafeRow(s.db[k]))
    && forall g: nat, k: int :: FullKey(Counter(g), thread, ReadSql(table, k)) in s.items ==>
        k in s.db && s.items[FullKey(Counter(g), thread, ReadSql(table, k))] == Pack(s.db[k])
  }

  predicate SafeOps(ops: seq<Op>) { forall op :: op in ops && op.InsertOp? ==> SafeRow(op.values) }

  lemma SqlStepAgrees(thread: nat, table: string, s: Store<seq<string>>, off: Store<seq<string>>, op: Op)
    requires SqlAgrees(thread, table, s) && off.db == s.db && (op.InsertOp? ==> SafeRow(op.values))
    ensures SqlAgrees(thread, table, SqlStep(thread, table, s, true, op).0)
    ensures SqlStep(thread, table, s, true, op).0.db == SqlStep(thread, table, off, false, op).0.db
    ensures SqlStep(thread, table, s, true, op).1 == SqlStep(thread, table, off, false, op).1
  {
    hide FullKey, Counter, Unpack, FixedWidth, ReadSql;
    match op
    case ReadOp(k, drop) =>
      SqlReadAnswer(thread, table, s, off, k, drop);
      SqlReadAgrees(thread, table, s, k, drop);
    case _ =>
  }

  lemma SqlReadAnswer(thread: nat, table: string, s: Store<seq<string>>, off: Store<seq<string>>, k: int, drop: bool)
    requires SqlAgrees(thread, table, s) && off.db == s.db
    ensures SqlRead(thread, table, s, true, k, [], drop).1 == SqlRead(thread, table, off, false, k, [], drop).1
    ensures SqlRead(thread, table, s, true, k, [], drop).0.db == s.db
  {
    hide FullKey, Counter, Unpack, FixedWidth, ReadSql;
    if k in s.db {
      assert [] + s.db[k] == s.db[k];
      if FixedWidth(s.db[k], MAX_FIELD_SIZE) { UnpackPack(s.db[k], MAX_FIELD_SIZE); }
    }
  }

  lemma SqlReadAgrees(thread: nat, table: string, s: Store<seq<string>>, key: int, drop: bool)
    requires SqlAgrees(thread, table, s)
    ensures SqlAgrees(thread, table, SqlRead(thread, table, s, true, key, [], drop).0)
  {
    hide FullKey, Counter, Unpack, FixedWidth, ReadSql;
    var s' := SqlRead(thread, table, s, true, key, [], drop).0;
    var fk := Key(s, thread, ReadSql(table, key));
    if key in s.db { assert [] + s.db[key] == s.db[key]; }
    forall g: nat, k: int | FullKey(Counter(g), thread, ReadSql(table, k)) in s'.items
      ensures k in s'.db && s'.items[FullKey(Counter(g), thread, ReadSql(table, k))] == Pack(s'.db[k])
    {
      if fk == FullKey(Counter(g), thread, ReadSql(table, k)) {
        FullKeyInjective(Counter(s.generation), thread, ReadSql(table, key), Counter(g), thread, ReadSql(table, k));
        ReadSqlInjective(table, key, k);
      }
    }
  }

  /** With the invalidating cache on, every run answers as with it off, whatever the pool evicts or drops and
      however often the generation wraps around, for records of fixed-width fields. */
  lemma {:induction false} SqlTransparent(thread: nat, table: string, s: Store<seq<string>>, off: Store<seq<string>>,
      ops: seq<Op>)
    requires SqlAgrees(thread, table, s) && off.db == s.db && SafeOps(ops)
    ensures SqlRun(thread, table, s, true, ops) == SqlRun(thread, table, off, false, ops)
    decreases |ops|
  {
    if ops != [] {
      SqlStepAgrees(thread, table, s, off, ops[0]);
      SqlTransparent(thread, table, SqlStep(thread, table, s, true, ops[0]).0,
                     SqlStep(thread, table, off, false, ops[0]).0, ops[1..]);
    }
  }

  lemma SqlTransparentFromEmpty(thread: nat, table: string, db: map<int, seq<string>>, ops: seq<Op>)
    requires SafeOps(ops) && forall k :: k in db ==> SafeRow(db[k])
    ensures SqlRun(thread, table, Store(db, 0, map[], 0), true, ops) ==
        SqlRun(thread, table, Store(db, 0, map[], 0), false, ops)
  {
    SqlTransparent(thread, table, Store(db, 0, map[], 0), Store(db, 0, map[], 0), ops);
  }

  /** Insert a new record into an uncached store and read it twice: the second read gives the record back
      exactly when its fields have the fixed width or are all empty. */
  lemma SqlRowsExactly(thread: nat, table: string, s: Store<seq<string>>, k: int, row: seq<string>, d: bool)
    requires k !in s.db && s.items == map[] && |Pack(row)| <= MAX_VALUE
    ensures var s1 := SqlInsert(s, k, row, true).0;
      var s2 := SqlRead(thread, table, s1, true, k, [], false).0;
      SqlRead(thread, table, s2, true, k, [], d).1 == SqlRead(thread, table, s1, false, k, [], d).1 <==> SafeRow(row)
  {
    hide FullKey, Counter, Unpack, FixedWidth, ReadSql;
    assert [] + row == row;
    UnpackPackExactly(row, MAX_FIELD_SIZE);
  }

  /** A caller that passes a vector with text in it gets that text back from a miss and not from a hit. */
  lemma SqlNeedsEmptyVector(thread: nat, table: string, s: Store<seq<string>>, k: int, results: seq<string>, d: bool)
    requires SqlAgrees(thread, table, s) && k in s.db && Key(s, thread, ReadSql(table, k)) in s.items &&
        Pack(s.db[k]) != ""
    ensures SqlRead(thread, table, s, true, k, results, d).1 == SqlRead(thread, table, s, false, k, results, d).1 <==>
        results == []
  {
    hide FullKey, Counter, Unpack, FixedWidth, ReadSql;
    UnpackPack(s.db[k], MAX_FIELD_SIZE);
    if results == [] {
      assert results + s.db[k] == s.db[k];
    } else {
      assert |results + s.db[k]| > |s.db[k]|;
    }
  }
}
