/** The tmdb store: what each call does to the two files, and the map the files stand for. */
module Tmdb {
  import opened Bytes
  import opened TmdbData
  import opened TmdbIndex

  const TDB_SUCCESS := 1
  const TDB_OK := 0
  const TDB_ERROR := -1

  const TDB_INSERT := 1
  const TDB_REPLACE := 2
  const TDB_STORE := 3

  /** In-place updates: at the addresses the statements compute, or at the fields their comments name. */
  datatype Addresses = AsCoded | AsCommented

  datatype Files = Files(idx: seq<byte>, dat: seq<byte>)

  datatype Fetched = Absent | Unreadable | Found(value: Text)

  predicate KeyOk(k: Text) { 1 <= |k| <= MAX_KEY }

  /** A key that rtrim leaves alone. */
  predicate Clean(k: Text) { RTrim(k) == k }

  function Created(): Files { Files(Zeros(TABLE_END), Zeros(DATA_HEADER)) }

  /** The representation invariant; `log` lists the values stored so far. */
  ghost predicate Valid(f: Files, log: seq<Value>) {
    IndexOk(f.idx, Starts(log)) && f.dat == DataFile(log)
  }

  /** What _db_fetch answers for k. */
  function View(f: Files, k: Text): Fetched
    requires TABLE_END <= |f.idx|
  {
    match Find(f.idx, k)
    case None => Absent
    case Some(q) =>
      match ValueAt(f.dat, DataPtr(RecordAt(f.idx, q)))
      case Short => Unreadable
      case Read(v) => Found(v)
  }

  ghost predicate Represents(f: Files, m: map<Text, Text>) {
    && TABLE_END <= |f.idx|
    && (forall k :: k in m ==> KeyOk(k))
    && forall k: Text :: KeyOk(k) ==> View(f, k) == if k in m then Found(m[k]) else Absent
  }

  /** How many records answer k. */
  function Answers(idx: seq<byte>, k: Text): (n: nat)
    requires TABLE_END <= |idx|
    ensures n == 0 <==> Find(idx, k) == None
  {
    Count(idx, Head(idx, Hash(k)), k)
  }

  /** No key is answered twice on its chain. */
  ghost predicate Tidy(f: Files) {
    && TABLE_END <= |f.idx|
    && forall k: Text :: Answers(f.idx, k) <= 1
  }

  // ---- create

  lemma HeadOfZeros(n: nat, b: nat)
    requires b < BUCKETS && TABLE_END <= n
    ensures Head(Zeros(n), b) == 0
  {
    var s := Zeros(n)[BucketAt(b)..BucketAt(b) + 8];
    assert |s| == 8 && forall i :: 0 <= i < 8 ==> s[i] == 0;
    assert FromLe4(s[..4]) == 0 && FromLe4(s[4..]) == 0;
  }

  /** A created store is well formed and empty. */
  lemma CreatedIsEmpty()
    ensures Valid(Created(), []) && Represents(Created(), map[]) && Tidy(Created())
  {
    forall b | 0 <= b < BUCKETS ensures ChainOk(Created().idx, Starts([]), Head(Created().idx, b), b) {
      HeadOfZeros(TABLE_END, b);
    }
    forall k: Text ensures Find(Created().idx, k) == None {
      HeadOfZeros(TABLE_END, Hash(k));
    }
  }

  // ---- finding

  /** What a search leaves in the handle: where it started, where it ended, and whether it hit. */
  lemma FindOnChain(idx: seq<byte>, starts: set<nat>, k: Text)
    requires IndexOk(idx, starts)
    ensures Head(idx, Hash(k)) == 0 || RecordOk(idx, starts, Head(idx, Hash(k)), Hash(k))
    ensures Head(idx, Hash(k)) == 0 ==> Find(idx, k) == None
    ensures Find(idx, k).Some? ==> RecordOk(idx, starts, Find(idx, k).value, Hash(k))
  {
    var h := Hash(k);
    assert ChainOk(idx, starts, Head(idx, h), h);
    FoundOnChain(idx, starts, Head(idx, h), h, k);
  }

  lemma {:induction false} FoundOnChain(idx: seq<byte>, starts: set<nat>, p: nat, b: nat, k: Text)
    requires ChainOk(idx, starts, p, b)
    ensures Lookup(idx, p, k).Some? ==>
        RecordOk(idx, starts, Lookup(idx, p, k).value, b) && ChainOk(idx, starts, Lookup(idx, p, k).value, b)
    decreases |idx| - p
  {
    if p != 0 && SeenKey(RecordAt(idx, p)) != k {
      var n := NextPtr(RecordAt(idx, p));
      if n != 0 { FoundOnChain(idx, starts, n, b, k); }
    }
  }

  lemma {:induction false} TailOnChain(idx: seq<byte>, starts: set<nat>, p: nat, b: nat)
    requires p != 0 && ChainOk(idx, starts, p, b)
    ensures RecordOk(idx, starts, Tail(idx, p), b) && NextPtr(RecordAt(idx, Tail(idx, p))) == 0
    decreases |idx| - p
  {
    var n := NextPtr(RecordAt(idx, p));
    if n != 0 {
      assert RecordOk(idx, starts, n, b);
      TailOnChain(idx, starts, n, b);
    }
  }

  /** Only keys that rtrim leaves alone can be found. */
  lemma FoundKeysAreClean(idx: seq<byte>, k: Text)
    requires TABLE_END <= |idx| && Find(idx, k).Some?
    ensures Clean(k)
  {
    RTrimIdempotent(CStr(RecordAt(idx, Find(idx, k).value)[KEY_AT..]));
  }

  // ---- the shape of the chains

  /** The record at q is linked from p, or is the record at p. */
  predicate OnChain(idx: seq<byte>, p: nat, q: nat)
    ensures OnChain(idx, p, q) ==> InFile(idx, q)
    decreases |idx| - p
  {
    && InFile(idx, p)
    && (p == q || (p < NextPtr(RecordAt(idx, p)) && OnChain(idx, NextPtr(RecordAt(idx, p)), q)))
  }

  lemma {:induction false} OnChainOk(idx: seq<byte>, starts: set<nat>, p: nat, q: nat, b: nat)
    requires ChainOk(idx, starts, p, b) && OnChain(idx, p, q)
    ensures p <= q && RecordOk(idx, starts, q, b)
    decreases |idx| - p
  {
    if p != q { OnChainOk(idx, starts, NextPtr(RecordAt(idx, p)), q, b); }
  }

  /** A record lies on one chain only, that of its own hash, and what follows it lies further on. */
  lemma ChainsDisjoint(idx: seq<byte>, starts: set<nat>, a: nat, b: nat, q: nat)
    requires IndexOk(idx, starts) && a < BUCKETS && b < BUCKETS
    requires OnChain(idx, Head(idx, a), q) && OnChain(idx, Head(idx, b), q)
    ensures InFile(idx, q) && a == b == Hash(StoredKey(RecordAt(idx, q)))
    ensures NextPtr(RecordAt(idx, q)) == 0 || q + RECORD <= NextPtr(RecordAt(idx, q))
  {
    hide Hash, StoredKey, SeenKey, DataPtr, NextPtr, KeyEnds, Head;
    OnChainOk(idx, starts, Head(idx, a), q, a);
    OnChainOk(idx, starts, Head(idx, b), q, b);
    NextIsRecord(idx, starts, Head(idx, a), q, a);
  }

  lemma {:induction false} NextIsRecord(idx: seq<byte>, starts: set<nat>, p: nat, q: nat, b: nat)
    requires ChainOk(idx, starts, p, b) && OnChain(idx, p, q)
    ensures NextPtr(RecordAt(idx, q)) == 0 || q + RECORD <= NextPtr(RecordAt(idx, q))
    decreases |idx| - p
  {
    hide Hash, StoredKey, SeenKey, DataPtr, NextPtr, KeyEnds;
    var n := NextPtr(RecordAt(idx, p));
    if p != q {
      NextIsRecord(idx, starts, n, q, b);
    } else if n != 0 {
      assert RecordOk(idx, starts, n, b);
      AlignedApart(p, n);
    }
  }

  lemma {:induction false} CountsOne(idx: seq<byte>, p: nat, k: Text, q: nat)
    requires OnChain(idx, p, q) && SeenKey(RecordAt(idx, q)) == k
    ensures Count(idx, p, k) >= 1
    decreases |idx| - p
  {
    if p != q { CountsOne(idx, NextPtr(RecordAt(idx, p)), k, q); }
  }

  lemma {:induction false} CountsTwo(idx: seq<byte>, p: nat, k: Text, q: nat, r: nat)
    requires OnChain(idx, p, q) && OnChain(idx, p, r) && q != r
    requires SeenKey(RecordAt(idx, q)) == k == SeenKey(RecordAt(idx, r))
    ensures Count(idx, p, k) >= 2
    decreases |idx| - p
  {
    var n := NextPtr(RecordAt(idx, p));
    if p == q {
      CountsOne(idx, n, k, r);
    } else if p == r {
      CountsOne(idx, n, k, q);
    } else {
      CountsTwo(idx, n, k, q, r);
    }
  }

  /** On a tidy index no two records of a key's chain answer the key. */
  lemma NoDuplicateKeys(f: Files, k: Text, q: nat, r: nat)
    requires Tidy(f)
    requires OnChain(f.idx, Head(f.idx, Hash(k)), q) && SeenKey(RecordAt(f.idx, q)) == k
    requires OnChain(f.idx, Head(f.idx, Hash(k)), r) && SeenKey(RecordAt(f.idx, r)) == k
    ensures q == r
  {
    assert Answers(f.idx, k) <= 1;
    if q != r { CountsTwo(f.idx, Head(f.idx, Hash(k)), k, q, r); }
  }

  // ---- inserting

  /** The place that must point at a record appended for a key of hash h. */
  function Slot(idx: seq<byte>, h: nat): (s: nat)
    requires h < BUCKETS && TABLE_END <= |idx|
    ensures s + 8 <= |idx|
  {
    var p := Head(idx, h);
    if p == 0 || !InFile(idx, p) then BucketAt(h) else Tail(idx, p) + NEXT_AT
  }

  /** Append the key record, then point the bucket or the chain's last record at it. */
  function Inserted(idx: seq<byte>, k: Text, pad: seq<byte>, data: nat): (idx': seq<byte>)
    requires |k| <= MAX_KEY && PadOk(k, pad) && TABLE_END <= |idx|
    ensures |idx'| == |idx| + RECORD
  {
    Write(idx + NewRecord(k, pad, data), Slot(idx, Hash(k)), Le8(|idx|))
  }

  lemma AlignedApart(p: nat, q: nat)
    requires Aligned(p) && Aligned(q) && p != q
    ensures p + RECORD <= q || q + RECORD <= p
  {
  }

  /** Writing inside a record, or inside a bucket, disturbs no other record. */
  lemma WriteKeepsRecord(idx: seq<byte>, at: nat, data: seq<byte>, q: nat)
    requires InFile(idx, q) && (at + |data| <= q || q + RECORD <= at)
    ensures InFile(Write(idx, at, data), q) && RecordAt(Write(idx, at, data), q) == RecordAt(idx, q)
  {
    WriteElsewhere(idx, at, data, q, q + RECORD);
  }

  lemma WriteKeepsHead(idx: seq<byte>, at: nat, data: seq<byte>, b: nat)
    requires TABLE_END <= |idx| && b < BUCKETS && (at + |data| <= BucketAt(b) || BucketAt(b) + 8 <= at)
    ensures Head(Write(idx, at, data), b) == Head(idx, b)
  {
    WriteElsewhere(idx, at, data, BucketAt(b), BucketAt(b) + 8);
  }

  lemma WriteHead(idx: seq<byte>, b: nat, n: nat)
    requires TABLE_END <= |idx| && b < BUCKETS && n <= OFF_MAX
    ensures Head(Write(idx, BucketAt(b), Le8(n)), b) == n
  {
    WriteHere(idx, BucketAt(b), Le8(n));
    FromLe8Le8(n);
  }

  /** A write inside the record at q is a write into its 88 bytes. */
  lemma WriteInRecord(idx: seq<byte>, q: nat, at: nat, data: seq<byte>)
    requires InFile(idx, q) && at + |data| <= RECORD
    ensures InFile(Write(idx, q + at, data), q)
    ensures RecordAt(Write(idx, q + at, data), q) == Write(RecordAt(idx, q), at, data)
  {
    if data != [] {
      var r, w := RecordAt(idx, q), Write(idx, q + at, data);
      assert forall i :: 0 <= i < RECORD ==> w[q..q + RECORD][i] == Write(r, at, data)[i];
    }
  }

  /** Rewriting next_ptr leaves the other fields. */
  lemma NextRewritten(r: Record, n: nat)
    requires n <= OFF_MAX && KeyEnds(r)
    ensures var s: Record := Write(r, NEXT_AT, Le8(n));
      SameKey(s, r) && DataPtr(s) == DataPtr(r) && NextPtr(s) == n
  {
    hide Le8;
    var d := Le8(n);
    var s: Record := Write(r, NEXT_AT, d);
    WriteHere(r, NEXT_AT, d);
    WriteElsewhere(r, NEXT_AT, d, KEY_AT, DATA_AT);
    WriteElsewhere(r, NEXT_AT, d, DATA_AT, NEXT_AT);
    SameKeyBytes(s, r);
    assert s[NEXT_AT..] == d;
    FromLe8Le8(n);
  }

  /** Rewriting data_ptr leaves the other fields. */
  lemma DataRewritten(r: Record, n: nat)
    requires n <= OFF_MAX && KeyEnds(r)
    ensures var s: Record := Write(r, DATA_AT, Le8(n));
      SameLinks(s, r) && DataPtr(s) == n
  {
    hide Le8;
    var d := Le8(n);
    var s: Record := Write(r, DATA_AT, d);
    WriteHere(r, DATA_AT, d);
    WriteElsewhere(r, DATA_AT, d, KEY_AT, DATA_AT);
    WriteElsewhere(r, DATA_AT, d, NEXT_AT, RECORD);
    SameKeyBytes(s, r);
    assert s[NEXT_AT..RECORD] == s[NEXT_AT..] && r[NEXT_AT..RECORD] == r[NEXT_AT..];
    FromLe8Le8(n);
  }

  /** Rewriting the flag leaves the other fields. */
  lemma FlagRewritten(r: Record, flag: seq<byte>)
    requires |flag| == 4
    ensures var s: Record := Write(r, 0, flag);
      s[KEY_AT..] == r[KEY_AT..] && SameLinks(s, r) && DataPtr(s) == DataPtr(r)
  {
    var s: Record := Write(r, 0, flag);
    WriteElsewhere(r, 0, flag, KEY_AT, RECORD);
    assert s[KEY_AT..RECORD] == s[KEY_AT..] && r[KEY_AT..RECORD] == r[KEY_AT..];
    WriteElsewhere(r, 0, flag, KEY_AT, PAD_AT);
    WriteElsewhere(r, 0, flag, DATA_AT, NEXT_AT);
    WriteElsewhere(r, 0, flag, NEXT_AT, RECORD);
    assert s[NEXT_AT..RECORD] == s[NEXT_AT..] && r[NEXT_AT..RECORD] == r[NEXT_AT..];
  }

  // The bytes after an insertion: the buckets, the new record, the records of other chains, the old tail.

  lemma InsertedHead(idx: seq<byte>, starts: set<nat>, k: Text, pad: seq<byte>, data: nat, b: nat)
    requires IndexOk(idx, starts) && KeyOk(k) && PadOk(k, pad) && |idx| <= OFF_MAX && b < BUCKETS
    ensures Head(Inserted(idx, k, pad, data), b) ==
      if b == Hash(k) && Head(idx, b) == 0 then |idx| else Head(idx, b)
  {
    hide NewRecord, Le8, Hash;
    var h := Hash(k);
    var idx1, slot := idx + NewRecord(k, pad, data), Slot(idx, h);
    FindOnChain(idx, starts, k);
    assert idx1[BucketAt(b)..BucketAt(b) + 8] == idx[BucketAt(b)..BucketAt(b) + 8];
    if b == h && Head(idx, b) == 0 {
      WriteHead(idx1, h, |idx|);
    } else {
      WriteKeepsHead(idx1, slot, Le8(|idx|), b);
    }
  }

  lemma InsertedNew(idx: seq<byte>, k: Text, pad: seq<byte>, data: nat)
    requires TABLE_END <= |idx| && KeyOk(k) && PadOk(k, pad)
    ensures RecordAt(Inserted(idx, k, pad, data), |idx|) == NewRecord(k, pad, data)
  {
    hide NewRecord, Le8, Hash, Slot;
    var idx1 := idx + NewRecord(k, pad, data);
    assert RecordAt(idx1, |idx|) == NewRecord(k, pad, data);
    WriteKeepsRecord(idx1, Slot(idx, Hash(k)), Le8(|idx|), |idx|);
  }

  lemma InsertedOther(idx: seq<byte>, starts: set<nat>, k: Text, pad: seq<byte>, data: nat, q: nat)
    requires IndexOk(idx, starts) && KeyOk(k) && PadOk(k, pad) && InFile(idx, q) && Aligned(q)
    requires var p := Head(idx, Hash(k)); p == 0 || (InFile(idx, p) && q != Tail(idx, p))
    ensures RecordAt(Inserted(idx, k, pad, data), q) == RecordAt(idx, q)
  {
    hide NewRecord, Le8, Hash;
    var idx1 := idx + NewRecord(k, pad, data);
    var p := Head(idx, Hash(k));
    assert RecordAt(idx1, q) == RecordAt(idx, q);
    FindOnChain(idx, starts, k);
    if p != 0 {
      TailOnChain(idx, starts, p, Hash(k));
      AlignedApart(q, Tail(idx, p));
    }
    WriteKeepsRecord(idx1, Slot(idx, Hash(k)), Le8(|idx|), q);
  }

  lemma InsertedTail(idx: seq<byte>, starts: set<nat>, k: Text, pad: seq<byte>, data: nat)
    requires IndexOk(idx, starts) && KeyOk(k) && PadOk(k, pad) && |idx| <= OFF_MAX
    requires Head(idx, Hash(k)) != 0
    ensures InFile(idx, Head(idx, Hash(k)))
    ensures var t, idx' := Tail(idx, Head(idx, Hash(k))), Inserted(idx, k, pad, data);
      && RecordOk(idx, starts, t, Hash(k))
      && SameKey(RecordAt(idx', t), RecordAt(idx, t)) && DataPtr(RecordAt(idx', t)) == DataPtr(RecordAt(idx, t))
      && NextPtr(RecordAt(idx', t)) == |idx|
  {
    hide NewRecord, Le8, Hash, Write, SameKey, SeenKey, StoredKey, DataPtr, NextPtr, KeyEnds, Head, Tail;
    var h := Hash(k);
    FindOnChain(idx, starts, k);
    TailOnChain(idx, starts, Head(idx, h), h);
    var idx1, t := idx + NewRecord(k, pad, data), Tail(idx, Head(idx, h));
    assert RecordAt(idx1, t) == RecordAt(idx, t);
    RecordRelinked(idx1, t, |idx|);
  }

  /** Writing the next_ptr field in the file. */
  lemma RecordRelinked(idx: seq<byte>, t: nat, n: nat)
    requires InFile(idx, t) && KeyEnds(RecordAt(idx, t)) && n <= OFF_MAX
    ensures var idx' := Write(idx, t + NEXT_AT, Le8(n));
      && InFile(idx', t) && SameKey(RecordAt(idx', t), RecordAt(idx, t))
      && DataPtr(RecordAt(idx', t)) == DataPtr(RecordAt(idx, t)) && NextPtr(RecordAt(idx', t)) == n
  {
    hide Le8, Write, SameKey, DataPtr, NextPtr, KeyEnds;
    WriteInRecord(idx, t, NEXT_AT, Le8(n));
    NextRewritten(RecordAt(idx, t), n);
  }

  /** One chain after an insertion. */
  lemma InsertedChain(idx: seq<byte>, starts: set<nat>, starts': set<nat>, k: Text, pad: seq<byte>, data: nat, b: nat,
      x: Text)
    requires IndexOk(idx, starts) && KeyOk(k) && PadOk(k, pad) && data <= OFF_MAX && |idx| <= OFF_MAX
    requires starts <= starts' && data in starts' && b < BUCKETS
    ensures var idx' := Inserted(idx, k, pad, data);
      && ChainOk(idx', starts', Head(idx', b), b)
      && Lookup(idx', Head(idx', b), x) ==
          (if Lookup(idx, Head(idx, b), x).Some? then Lookup(idx, Head(idx, b), x)
          else if b == Hash(k) && RTrim(k) == x then Some(|idx|) else None)
      && Count(idx', Head(idx', b), x) ==
          Count(idx, Head(idx, b), x) + if b == Hash(k) && RTrim(k) == x then 1 else 0
  {
    hide NewRecord, Inserted, SeenKey, StoredKey, DataPtr, NextPtr, KeyEnds, Hash;
    var idx', r, h := Inserted(idx, k, pad, data), |idx|, Hash(k);
    var p, c := Head(idx, h), Head(idx, b);
    InsertedHead(idx, starts, k, pad, data, b);
    InsertedNew(idx, k, pad, data);
    NewRecordFields(k, pad, data);
    assert RecordOk(idx', starts', r, h);
    if p != 0 { InsertedTail(idx, starts, k, pad, data); }
    forall q | RecordOk(idx, starts, q, b) && (p == 0 || q != Tail(idx, p))
        ensures RecordAt(idx', q) == RecordAt(idx, q) {
      InsertedOther(idx, starts, k, pad, data, q);
    }
    if b == h && p != 0 {
      ExtendChain(idx, idx', starts, starts', p, h, Tail(idx, p), r, x);
    } else if b == h {
      assert Lookup(idx, 0, x) == None && Lookup(idx', 0, x) == None;
      assert ChainOk(idx', starts', r, b);
      assert Count(idx', r, x) == if RTrim(k) == x then 1 else 0;
    } else {
      KeepChain(idx, idx', starts, starts', c, b, x);
    }
  }

  /** Where x is found once a record for k ends the file: at its old place, else possibly there. */
  function FoundAfter(idx: seq<byte>, k: Text, x: Text): Option<nat>
    requires TABLE_END <= |idx|
  {
    if Find(idx, x).Some? then Find(idx, x)
    else if Hash(x) == Hash(k) && RTrim(k) == x then Some(|idx|) else None
  }

  function AnswersAfter(idx: seq<byte>, k: Text, x: Text): nat
    requires TABLE_END <= |idx|
  {
    Answers(idx, x) + if Hash(x) == Hash(k) && RTrim(k) == x then 1 else 0
  }

  lemma InsertedFind(idx: seq<byte>, starts: set<nat>, starts': set<nat>, k: Text, pad: seq<byte>, data: nat, x: Text)
    requires IndexOk(idx, starts) && KeyOk(k) && PadOk(k, pad) && data <= OFF_MAX && |idx| <= OFF_MAX
    requires starts <= starts' && data in starts'
    ensures Find(Inserted(idx, k, pad, data), x) == FoundAfter(idx, k, x)
    ensures Answers(Inserted(idx, k, pad, data), x) == AnswersAfter(idx, k, x)
  {
    hide Inserted, Hash, RTrim, Head, Lookup, Count;
    InsertedChain(idx, starts, starts', k, pad, data, Hash(x), x);
  }

  /** Inserting an absent key answers that key, after rtrim, on its own chain; every other answer stays. */
  lemma InsertedLookups(idx: seq<byte>, starts: set<nat>, starts': set<nat>, k: Text, pad: seq<byte>, data: nat)
    requires IndexOk(idx, starts) && KeyOk(k) && PadOk(k, pad) && data <= OFF_MAX && |idx| <= OFF_MAX
    requires starts <= starts' && data in starts'
    ensures IndexOk(Inserted(idx, k, pad, data), starts')
    ensures forall x: Text :: Find(Inserted(idx, k, pad, data), x) == FoundAfter(idx, k, x)
    ensures forall x: Text :: Answers(Inserted(idx, k, pad, data), x) == AnswersAfter(idx, k, x)
  {
    hide Inserted, Hash, RTrim, Head, Lookup, Count, Find, Answers, FoundAfter, AnswersAfter, ChainOk;
    var idx' := Inserted(idx, k, pad, data);
    forall b | 0 <= b < BUCKETS ensures ChainOk(idx', starts', Head(idx', b), b) {
      InsertedChain(idx, starts, starts', k, pad, data, b, []);
    }
    forall x: Text ensures Find(idx', x) == FoundAfter(idx, k, x) && Answers(idx', x) == AnswersAfter(idx, k, x) {
      InsertedFind(idx, starts, starts', k, pad, data, x);
    }
  }

  /** The data a found record names is untouched by an insertion. */
  lemma InsertedData(idx: seq<byte>, starts: set<nat>, k: Text, pad: seq<byte>, data: nat, x: Text)
    requires IndexOk(idx, starts) && KeyOk(k) && PadOk(k, pad) && |idx| <= OFF_MAX && Find(idx, x).Some?
    ensures DataPtr(RecordAt(Inserted(idx, k, pad, data), Find(idx, x).value)) ==
        DataPtr(RecordAt(idx, Find(idx, x).value))
  {
    hide Inserted, Hash, DataPtr, NextPtr, SeenKey, StoredKey;
    var p, q := Head(idx, Hash(k)), Find(idx, x).value;
    FindOnChain(idx, starts, x);
    FindOnChain(idx, starts, k);
    if p != 0 && q == Tail(idx, p) {
      InsertedTail(idx, starts, k, pad, data);
    } else {
      InsertedOther(idx, starts, k, pad, data, q);
    }
  }

  /** The map after an insertion. A key with trailing white space is answered, if at all, as its rtrim. */
  function InsertSpec(m: map<Text, Text>, k: Text, v: Text): (m': map<Text, Text>)
    ensures Clean(k) && KeyOk(k) ==> m' == if k in m then m else m[k := v]
  {
    var e := RTrim(k);
    if k in m || e in m || e == [] || Hash(e) != Hash(k) then m else m[e := v]
  }

  function InsertFiles(f: Files, k: Text, v: Text, pad: seq<byte>): Files
    requires KeyOk(k) && PadOk(k, pad) && TABLE_END <= |f.idx| && DATA_HEADER <= |f.dat|
  {
    Files(Inserted(f.idx, k, pad, |f.dat|), Append(f.dat, v))
  }

  /** An insertion keeps the files well formed and adds exactly the new binding. */
  lemma InsertRefines(f: Files, log: seq<Value>, m: map<Text, Text>, k: Text, v: Value, pad: seq<byte>)
    requires Valid(f, log) && Represents(f, m) && KeyOk(k) && PadOk(k, pad)
    requires |f.idx| <= OFF_MAX && |f.dat| <= OFF_MAX && Find(f.idx, k) == None
    ensures var f' := InsertFiles(f, k, v, pad);
      Valid(f', log + [v]) && Represents(f', InsertSpec(m, k, v))
    ensures Clean(k) && Tidy(f) ==> Tidy(InsertFiles(f, k, v, pad))
  {
    hide Inserted, Append, Hash, Head, View, InsertSpec, Find, Answers;
    var f' := InsertFiles(f, k, v, pad);
    AppendStarts(log, v);
    InsertedLookups(f.idx, Starts(log), Starts(log + [v]), k, pad, |f.dat|);
    forall x: Text | KeyOk(x)
      ensures View(f', x) == if x in InsertSpec(m, k, v) then Found(InsertSpec(m, k, v)[x]) else Absent
    {
      InsertedView(f, log, k, v, pad, x);
      InsertSpecAt(f, m, k, v, x);
    }
    forall x | x in InsertSpec(m, k, v) ensures KeyOk(x) { InsertSpecAt(f, m, k, v, x); }
    if Clean(k) && Tidy(f) {
      assert Tidy(f') by {
        forall x: Text ensures Answers(f'.idx, x) <= 1 {
          assert Answers(f.idx, x) <= 1;
        }
      }
    }
  }

  lemma InsertSpecAt(f: Files, m: map<Text, Text>, k: Text, v: Text, x: Text)
    requires Represents(f, m) && KeyOk(k) && Find(f.idx, k) == None
    ensures x in InsertSpec(m, k, v) ==> KeyOk(x)
    ensures KeyOk(x) ==>
      (if x in InsertSpec(m, k, v) then Found(InsertSpec(m, k, v)[x]) else Absent) ==
      (if Find(f.idx, x).Some? then View(f, x) else if Hash(x) == Hash(k) && RTrim(k) == x then Found(v) else Absent)
  {
    hide Hash, RTrim, ValueAt, DataPtr, Find;
    assert View(f, k) == Absent && k !in m;
    if KeyOk(x) {
      assert View(f, x) == if x in m then Found(m[x]) else Absent;
    }
  }

  lemma InsertedView(f: Files, log: seq<Value>, k: Text, v: Value, pad: seq<byte>, x: Text)
    requires Valid(f, log) && KeyOk(k) && PadOk(k, pad) && |f.idx| <= OFF_MAX && |f.dat| <= OFF_MAX
    ensures View(InsertFiles(f, k, v, pad), x) ==
      (if Find(f.idx, x).Some? then View(f, x) else if Hash(x) == Hash(k) && RTrim(k) == x then Found(v) else Absent)
  {
    hide Inserted, Append, Hash, Head, RTrim, DataPtr, NextPtr, SeenKey, ValueAt, NewRecord;
    var f', d, starts, log' := InsertFiles(f, k, v, pad), |f.dat|, Starts(log), log + [v];
    AppendStarts(log, v);
    InsertedFind(f.idx, starts, Starts(log'), k, pad, d, x);
    if Find(f.idx, x).Some? {
      FindOnChain(f.idx, starts, x);
      InsertedData(f.idx, starts, k, pad, d, x);
      var q := Find(f.idx, x).value;
      ValueAtStart(log, DataPtr(RecordAt(f.idx, q)));
      ValueAtStart(log', DataPtr(RecordAt(f.idx, q)));
    } else if Hash(x) == Hash(k) && RTrim(k) == x {
      InsertedNew(f.idx, k, pad, d);
      NewRecordFields(k, pad, d);
      ValueAtStart(log', d);
    }
  }
}
