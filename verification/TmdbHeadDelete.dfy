/** What the coded delete of a record that heads its bucket does to every key. */
module TmdbHeadDelete {
  import opened Bytes
  import opened TmdbData
  import opened TmdbIndex
  import opened Tmdb
  import opened TmdbUpdate
  import opened TmdbChase

  // The four bytes go to HEADER + 4 * h: one half of the head of bucket h / 2.

  function HeadAfter(idx: seq<byte>, h: nat, word: nat): nat
    requires TABLE_END <= |idx| && h < BUCKETS
  {
    var head := Head(idx, h / 2);
    if h % 2 == 0 then word + WORD * (head / WORD) else head % WORD + WORD * word
  }

  lemma HalfWritten(idx: seq<byte>, h: nat, w: seq<byte>)
    requires TABLE_END <= |idx| && h < BUCKETS && |w| == 4
    ensures Head(Write(idx, HEADER + 4 * h, w), h / 2) == HeadAfter(idx, h, FromLe4(w))
  {
    hide Write, FromLe4;
    var idx', at := Write(idx, HEADER + 4 * h, w), BucketAt(h / 2);
    WriteHere(idx, HEADER + 4 * h, w);
    var old8, new8 := idx[at..at + 8], idx'[at..at + 8];
    assert new8[..4] == idx'[at..at + 4] && new8[4..] == idx'[at + 4..at + 8];
    assert old8[..4] == idx[at..at + 4] && old8[4..] == idx[at + 4..at + 8];
    if h % 2 == 0 {
      assert HEADER + 4 * h == at;
      WriteElsewhere(idx, at, w, at + 4, at + 8);
    } else {
      assert HEADER + 4 * h == at + 4;
      WriteElsewhere(idx, at + 4, w, at, at + 4);
    }
  }

  lemma OtherHeads(idx: seq<byte>, h: nat, w: seq<byte>, b: nat)
    requires TABLE_END <= |idx| && h < BUCKETS && |w| == 4 && b < BUCKETS && b != h / 2
    ensures Head(Write(idx, HEADER + 4 * h, w), b) == Head(idx, b)
  {
    WriteKeepsHead(idx, HEADER + 4 * h, w, b);
  }

  /** The files after the coded delete of a key that heads its bucket. */
  lemma HeadDeleted(idx: seq<byte>, starts: set<nat>, k: Text)
    requires IndexOk(idx, starts) && Find(idx, k) == Some(Head(idx, Hash(k)))
    ensures var idx', h, q := Deleted(idx, k, AsCoded), Hash(k), Head(idx, Hash(k));
      && InFile(idx, q) && |idx'| == |idx|
      && Head(idx', h / 2) == HeadAfter(idx, h, DataPtr(RecordAt(idx, q)) % WORD)
      && (forall b :: 0 <= b < BUCKETS && b != h / 2 ==> Head(idx', b) == Head(idx, b))
      && (forall c: nat :: InFile(idx, c) && Aligned(c) ==>
            SameLinks(RecordAt(idx', c), RecordAt(idx, c)) && DataPtr(RecordAt(idx', c)) == DataPtr(RecordAt(idx, c)))
  {
    hide Le4, Write, SeenKey, StoredKey, NextPtr, KeyEnds, SameLinks, Hash, ChainOk, Lookup, FromLe4;
    var h, q := Hash(k), Head(idx, Hash(k));
    FindOnChain(idx, starts, k);
    var idx1, idx' := Write(idx, q, Le4(1)), Deleted(idx, k, AsCoded);
    var read := idx1[q + 72..q + 76];
    WriteElsewhere(idx, q, Le4(1), q + 72, q + 76);
    var r := RecordAt(idx, q);
    SliceOfSlice(idx, q, q + RECORD, 72, 76);
    assert r[DATA_AT..NEXT_AT][..4] == r[72..76];
    assert read == r[72..76];
    LowHalf(RecordAt(idx, q)[DATA_AT..NEXT_AT]);
    assert idx' == Write(idx1, HEADER + 4 * h, read);
    HalfWritten(idx1, h, read);
    FlagKeepsHead(idx, q, h / 2);
    hide Head, DataPtr;
    forall b | 0 <= b < BUCKETS && b != h / 2 ensures Head(idx', b) == Head(idx, b) {
      FlagKeepsHead(idx, q, b);
      OtherHeads(idx1, h, read, b);
    }
    forall c: nat | InFile(idx, c) && Aligned(c)
      ensures SameLinks(RecordAt(idx', c), RecordAt(idx, c)) && DataPtr(RecordAt(idx', c)) == DataPtr(RecordAt(idx, c))
    {
      FlagWritten(idx, q, c);
      WriteKeepsRecord(idx1, HEADER + 4 * h, read, c);
    }
  }

  lemma ChainKept(idx: seq<byte>, starts: set<nat>, k: Text, p: nat, b: nat, y: Text)
    requires IndexOk(idx, starts) && Find(idx, k) == Some(Head(idx, Hash(k))) && ChainOk(idx, starts, p, b)
    ensures var idx' := Deleted(idx, k, AsCoded);
      && |idx'| == |idx| && ChainOk(idx', starts, p, b) && Lookup(idx', p, y) == Lookup(idx, p, y)
      && (Lookup(idx, p, y).Some? ==>
            DataPtr(RecordAt(idx', Lookup(idx, p, y).value)) == DataPtr(RecordAt(idx, Lookup(idx, p, y).value)))
  {
    HeadDeleted(idx, starts, k);
    hide Deleted, HeadAfter, SameLinks, DataPtr, Head, Hash;
    var idx' := Deleted(idx, k, AsCoded);
    assert Keeps(idx, idx', starts, starts, b);
    KeepChain(idx, idx', starts, starts, p, b, y);
    FoundOnChain(idx, starts, p, b, y);
  }

  /** What a fetch of y answers when its search runs along the chain from p. */
  function ViewFrom(f: Files, p: nat, y: Text): Fetched {
    match Lookup(f.idx, p, y)
    case None => Absent
    case Some(q) =>
      match ValueAt(f.dat, DataPtr(RecordAt(f.idx, q)))
      case Short => Unreadable
      case Read(v) => Found(v)
  }

  /** Keys of every bucket but one keep their answers. */
  lemma HeadDeleteOthers(f: Files, log: seq<Value>, k: Text, y: Text)
    requires Valid(f, log) && |f.idx| <= OFF_MAX && Find(f.idx, k) == Some(Head(f.idx, Hash(k)))
    requires Hash(y) != Hash(k) / 2
    ensures FetchOf(DeleteFiles(f, k, AsCoded), y) == Returns(View(f, y))
  {
    hide Deleted, HeadAfter, SameLinks, DataPtr, SeenKey, StoredKey;
    hide KeyEnds, NextPtr, Head, Hash, ValueAt, Searched, Lookup;
    var f', starts := DeleteFiles(f, k, AsCoded), Starts(log);
    HeadDeleted(f.idx, starts, k);
    assert ChainOk(f.idx, starts, Head(f.idx, Hash(y)), Hash(y));
    ChainKept(f.idx, starts, k, Head(f.idx, Hash(y)), Hash(y), y);
    SearchedOnChain(f', starts, y);
  }

  /** An odd bucket's delete puts the data position into the high half of the head before it: on an index under
      four gigabytes and a data file under two, every key of that bucket now ends the program. */
  lemma HeadDeleteOdd(f: Files, log: seq<Value>, k: Text, y: Text)
    requires Valid(f, log) && |f.idx| < WORD && |f.dat| < 0x8000_0000
    requires Find(f.idx, k) == Some(Head(f.idx, Hash(k))) && Hash(k) % 2 == 1 && Hash(y) == Hash(k) / 2
    ensures FetchOf(DeleteFiles(f, k, AsCoded), y) ==
      Returns(if DataPtr(RecordAt(f.idx, Find(f.idx, k).value)) == 0 then View(f, y) else Unreadable)
  {
    hide Deleted, SameLinks, DataPtr, SeenKey, StoredKey, KeyEnds, NextPtr, Head, Hash, ValueAt, Lookup, ChainOk;
    hide Searched, View, DataFile, Starts;
    var f', starts := DeleteFiles(f, k, AsCoded), Starts(log);
    FindOnChain(f.idx, starts, k);
    SmallHead(f.idx, starts, Hash(y));
    HeadDeleted(f.idx, starts, k);
    var d := DataPtr(RecordAt(f.idx, Find(f.idx, k).value));
    StartsAbove(log, d);
    if d == 0 {
      assert ChainOk(f.idx, starts, Head(f.idx, Hash(y)), Hash(y));
      ChainKept(f.idx, starts, k, Head(f.idx, Hash(y)), Hash(y), y);
      DataKept(f, starts, k, Hash(y), y) by { SearchedOnChain(f', starts, y); }
      ViewIsViewFrom(f, y);
    } else {
      BeyondFile(f', y);
    }
  }

  lemma ViewIsViewFrom(f: Files, y: Text)
    requires TABLE_END <= |f.idx|
    ensures View(f, y) == ViewFrom(f, Head(f.idx, Hash(y)), y)
  {
  }

  lemma BeyondFile(f: Files, y: Text)
    requires TABLE_END <= |f.idx| < Head(f.idx, Hash(y)) <= OFF_MAX
    ensures FetchOf(f, y) == Returns(Unreadable)
  {
    hide Hash, Head;
  }

  // An even bucket's delete makes the data position the head of bucket h / 2. The search then reads a record's
  // worth of bytes there, as a rule out of the bucket table.

  lemma LowerNumber(s: seq<byte>)
    requires |s| == 8 && FromLe8(s) < WORD
    ensures s[4] == 0 && s[5] == 0 && s[6] == 0 && s[7] == 0
  {
    var high := FromLe4(s[4..]);
    assert high == 0;
  }

  /** A record's worth of bytes from the start of a bucket on: an empty key, and the head of the bucket ten
      further on in the place of next_ptr. */
  lemma WindowFields(idx: seq<byte>, j: nat)
    requires TABLE_END <= |idx| && j + 10 < BUCKETS && Head(idx, j) < WORD
    ensures InFile(idx, BucketAt(j)) && SeenKey(RecordAt(idx, BucketAt(j))) == []
    ensures NextPtr(RecordAt(idx, BucketAt(j))) == Head(idx, j + 10)
  {
    var d := BucketAt(j);
    var r := RecordAt(idx, d);
    LowerNumber(idx[d..d + 8]);
    assert r[KEY_AT..][0] == idx[d..d + 8][4] == 0;
    assert CStr(r[KEY_AT..]) == [];
    assert r[NEXT_AT..] == idx[BucketAt(j + 10)..BucketAt(j + 10) + 8];
  }

  lemma StartsAbove(log: seq<Value>, d: nat)
    requires d in Starts(log)
    ensures d == 0 || DATA_HEADER <= d < |DataFile(log)|
  {
    if d != 0 {
      var i := StartIndex(log, d);
      DataFileShape(log, i);
    }
  }

  /** The bucket whose head the search takes for next_ptr when it reads at the data position d. */
  function Beyond(d: nat): int { (d - HEADER) / 8 + 10 }

  /** What a key of bucket h / 2 is answered. The data position d lies at a bucket's start, and the record's worth
      of bytes from there on in the bucket table. */
  function AnswerBeyond(f: Files, d: nat, y: Text): Result
    requires TABLE_END <= |f.idx| && (d == 0 || (HEADER <= d && Beyond(d) < BUCKETS))
  {
    if d == 0 then Returns(Absent)
    else if Beyond(d) == Hash(y) then Hangs
    else Returns(ViewFrom(f, Head(f.idx, Beyond(d)), y))
  }

  lemma SmallHead(idx: seq<byte>, starts: set<nat>, b: nat)
    requires IndexOk(idx, starts) && |idx| < WORD && b < BUCKETS
    ensures Head(idx, b) == 0 || TABLE_END <= Head(idx, b) < WORD
  {
    assert ChainOk(idx, starts, Head(idx, b), b);
  }

  lemma ReadWindow(idx: seq<byte>, j: nat, y: Text)
    requires TABLE_END <= |idx| && j + 10 < BUCKETS && Head(idx, j) < WORD && y != []
    ensures var d, next := BucketAt(j), Head(idx, j + 10);
      Chase(idx, d, y, {}) == if next == 0 then Miss else Chase(idx, Follow(d, next), y, {d})
  {
    WindowFields(idx, j);
    hide SeenKey, NextPtr, Head;
    assert {} + {BucketAt(j)} == {BucketAt(j)};
  }

  lemma Looping(idx: seq<byte>, d: nat, y: Text)
    requires d != 0 && d < |idx|
    ensures Chase(idx, d, y, {d}) == Endless
  {
  }

  /** The search of y after an even bucket's delete, for a data position at the start of bucket j. */
  lemma EvenSearch(idx: seq<byte>, starts: set<nat>, k: Text, y: Text, j: nat)
    requires IndexOk(idx, starts) && |idx| < WORD && y != [] && j + 10 < BUCKETS
    requires Find(idx, k) == Some(Head(idx, Hash(k))) && Hash(k) % 2 == 0 && Hash(y) == Hash(k) / 2
    requires InFile(idx, Head(idx, Hash(k))) && DataPtr(RecordAt(idx, Head(idx, Hash(k)))) == BucketAt(j)
    ensures Searched(Deleted(idx, k, AsCoded), y) ==
      if j + 10 == Hash(y) then Endless else Ended(Lookup(idx, Head(idx, j + 10), y))
  {
    hide Deleted, SameLinks, DataPtr, SeenKey, StoredKey, KeyEnds;
    hide NextPtr, Head, Hash, Lookup, ChainOk, Positions, Chase;
    var idx', d, c, b := Deleted(idx, k, AsCoded), BucketAt(j), Hash(y), j + 10;
    SmallHead(idx, starts, c);
    HeadDeleted(idx, starts, k);
    assert Head(idx', c) == d;
    SmallHead(idx, starts, j);
    SmallHead(idx, starts, b);
    ReadWindow(idx', j, y);
    if b == c {
      Looping(idx', d, y);
    } else if Head(idx, b) != 0 {
      assert ChainOk(idx, starts, Head(idx, b), b);
      ChainKept(idx, starts, k, Head(idx, b), b, y);
      ChaseOnChain(idx', starts, Head(idx, b), b, y, {d});
    } else {
      NoChain(idx, y);
    }
  }

  lemma DataKept(f: Files, starts: set<nat>, k: Text, b: nat, y: Text)
    requires IndexOk(f.idx, starts) && Find(f.idx, k) == Some(Head(f.idx, Hash(k))) && b < BUCKETS
    requires Searched(Deleted(f.idx, k, AsCoded), y) == Ended(Lookup(f.idx, Head(f.idx, b), y))
    ensures FetchOf(DeleteFiles(f, k, AsCoded), y) == Returns(ViewFrom(f, Head(f.idx, b), y))
  {
    hide Deleted, DataPtr, Head, Hash, ValueAt, Searched, Lookup, ChainOk;
    assert ChainOk(f.idx, starts, Head(f.idx, b), b);
    ChainKept(f.idx, starts, k, Head(f.idx, b), b, y);
  }

  /** Every key of bucket h / 2, after the delete of the head of an even bucket h whose data position lies at a
      bucket's start, on files under four gigabytes. */
  lemma HeadDeleteEven(f: Files, log: seq<Value>, k: Text, y: Text)
    requires Valid(f, log) && |f.idx| < WORD && |f.dat| < WORD && KeyOk(y)
    requires Find(f.idx, k) == Some(Head(f.idx, Hash(k))) && Hash(k) % 2 == 0 && Hash(y) == Hash(k) / 2
    requires var d := DataPtr(RecordAt(f.idx, Find(f.idx, k).value)); d % 8 == 0 && d + 80 < TABLE_END
    ensures var d := DataPtr(RecordAt(f.idx, Find(f.idx, k).value));
      (d == 0 || (HEADER <= d && Beyond(d) < BUCKETS)) &&
      FetchOf(DeleteFiles(f, k, AsCoded), y) == AnswerBeyond(f, d, y)
  {
    hide Deleted, SameLinks, DataPtr, SeenKey, StoredKey, KeyEnds, NextPtr, Head, Hash, ValueAt, Lookup, ChainOk;
    hide Positions, Chase, ViewFrom, Searched, Starts, DataFile, Follow;
    var idx, starts := f.idx, Starts(log);
    var d := DataPtr(RecordAt(idx, Find(idx, k).value));
    FindOnChain(idx, starts, k);
    SmallHead(idx, starts, Hash(y));
    StartsAbove(log, d);
    HeadDeleted(idx, starts, k);
    if d != 0 {
      var j := (d - HEADER) / 8;
      assert d == BucketAt(j) && j + 10 == Beyond(d);
      EvenSearch(idx, starts, k, y, j);
      if j + 10 != Hash(y) { DataKept(f, starts, k, j + 10, y); }
    } else {
      EmptiedBucket(DeleteFiles(f, k, AsCoded), y);
    }
  }

  lemma EmptiedBucket(f: Files, y: Text)
    requires TABLE_END <= |f.idx| && Head(f.idx, Hash(y)) == 0
    ensures FetchOf(f, y) == Returns(Absent)
  {
  }

  lemma NoChain(idx: seq<byte>, y: Text)
    ensures Lookup(idx, 0, y) == None
  {
  }

  // ---- when the coded delete works

  /** At any data position in the table: what is read as next_ptr is zero. Then the bytes that are read as a key
      decide. */
  lemma HeadDeleteClear(f: Files, log: seq<Value>, k: Text)
    requires Valid(f, log) && |f.idx| < WORD && |f.dat| < WORD && KeyOk(k) && Hash(k) == 0
    requires Find(f.idx, k) == Some(Head(f.idx, 0))
    requires var d := DataPtr(RecordAt(f.idx, Find(f.idx, k).value));
      d != 0 && d + RECORD <= TABLE_END && NextPtr(RecordAt(f.idx, d)) == 0
    ensures FetchOf(DeleteFiles(f, k, AsCoded), k) == Returns(Absent) <==>
      SeenKey(RecordAt(f.idx, DataPtr(RecordAt(f.idx, Find(f.idx, k).value)))) != k
  {
    hide Deleted, SameLinks, DataPtr, SeenKey, StoredKey, KeyEnds, NextPtr, Hash, Head, ValueAt, Lookup, ChainOk;
    hide Positions, Starts, DataFile, Follow;
    var f', starts := DeleteFiles(f, k, AsCoded), Starts(log);
    var d := DataPtr(RecordAt(f.idx, Find(f.idx, k).value));
    FindOnChain(f.idx, starts, k);
    SmallHead(f.idx, starts, 0);
    StartsAbove(log, d);
    HeadDeleted(f.idx, starts, k);
    assert Head(f'.idx, 0) == d;
    WindowKept(f.idx, k, d);
  }

  lemma WindowKept(idx: seq<byte>, k: Text, d: nat)
    requires TABLE_END <= |idx| && Hash(k) == 0 && HEADER <= d && d + RECORD <= TABLE_END
    requires Find(idx, k) == Some(Head(idx, 0)) && Aligned(Head(idx, 0))
    ensures var idx' := Deleted(idx, k, AsCoded);
      InFile(idx', d) && SeenKey(RecordAt(idx', d)) == SeenKey(RecordAt(idx, d)) &&
      NextPtr(RecordAt(idx', d)) == NextPtr(RecordAt(idx, d))
  {
    hide Head, Hash, Find, Le4, Write, CStr, RTrim;
    var q := Find(idx, k).value;
    var idx1, idx' := Write(idx, q, Le4(1)), Deleted(idx, k, AsCoded);
    var read := idx1[q + 72..q + 76];
    assert idx' == Write(idx1, HEADER, read);
    WriteElsewhere(idx, q, Le4(1), d + KEY_AT, d + RECORD);
    WriteElsewhere(idx1, HEADER, read, d + KEY_AT, d + RECORD);
    var r, r' := RecordAt(idx, d), RecordAt(idx', d);
    SliceOfSlice(idx, d, d + RECORD, KEY_AT, RECORD);
    SliceOfSlice(idx', d, d + RECORD, KEY_AT, RECORD);
    assert r[KEY_AT..] == r'[KEY_AT..];
    assert r[NEXT_AT..] == r[KEY_AT..][NEXT_AT - KEY_AT..] && r'[NEXT_AT..] == r'[KEY_AT..][NEXT_AT - KEY_AT..];
  }

  /** The bytes at the data position d, read as a key record, neither name k nor lead to a record that does. */
  predicate PassedBy(idx: seq<byte>, d: nat, k: Text)
    requires InFile(idx, d)
  {
    var r := RecordAt(idx, d);
    SeenKey(r) != k && (NextPtr(r) == 0 || Lookup(idx, NextPtr(r), k) == None)
  }

  /** Where the search is led when it reads at the data position d: to the end, or to the head of a bucket. */
  predicate Tame(idx: seq<byte>, d: nat) {
    d == 0 || (HEADER <= d && d + RECORD <= TABLE_END <= |idx| && (d % 8 == 0 || NextPtr(RecordAt(idx, d)) == 0))
  }

  lemma AlignedPassedBy(f: Files, log: seq<Value>, d: nat, k: Text)
    requires Valid(f, log) && |f.idx| < WORD && KeyOk(k) && d % 8 == 0 && HEADER <= d && d + RECORD <= TABLE_END
    ensures InFile(f.idx, d) && Beyond(d) < BUCKETS
    ensures PassedBy(f.idx, d, k) <==> Lookup(f.idx, Head(f.idx, Beyond(d)), k) == None
  {
    hide SeenKey, NextPtr, Head, Lookup;
    var j := (d - HEADER) / 8;
    assert d == BucketAt(j);
    SmallHead(f.idx, Starts(log), j);
    WindowFields(f.idx, j);
    NoChain(f.idx, k);
  }

  lemma ViewFromAbsent(f: Files, log: seq<Value>, b: nat, k: Text)
    requires Valid(f, log) && b < BUCKETS
    ensures ViewFrom(f, Head(f.idx, b), k) == Absent <==> Lookup(f.idx, Head(f.idx, b), k) == None
  {
  }

  /** As coded, and on files under four gigabytes, delete removes its key exactly when the key heads bucket 0 and
      the bytes that stand in the bucket table at its data position do not lead back to it. */
  lemma CodedDeleteExactly(f: Files, log: seq<Value>, k: Text)
    requires Valid(f, log) && |f.idx| < WORD && |f.dat| < WORD && KeyOk(k) && Find(f.idx, k).Some?
    requires Tame(f.idx, DataPtr(RecordAt(f.idx, Find(f.idx, k).value)))
    ensures var q := Find(f.idx, k).value;
      var d := DataPtr(RecordAt(f.idx, q));
      FetchOf(DeleteFiles(f, k, AsCoded), k) == Returns(Absent) <==>
        Hash(k) == 0 && q == Head(f.idx, 0) && (d == 0 || PassedBy(f.idx, d, k))
  {
    hide Deleted, SameLinks, DataPtr, SeenKey, StoredKey, KeyEnds, NextPtr, Hash, Head, ValueAt, Lookup, ChainOk;
    hide Positions, Starts, DataFile, Follow, FetchOf, View, ViewFrom, PassedBy;
    var q := Find(f.idx, k).value;
    var d := DataPtr(RecordAt(f.idx, q));
    if Hash(k) != 0 || q != Head(f.idx, 0) {
      CodedDeleteMisses(f, log, k);
    } else if d != 0 && d % 8 != 0 {
      HeadDeleteClear(f, log, k);
      ClearPassedBy(f.idx, d, k);
    } else {
      HeadDeleteEven(f, log, k, k);
      if d != 0 {
        AlignedPassedBy(f, log, d, k);
        ViewFromAbsent(f, log, Beyond(d), k);
      }
    }
  }

  lemma ClearPassedBy(idx: seq<byte>, d: nat, k: Text)
    requires InFile(idx, d) && NextPtr(RecordAt(idx, d)) == 0
    ensures PassedBy(idx, d, k) <==> SeenKey(RecordAt(idx, d)) != k
  {
  }

  /** A key that does not head bucket 0 is still found, and fetched. */
  lemma CodedDeleteMisses(f: Files, log: seq<Value>, k: Text)
    requires Valid(f, log) && |f.idx| < WORD && Find(f.idx, k).Some?
    requires Hash(k) != 0 || Find(f.idx, k).value != Head(f.idx, Hash(k))
    ensures FetchOf(DeleteFiles(f, k, AsCoded), k) == Returns(View(f, k)) && View(f, k) != Absent
  {
    hide Deleted, SameLinks, DataPtr, SeenKey, StoredKey, KeyEnds, NextPtr, Hash, Head, ValueAt, Lookup, ChainOk;
    hide Positions, Starts, DataFile, Follow, FetchOf, View;
    CodedDeleteKeeps(f, log, k);
    var starts, f' := Starts(log), DeleteFiles(f, k, AsCoded);
    if Find(f.idx, k).value == Head(f.idx, Hash(k)) {
      HeadDeleteOthers(f, log, k, k);
    } else {
      RedirectedChain(f.idx, starts, k, k);
      CodedDeleteBytes(f.idx, starts, k);
      var n := Find(f.idx, k).value + RECORD;
      SearchedOnChain(f', if InFile(f.idx, n) then starts + {DataMoved(f.idx, k, n)} else starts, k);
    }
  }

  lemma ZeroNear(idx: seq<byte>, starts: set<nat>, d: nat) returns (n: nat)
    requires IndexOk(idx, starts) && |idx| < WORD && HEADER <= d && d + RECORD <= TABLE_END
    ensures n <= 4 && idx[d + KEY_AT + n] == 0
  {
    var at := d + KEY_AT;
    var r := at % 8;
    n := if r >= 4 then 0 else 4 - r;
    var j := (at - r - HEADER) / 8;
    assert at - r == BucketAt(j);
    SmallHead(idx, starts, j);
    LowerNumber(idx[BucketAt(j)..BucketAt(j) + 8]);
    assert idx[BucketAt(j)..BucketAt(j) + 8][r + n] == idx[at + n];
  }

  /** No five bytes of the table are without a zero, so a longer key is never taken for what stands there. */
  lemma LongKeysPass(idx: seq<byte>, starts: set<nat>, d: nat, k: Text)
    requires IndexOk(idx, starts) && |idx| < WORD && HEADER <= d && d + RECORD <= TABLE_END && |k| > 4
    ensures InFile(idx, d) && SeenKey(RecordAt(idx, d)) != k
  {
    hide RTrim, ChainOk;
    var n := ZeroNear(idx, starts, d);
    var s := RecordAt(idx, d)[KEY_AT..];
    assert s[n] == idx[d + KEY_AT + n];
    CStrStops(s, n);
    RTrimShortens(CStr(s));
  }

  // ---- two keys of bucket 0

  /** "L1A" and, with a line feed behind it, a key that is stored but never found. */
  lemma HashOfL1A()
    ensures Hash([76, 49, 65]) == 0 && Hash([76, 49, 65, 10]) == 10
    ensures RTrim([76, 49, 65]) == [76, 49, 65] == RTrim([76, 49, 65, 10])
  {
    var a: Text := [76, 49, 65, 10];
    assert a[..0] == [] && a[..1] == [76] && a[..2] == [76, 49] && a[..3] == [76, 49, 65];
    assert Bkdr(a[..1]) == 76 by { assert a[..1][..0] == []; }
    assert Bkdr(a[..2]) == 10005 by { assert a[..2][..1] == a[..1]; }
    assert Bkdr(a[..3]) == 1310720 by { assert a[..3][..2] == a[..2]; }
    assert Bkdr(a) == 171704330;
    assert RTrim(a) == RTrim(a[..3]);
  }

  lemma InsertedFirst(k: Text, v: Value, pad: seq<byte>)
    requires KeyOk(k) && Clean(k) && PadOk(k, pad)
    ensures var f := InsertFiles(Created(), k, v, pad);
      && |f.idx| == TABLE_END + RECORD && RecordAt(f.idx, TABLE_END) == NewRecord(k, pad, DATA_HEADER)
      && Valid(f, [v]) && Find(f.idx, k) == Some(TABLE_END) && View(f, k) == Found(v)
      && forall b :: 0 <= b < BUCKETS ==> Head(f.idx, b) == if b == Hash(k) then TABLE_END else 0
  {
    hide Hash, NewRecord, Inserted, Append, Head, RTrim;
    hide DataPtr, SeenKey, ValueAt, DataFile, StoredKey, NextPtr, KeyEnds;
    var f0, f := Created(), InsertFiles(Created(), k, v, pad);
    CreatedIsEmpty();
    assert View(f0, k) == Absent && [] + [v] == [v];
    InsertRefines(f0, [], map[], k, v, pad);
    AppendStarts([], v);
    InsertedFind(f0.idx, Starts([]), Starts([v]), k, pad, DATA_HEADER, k);
    InsertedNew(f0.idx, k, pad, DATA_HEADER);
    forall b | 0 <= b < BUCKETS ensures Head(f.idx, b) == if b == Hash(k) then TABLE_END else 0 {
      HeadOfZeros(TABLE_END, b);
      InsertedHead(f0.idx, Starts([]), k, pad, DATA_HEADER, b);
    }
  }

  /** The coded delete of the first key ever stored removes it when it hashes to 0 and no other key is there. */
  lemma HeadDeleteWorks(pad: seq<byte>, v: Value)
    requires |pad| == 4
    ensures var k: Text := [76, 49, 65];
      var f := InsertFiles(Created(), k, v, pad);
      && View(f, k) == Found(v) && Find(f.idx, k).Some?
      && FetchOf(DeleteFiles(f, k, AsCoded), k) == Returns(Absent)
  {
    hide Hash, NewRecord, Inserted, Append, Head, RTrim;
    hide DataPtr, SeenKey, ValueAt, StoredKey, NextPtr, KeyEnds, PassedBy;
    hide Deleted, FetchOf, Lookup, View;
    var k: Text := [76, 49, 65];
    HashOfL1A();
    InsertedFirst(k, v, pad);
    NewRecordFields(k, pad, DATA_HEADER);
    var f := InsertFiles(Created(), k, v, pad);
    AlignedPassedBy(f, [v], DATA_HEADER, k);
    NoChain(f.idx, k);
    CodedDeleteExactly(f, [v], k);
  }

  /** It does not when the bucket that the search is led to holds the same key with white space behind it: then
      that key's value is answered. */
  lemma HeadDeleteFindsAnother(pad: seq<byte>, v: Value, w: Value)
    requires |pad| == 4
    ensures var k: Text, other: Text := [76, 49, 65], [76, 49, 65, 10];
      var f := InsertFiles(InsertFiles(Created(), k, v, pad), other, w, pad);
      && View(f, k) == Found(v) && Find(f.idx, k).Some?
      && FetchOf(DeleteFiles(f, k, AsCoded), k) == Returns(Found(w))
  {
    hide Hash, NewRecord, Inserted, Append, Head, RTrim, DataPtr, SeenKey, ValueAt, StoredKey, NextPtr, KeyEnds;
    hide Deleted, FetchOf, Lookup, DataFile, ChainOk;
    var k: Text, other: Text := [76, 49, 65], [76, 49, 65, 10];
    HashOfL1A();
    InsertedFirst(k, v, pad);
    NewRecordFields(k, pad, DATA_HEADER);
    var f1 := InsertFiles(Created(), k, v, pad);
    var f := InsertFiles(f1, other, w, pad);
    var data := |f1.dat|;
    assert [v] + [w] == [v, w];
    AppendStarts([v], w);
    InsertedLookups(f1.idx, Starts([v]), Starts([v, w]), other, pad, data);
    InsertedHead(f1.idx, Starts([v]), other, pad, data, 0);
    InsertedChain(f1.idx, Starts([v]), Starts([v, w]), other, pad, data, 10, k);
    InsertedData(f1.idx, Starts([v]), other, pad, data, k);
    InsertedNew(f1.idx, other, pad, data);
    NewRecordFields(other, pad, data);
    NoChain(f1.idx, k);
    InsertedView(f1, [v], other, w, pad, k);
    ValueAtStart([v, w], data);
    HeadDeleteEven(f, [v, w], k, k);
  }
}
