/** The bytes of the two files after each call, with every offset, size and code written out. */
module TmdbLayout {
  import opened Bytes
  import opened TmdbData
  import opened TmdbIndex
  import opened TmdbHash
  import opened Tmdb
  import opened TmdbUpdate
  import opened TmdbChase
  import opened TmdbHeadDelete
  import opened TmdbStore

  lemma FourBytes(n: nat)
    requires n < 4294967296
    ensures Le4(n) == [n % 256, n / 256 % 256, n / 65536 % 256, n / 16777216]
  {
  }

  lemma EightBytes(n: nat)
    ensures Le8(n) == Le4(n % 4294967296) + Le4(n / 4294967296)
  {
  }

  /** White space is blank, tab, line feed, vertical tab, form feed and carriage return. */
  lemma TrimmedBytes(s: Text, c: byte)
    requires c != 0
    ensures RTrim(s + [c]) == RTrim(s) <==> c == 32 || c == 9 || c == 10 || c == 11 || c == 12 || c == 13
  {
    assert (s + [c])[..|s|] == s;
  }

  /** A new store: 256 bytes and 655360 eight-byte buckets, and 256 bytes, all zero. */
  lemma CreatedBytes()
    ensures |Created().idx| == 5243136 && forall i :: 0 <= i < 5243136 ==> Created().idx[i] == 0
    ensures |Created().dat| == 256 && forall i :: 0 <= i < 256 ==> Created().dat[i] == 0
  {
  }

  /** Outside `at`..`at` + n nothing of the old file has changed. */
  predicate SameOutside(old_: seq<byte>, new_: seq<byte>, at: nat, n: nat) {
    |old_| <= |new_| && forall i :: 0 <= i < |old_| && !(at <= i < at + n) ==> new_[i] == old_[i]
  }

  lemma WriteOutside(file: seq<byte>, at: nat, data: seq<byte>)
    ensures SameOutside(file, Write(file, at, data), at, |data|)
  {
  }

  /** A stored value: a zero flag, the length, the payload, and eight zeros; and, if the file had 280 bytes or more,
      its old size in the last eight of them. */
  lemma StoredValueBytes(log: seq<Value>, v: Value)
    ensures var f, g := DataFile(log), DataFile(log + [v]);
      && |g| == |f| + 16 + |v|
      && g[|f|..|f| + 4] == [0, 0, 0, 0] && g[|f| + 4..|f| + 8] == Le4(|v|)
      && g[|f| + 8..|f| + 8 + |v|] == v && g[|f| + 8 + |v|..] == [0, 0, 0, 0, 0, 0, 0, 0]
      && |f| >= 256
      && (if |f| >= 280 then g[|f| - 8..|f|] == Le8(|f|) && SameOutside(f, g, |f| - 8, 8) else f <= g)
  {
    assert (log + [v])[..|log|] == log;
    var f, g := DataFile(log), DataFile(log + [v]);
    assert g == Append(f, v);
    hide DataFile, Le4;
    var head := Patched(f);
    ZeroBytes();
    RecordPieces(head, Le4(|v|), v);
    assert |f| >= 280 ==> head == Write(f, |f| - 8, Le8(|f|));
    if |f| >= 280 { WriteHere(f, |f| - 8, Le8(|f|)); }
  }

  lemma ZeroBytes()
    ensures Le4(0) == [0, 0, 0, 0] && Le8(0) == [0, 0, 0, 0, 0, 0, 0, 0]
  {
  }

  lemma RecordPieces(head: seq<byte>, len: seq<byte>, v: seq<byte>)
    requires |len| == 4
    ensures var g, n := head + ([0, 0, 0, 0] + len + v + [0, 0, 0, 0, 0, 0, 0, 0]), |head|;
      && g[n..n + 4] == [0, 0, 0, 0] && g[n + 4..n + 8] == len
      && g[n + 8..n + 8 + |v|] == v && g[n + 8 + |v|..] == [0, 0, 0, 0, 0, 0, 0, 0]
  {
  }

  /** A key record: a zero flag, the key in 64 bytes filled up with zeros, four bytes of padding, the data position
      and a zero link. */
  lemma KeyRecordBytes(key: Text, pad: seq<byte>, data: nat)
    requires |key| <= 64 && PadOk(key, pad)
    ensures var r := NewRecord(key, pad, data);
      && |r| == 88 && r[..4] == [0, 0, 0, 0] && r[4..4 + |key|] == key
      && (forall i :: 4 + |key| <= i < 68 ==> r[i] == 0)
      && r[68..72] == pad && r[72..80] == Le8(data) && r[80..] == [0, 0, 0, 0, 0, 0, 0, 0]
  {
    hide Le8, Le4;
    ZeroBytes();
  }

  /** Where the pointer to a new record is written: the bucket, or the link of the chain's last record. */
  function LinkAt(idx: seq<byte>, k: Text): int
    requires TABLE_END <= |idx|
  {
    var bucket := 256 + 8 * (Poly(k) % 2147483648 % 655360);
    if idx[bucket..bucket + 8] == [0, 0, 0, 0, 0, 0, 0, 0] then bucket
    else
      var head := FromLe8(idx[bucket..bucket + 8]);
      if InFile(idx, head) then Tail(idx, head) + 80 else bucket
  }

  lemma ZeroNumber(s: seq<byte>)
    requires |s| == 8
    ensures FromLe8(s) == 0 <==> s == [0, 0, 0, 0, 0, 0, 0, 0]
  {
    hide FromLe4;
    ZeroWordOnly(s[..4]);
    ZeroWordOnly(s[4..]);
    assert s == s[..4] + s[4..];
  }

  lemma ZeroWordOnly(s: seq<byte>)
    requires |s| == 4
    ensures FromLe4(s) == 0 <==> s == [0, 0, 0, 0]
  {
  }

  /** An insertion adds the key record and changes eight bytes before it: the link to it. */
  lemma InsertedBytes(idx: seq<byte>, starts: set<nat>, k: Text, pad: seq<byte>, data: nat)
    requires IndexOk(idx, starts) && KeyOk(k) && PadOk(k, pad)
    ensures var idx', at := Inserted(idx, k, pad, data), LinkAt(idx, k);
      && idx'[|idx|..] == NewRecord(k, pad, data)
      && 256 <= at && at + 8 <= |idx| && idx'[at..at + 8] == Le8(|idx|) && SameOutside(idx, idx', at, 8)
  {
    HashIsPoly(k);
    FindOnChain(idx, starts, k);
    InsertedNew(idx, k, pad, data);
    var b := BucketAt(Hash(k));
    ZeroNumber(idx[b..b + 8]);
    var idx1 := idx + NewRecord(k, pad, data);
    assert LinkAt(idx, k) == Slot(idx, Hash(k)) by { hide Hash, Poly, NewRecord, FromLe8, IndexOk; }
    assert Slot(idx, Hash(k)) >= 256;
    hide NewRecord, Le8, Hash, Slot, LinkAt, IndexOk, Poly;
    WriteHere(idx1, Slot(idx, Hash(k)), Le8(|idx|));
    WriteOutside(idx1, Slot(idx, Hash(k)), Le8(|idx|));
  }

  /** The record whose link an insertion patches is the one on the chain with no successor. */
  lemma {:induction false} TailIsLast(idx: seq<byte>, starts: set<nat>, p: nat, b: nat)
    requires p != 0 && ChainOk(idx, starts, p, b)
    ensures OnChain(idx, p, Tail(idx, p)) && idx[Tail(idx, p) + 80..Tail(idx, p) + 88] == [0, 0, 0, 0, 0, 0, 0, 0]
    decreases |idx| - p
  {
    var n := NextPtr(RecordAt(idx, p));
    assert RecordAt(idx, p)[80..] == idx[p + 80..p + 88];
    ZeroNumber(idx[p + 80..p + 88]);
    hide FromLe8, Hash, StoredKey, SeenKey, DataPtr, KeyEnds;
    if n != 0 {
      assert RecordOk(idx, starts, n, b);
      TailIsLast(idx, starts, n, b);
    }
  }

  /** The eight bytes of a replacement: at offset 68 as coded, at 72 as commented. */
  lemma ReplacedBytes(idx: seq<byte>, q: nat, data: nat, how: Addresses)
    requires InFile(idx, q)
    ensures var idx', at := Replaced(idx, q, data, how), q + if how.AsCoded? then 68 else 72;
      |idx'| == |idx| && idx'[at..at + 8] == Le8(data) && SameOutside(idx, idx', at, 8)
  {
    hide Le8;
    WriteHere(idx, q + if how.AsCoded? then 68 else 72, Le8(data));
  }

  /** The two writes of a deletion as coded: 1 into the flag, and the low half of data_ptr to `at`. */
  predicate FlagAndHalf(idx: seq<byte>, idx': seq<byte>, q: nat, at: nat) {
    && q + 88 <= |idx| <= |idx'| && at + 4 <= |idx'|
    && idx'[q..q + 4] == [1, 0, 0, 0] && idx'[at..at + 4] == idx[q + 72..q + 76]
    && forall i :: 0 <= i < |idx| && !(at <= i < at + 4) && !(q <= i < q + 4) ==> idx'[i] == idx[i]
  }

  lemma TwoWrites(idx: seq<byte>, q: nat, at: nat)
    requires q + 88 <= |idx| && (at + 4 <= q || at == q + 160)
    ensures var idx1 := Write(idx, q, [1, 0, 0, 0]);
      |idx1| == |idx| && FlagAndHalf(idx, Write(idx1, at, idx1[q + 72..q + 76]), q, at)
  {
    var idx1 := Write(idx, q, [1, 0, 0, 0]);
    var read := idx1[q + 72..q + 76];
    WriteElsewhere(idx, q, [1, 0, 0, 0], q + 72, q + 76);
    WriteHere(idx, q, [1, 0, 0, 0]);
    WriteOutside(idx, q, [1, 0, 0, 0]);
    WriteHere(idx1, at, read);
    WriteElsewhere(idx1, at, read, q, q + 4);
    WriteOutside(idx1, at, read);
    hide Write;
  }

  lemma CodedWrites(idx: seq<byte>, starts: set<nat>, k: Text)
    requires IndexOk(idx, starts) && Find(idx, k).Some?
    ensures var q := Find(idx, k).value;
      FlagAndHalf(idx, Deleted(idx, k, AsCoded), q, if Head(idx, Hash(k)) == q then 256 + 4 * Hash(k) else q + 160)
  {
    hide Hash, IndexOk, Le4, Le8, Head, Lookup, Find, Write, FlagAndHalf, Before, NextPtr;
    FoundAbove(idx, starts, k);
    var h, q := Hash(k), Find(idx, k).value;
    var at := if Head(idx, h) == q then 256 + 4 * h else q + 160;
    OneFlag();
    TwoWrites(idx, q, at);
    var idx1 := Write(idx, q, [1, 0, 0, 0]);
    assert Deleted(idx, k, AsCoded) == Write(idx1, at, idx1[q + 72..q + 76]);
  }

  lemma FoundAbove(idx: seq<byte>, starts: set<nat>, k: Text)
    requires IndexOk(idx, starts) && Find(idx, k).Some?
    ensures TABLE_END <= Find(idx, k).value <= |idx| - 88
  {
    FindOnChain(idx, starts, k);
  }

  /** As coded they go to 256 + 4 * h for the head of bucket h, and behind the record for another. */
  lemma CodedDeletedBytes(idx: seq<byte>, starts: set<nat>, k: Text)
    requires IndexOk(idx, starts) && Find(idx, k).Some? && |idx| <= OFF_MAX
    ensures var h, q := Poly(k) % 2147483648 % 655360, Find(idx, k).value;
      FlagAndHalf(idx, Deleted(idx, k, AsCoded), q,
                  if idx[256 + 8 * h..264 + 8 * h] == Le8(q) then 256 + 4 * h else q + 160)
  {
    hide Poly, Hash, Le4, Le8, Head, Find, Lookup, Write, FlagAndHalf, Deleted;
    HashIsPoly(k);
    FoundAbove(idx, starts, k);
    HeadIsBytes(idx, Hash(k), Find(idx, k).value);
    CodedWrites(idx, starts, k);
  }

  lemma OneFlag()
    ensures Le4(1) == [1, 0, 0, 0]
  {
  }

  lemma HeadIsBytes(idx: seq<byte>, h: nat, q: nat)
    requires TABLE_END <= |idx| && h < BUCKETS
    requires q <= OFF_MAX
    ensures Head(idx, h) == q <==> idx[256 + 8 * h..264 + 8 * h] == Le8(q)
  {
    SameNumber(idx[256 + 8 * h..264 + 8 * h]);
    FromLe8Le8(q);
  }

  /** A number's eight bytes are determined by it. */
  lemma SameNumber(s: seq<byte>)
    requires |s| == 8
    ensures Le8(FromLe8(s)) == s
  {
    var low, high := FromLe4(s[..4]), FromLe4(s[4..]);
    SameWord(s[..4]);
    SameWord(s[4..]);
    hide Le4, FromLe4;
    assert FromLe8(s) % WORD == low && FromLe8(s) / WORD == high;
    assert s == s[..4] + s[4..];
  }

  lemma SameWord(s: seq<byte>)
    requires |s| == 4
    ensures Le4(FromLe4(s)) == s
  {
    var c := s[3] as int; var b := s[2] as int + 256 * c; var a := s[1] as int + 256 * b;
    assert FromLe4(s) / 256 == a && a / 256 == b && b / 256 == c;
  }
}
