/** The tmdb data file: a header and back-to-back records. */
module TmdbData {
  import opened Bytes

  const DATA_HEADER: nat := 256
  const STRUCT_SIZE: nat := 24        // sizeof(struct tdb_data_record_t)
  const MAX_RECORD_LEN: nat := 4194304

  type Value = t: Text | |t| <= MAX_RECORD_LEN

  /** The two fields before the payload, the payload, and the link after it. */
  function RecordBytes(v: Text, next: nat): (r: seq<byte>)
    ensures |r| == 16 + |v|
  {
    Le4(0) + Le4(|v|) + v + Le8(next)
  }

  /** What _db_store does to the data file: patch the last link, then append. */
  function Append(f: seq<byte>, v: Text): (g: seq<byte>)
    requires DATA_HEADER <= |f|
    ensures |g| == |f| + 16 + |v|
  {
    Patched(f) + RecordBytes(v, 0)
  }

  /** The file after storing the values of `log`, oldest first. */
  function DataFile(log: seq<Value>): (f: seq<byte>)
    ensures |f| == Start(log, |log|)
  {
    if log == [] then Zeros(DATA_HEADER)
    else
      StartOfPrefix(log, |log| - 1, |log| - 1);
      Append(DataFile(log[..|log| - 1]), log[|log| - 1])
  }

  /** Where record i starts; with i == |log|, where the file ends. */
  function Start(log: seq<Value>, i: nat): (d: nat)
    requires i <= |log|
    ensures DATA_HEADER + 16 * i <= d
  {
    if i == 0 then DATA_HEADER else Start(log, i - 1) + 16 + |log[i - 1]|
  }

  lemma {:induction false} StartOfPrefix(log: seq<Value>, n: nat, i: nat)
    requires i <= n <= |log|
    ensures Start(log[..n], i) == Start(log, i)
  {
    if i > 0 { StartOfPrefix(log, n, i - 1); }
  }

  lemma {:induction false} StartsGrow(log: seq<Value>, i: nat, j: nat)
    requires i < j <= |log|
    ensures Start(log, i) + 16 + |log[i]| <= Start(log, j)
    decreases j
  {
    if i + 1 < j { StartsGrow(log, i, j - 1); }
  }

  /** The link the code leaves in record i: a first record that ends before byte 280 is never linked. */
  function Link(log: seq<Value>, i: nat): nat
    requires i < |log|
  {
    if i + 1 == |log| then 0
    else if Start(log, i + 1) >= DATA_HEADER + STRUCT_SIZE then Start(log, i + 1)
    else 0
  }

  /** A whole record with payload v and link `next` stands at d. */
  predicate RecordIs(f: seq<byte>, d: nat, v: Text, next: nat) {
    d + 16 + |v| <= |f| && f[d..d + 16 + |v|] == RecordBytes(v, next)
  }

  /** The fields of a record, read back from the file. */
  lemma RecordFields(f: seq<byte>, d: nat, v: Text, next: nat)
    requires RecordIs(f, d, v, next) && |v| < WORD
    ensures FromLe4(f[d..d + 4]) == 0
    ensures FromLe4(f[d + 4..d + 8]) == |v|
    ensures f[d + 8..d + 8 + |v|] == v
    ensures f[d + 8 + |v|..d + 16 + |v|] == Le8(next)
  {
    Pieces(f, d, Le4(0), Le4(|v|), v, Le8(next));
    FromLe4Le4(0);
    FromLe4Le4(|v|);
  }

  lemma Pieces(f: seq<byte>, d: nat, h: seq<byte>, l: seq<byte>, v: seq<byte>, n: seq<byte>)
    requires |h| == 4 && |l| == 4 && |n| == 8 && d + 16 + |v| <= |f|
    requires f[d..d + 16 + |v|] == h + l + v + n
    ensures f[d..d + 4] == h && f[d + 4..d + 8] == l
    ensures f[d + 8..d + 8 + |v|] == v && f[d + 8 + |v|..d + 16 + |v|] == n
  {
    var e := d + 16 + |v|;
    var r := f[d..e];
    assert r[0..4] == h && r[4..8] == l && r[8..8 + |v|] == v && r[8 + |v|..16 + |v|] == n;
    SliceOfSlice(f, d, e, 0, 4);
    SliceOfSlice(f, d, e, 4, 8);
    SliceOfSlice(f, d, e, 8, 8 + |v|);
    SliceOfSlice(f, d, e, 8 + |v|, 16 + |v|);
  }

  lemma SliceOfSlice(f: seq<byte>, d: nat, e: nat, a: nat, b: nat)
    requires d <= e <= |f| && a <= b <= e - d
    ensures f[d..e][a..b] == f[d + a..d + b]
  {
    assert forall i :: 0 <= i < b - a ==> f[d..e][a..b][i] == f[d + a + i] == f[d + a..d + b][i];
  }

  /** A record that ends before `lo` survives a change from `lo` on. */
  lemma RecordKept(f: seq<byte>, g: seq<byte>, d: nat, v: Text, next: nat, lo: nat)
    requires RecordIs(f, d, v, next) && d + 16 + |v| <= lo <= |f| && lo <= |g|
    requires f[..lo] == g[..lo]
    ensures RecordIs(g, d, v, next)
  {
    SliceOfPrefix(f, g, d, d + 16 + |v|, lo);
  }

  lemma SliceOfPrefix(f: seq<byte>, g: seq<byte>, a: nat, b: nat, lo: nat)
    requires a <= b <= lo <= |f| && lo <= |g| && f[..lo] == g[..lo]
    ensures f[a..b] == g[a..b]
  {
    assert f[a..b] == f[..lo][a..b] && g[a..b] == g[..lo][a..b];
  }

  /** The data file before the appended bytes: the last link now names the new record. */
  function Patched(f: seq<byte>): (g: seq<byte>)
    requires DATA_HEADER <= |f|
    ensures |g| == |f|
  {
    if |f| < DATA_HEADER + STRUCT_SIZE then f else Write(f, |f| - 8, Le8(|f|))
  }

  lemma PatchedPrefix(f: seq<byte>)
    requires DATA_HEADER + STRUCT_SIZE <= |f|
    ensures Patched(f)[..|f| - 8] == f[..|f| - 8]
  {
    WriteElsewhere(f, |f| - 8, Le8(|f|), 0, |f| - 8);
    assert f[0..|f| - 8] == f[..|f| - 8] && Patched(f)[0..|f| - 8] == Patched(f)[..|f| - 8];
  }

  /** Patching the last eight bytes of a file that ends with a record rewrites just its link. */
  lemma RecordPatched(f: seq<byte>, d: nat, v: Text)
    requires RecordIs(f, d, v, 0) && d + 16 + |v| == |f| && DATA_HEADER <= |f|
    ensures RecordIs(Patched(f), d, v, if |f| < DATA_HEADER + STRUCT_SIZE then 0 else |f|)
  {
    if |f| >= DATA_HEADER + STRUCT_SIZE {
      var h, l := Le4(0), Le4(|v|);
      var n, m := Le8(0), Le8(|f|);
      PatchTail(f, d, h + l + v, n, m);
    }
  }

  lemma PatchTail(f: seq<byte>, d: nat, front: seq<byte>, n: seq<byte>, m: seq<byte>)
    requires |n| == |m| == 8 && d + |front| + 8 == |f| && f[d..] == front + n
    ensures Write(f, |f| - 8, m)[d..] == front + m
  {
    assert f[d..|f| - 8] == f[d..][..|front|] == front;
  }

  /** Every record is where the lengths before it put it, with the link described by Link. */
  lemma {:induction false} DataFileShape(log: seq<Value>, i: nat)
    requires i < |log|
    ensures RecordIs(DataFile(log), Start(log, i), log[i], Link(log, i))
    decreases |log|
  {
    hide RecordBytes, Patched, RecordIs;
    var n := |log| - 1;
    var f := DataFile(log[..n]);
    StartOfPrefix(log, n, n);
    StartOfPrefix(log, n, i);
    var d, v := Start(log, i), log[i];
    if i == n {
      LastRecord(f, v);
    } else {
      DataFileShape(log[..n], i);
      StartOfPrefix(log, n, i + 1);
      if i + 1 == n {
        PreviousRecord(f, d, v, log[n]);
      } else {
        StartsGrow(log, i + 1, n);
        EarlierRecord(f, d, v, Link(log, i), log[n]);
      }
    }
  }

  lemma LastRecord(f: seq<byte>, v: Text)
    requires DATA_HEADER <= |f|
    ensures RecordIs(Append(f, v), |f|, v, 0)
  {
    var g, r := Patched(f), RecordBytes(v, 0);
    assert (g + r)[|g|..|g| + |r|] == r;
  }

  lemma PreviousRecord(f: seq<byte>, d: nat, u: Text, v: Text)
    requires RecordIs(f, d, u, 0) && d + 16 + |u| == |f| && DATA_HEADER <= |f|
    ensures RecordIs(Append(f, v), d, u, if |f| < DATA_HEADER + STRUCT_SIZE then 0 else |f|)
  {
    RecordPatched(f, d, u);
    var g, r := Patched(f), RecordBytes(v, 0);
    assert (g + r)[..|f|] == g[..|f|];
    RecordKept(g, g + r, d, u, if |f| < DATA_HEADER + STRUCT_SIZE then 0 else |f|, |f|);
  }

  lemma EarlierRecord(f: seq<byte>, d: nat, u: Text, next: nat, v: Text)
    requires RecordIs(f, d, u, next) && d + 16 + |u| + 16 <= |f| && DATA_HEADER <= d
    ensures RecordIs(Append(f, v), d, u, next)
  {
    PatchedPrefix(f);
    var g, r := Patched(f), RecordBytes(v, 0);
    assert (g + r)[..|f| - 8] == g[..|f| - 8];
    RecordKept(f, g + r, d, u, next, |f| - 8);
  }

  lemma {:induction false} HeaderStaysZero(log: seq<Value>)
    ensures DataFile(log)[..DATA_HEADER] == Zeros(DATA_HEADER)
  {
    if log != [] {
      var f := DataFile(log[..|log| - 1]);
      HeaderStaysZero(log[..|log| - 1]);
      if |f| >= DATA_HEADER + STRUCT_SIZE {
        PatchedPrefix(f);
        SliceOfPrefix(f, Patched(f), 0, DATA_HEADER, |f| - 8);
      }
    }
  }

  /** What _db_fetch reads at d: the length, then that many bytes, cut at the first NUL. */
  function ValueAt(f: seq<byte>, d: nat): ReadResult {
    if d + 8 > |f| then Short
    else
      var len := FromLe4(f[d + 4..d + 8]);
      if d + 8 + len > |f| then Short else Read(CStr(f[d + 8..d + 8 + len]))
  }

  /** A short read ends the program. */
  datatype ReadResult = Short | Read(value: Text)

  /** The data positions a key record may hold. Position 0 is the header. */
  function Starts(log: seq<Value>): (s: set<nat>)
    ensures forall d :: d in s ==> d < Start(log, |log|)
  {
    if log == [] then {0}
    else
      var n := |log| - 1;
      StartOfPrefix(log, n, n);
      Starts(log[..n]) + {Start(log, n)}
  }

  /** The value a legal data position stands for. */
  function Meaning(log: seq<Value>, d: nat): (v: Text)
    requires d in Starts(log)
  {
    if log == [] then []
    else if d == Start(log, |log| - 1) then log[|log| - 1]
    else Meaning(log[..|log| - 1], d)
  }

  lemma {:induction false} StartIndex(log: seq<Value>, d: nat) returns (i: nat)
    requires d in Starts(log) && d != 0
    ensures i < |log| && Start(log, i) == d && log[i] == Meaning(log, d)
  {
    i := |log| - 1;
    if d != Start(log, i) {
      var n := i;
      i := StartIndex(log[..n], d);
      StartOfPrefix(log, n, i);
    }
  }

  lemma {:induction false} HeaderMeans(log: seq<Value>)
    ensures 0 in Starts(log) && Meaning(log, 0) == []
  {
    if log != [] { HeaderMeans(log[..|log| - 1]); }
  }

  lemma ValueHere(f: seq<byte>, d: nat, v: Text, next: nat)
    requires RecordIs(f, d, v, next) && |v| < WORD
    ensures ValueAt(f, d) == Read(v)
  {
    RecordFields(f, d, v, next);
    CStrOfText(v, []);
    assert v + [] == v;
  }

  lemma ValueAtStart(log: seq<Value>, d: nat)
    requires d in Starts(log)
    ensures ValueAt(DataFile(log), d) == Read(Meaning(log, d))
  {
    var f := DataFile(log);
    if d == 0 {
      HeaderStaysZero(log);
      assert f[4..8] == f[..DATA_HEADER][4..8] == [0, 0, 0, 0];
      HeaderMeans(log);
    } else {
      var i := StartIndex(log, d);
      DataFileShape(log, i);
      ValueHere(f, d, log[i], Link(log, i));
    }
  }

  /** Appending leaves every earlier position legal and meaning the same, and adds the old end of file. */
  lemma AppendStarts(log: seq<Value>, v: Value)
    ensures DataFile(log + [v]) == Append(DataFile(log), v)
    ensures Starts(log + [v]) == Starts(log) + {|DataFile(log)|}
    ensures Meaning(log + [v], |DataFile(log)|) == v
    ensures forall d :: d in Starts(log) ==> Meaning(log + [v], d) == Meaning(log, d)
  {
    hide Append;
    var log' := log + [v];
    assert log'[..|log|] == log;
    StartOfPrefix(log', |log|, |log|);
  }

  /** Reading the records one after another, each length locating the next. */
  function Parse(f: seq<byte>, d: nat): seq<seq<byte>>
    decreases |f| - d
  {
    if d + 16 > |f| then []
    else
      var len := FromLe4(f[d + 4..d + 8]);
      if d + 16 + len > |f| then [] else [f[d + 8..d + 8 + len]] + Parse(f, d + 16 + len)
  }

  lemma ParseOne(f: seq<byte>, d: nat, v: Text, next: nat)
    requires RecordIs(f, d, v, next) && |v| < WORD
    ensures Parse(f, d) == [v] + Parse(f, d + 16 + |v|)
  {
    RecordFields(f, d, v, next);
  }

  lemma {:induction false} ParseFrom(log: seq<Value>, i: nat)
    requires i <= |log|
    ensures Parse(DataFile(log), Start(log, i)) == log[i..]
    decreases |log| - i
  {
    hide RecordBytes, Patched, RecordIs, Append, DataFile;
    if i < |log| {
      DataFileShape(log, i);
      ParseOne(DataFile(log), Start(log, i), log[i], Link(log, i));
      ParseFrom(log, i + 1);
    }
  }

  /** The bytes determine the values stored: the file has exactly one reading. */
  lemma DataFileParsesUniquely(a: seq<Value>, b: seq<Value>)
    ensures Parse(DataFile(a), DATA_HEADER) == a
    ensures DataFile(a) == DataFile(b) ==> a == b
  {
    ParseFrom(a, 0);
    ParseFrom(b, 0);
  }

  /** Storing a value changes no earlier flag, length or payload, and sets just the last link: to the new
      record's start, if the last record ends at byte 280 or later. */
  lemma AppendKeepsRecords(log: seq<Value>, v: Value, i: nat)
    requires i < |log|
    ensures Start(log + [v], i) == Start(log, i)
    ensures RecordIs(DataFile(log), Start(log, i), log[i], Link(log, i))
    ensures RecordIs(DataFile(log + [v]), Start(log, i), log[i], Link(log + [v], i))
    ensures Link(log + [v], i) ==
      if i + 1 < |log| then Link(log, i)
      else if |DataFile(log)| >= 280 then |DataFile(log)| else 0
  {
    var log' := log + [v];
    assert log'[..|log|] == log;
    StartOfPrefix(log', |log|, i);
    StartOfPrefix(log', |log|, i + 1);
    DataFileShape(log, i);
    DataFileShape(log', i);
  }
}
