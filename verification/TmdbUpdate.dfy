/** Replace and delete, at the addresses the code computes and at the fields its comments name. */
module TmdbUpdate {
  import opened Bytes
  import opened TmdbData
  import opened TmdbIndex
  import opened Tmdb

  /** No chain has lost a link, though records may have new data. */
  ghost predicate LinksKept(idx: seq<byte>, idx': seq<byte>, starts: set<nat>, starts': set<nat>) {
    && TABLE_END <= |idx| == |idx'|
    && (forall b :: 0 <= b < BUCKETS ==> Head(idx', b) == Head(idx, b))
    && (forall b :: 0 <= b < BUCKETS ==> Keeps(idx, idx', starts, starts', b))
  }

  lemma KeptLinksKeepAnswers(idx: seq<byte>, idx': seq<byte>, starts: set<nat>, starts': set<nat>)
    requires IndexOk(idx, starts) && LinksKept(idx, idx', starts, starts')
    ensures IndexOk(idx', starts')
    ensures forall x: Text :: Find(idx', x) == Find(idx, x) && Answers(idx', x) == Answers(idx, x)
  {
    hide Hash, Head, Lookup, Count, ChainOk, Keeps;
    forall b | 0 <= b < BUCKETS ensures ChainOk(idx', starts', Head(idx', b), b) {
      KeepChain(idx, idx', starts, starts', Head(idx, b), b, []);
    }
    forall x: Text ensures Find(idx', x) == Find(idx, x) && Answers(idx', x) == Answers(idx, x) {
      KeepChain(idx, idx', starts, starts', Head(idx, Hash(x)), Hash(x), x);
    }
  }

  // ---- replace

  /** The eight-byte write of the replace branch: 4 + 64 past the record as coded, data_ptr as commented. */
  function Replaced(idx: seq<byte>, q: nat, data: nat, how: Addresses): (idx': seq<byte>)
    requires InFile(idx, q)
    ensures |idx'| == |idx|
  {
    Write(idx, q + if how.AsCoded? then PAD_AT else DATA_AT, Le8(data))
  }

  function ReplaceFiles(f: Files, k: Text, v: Text, how: Addresses): Files
    requires TABLE_END <= |f.idx| && DATA_HEADER <= |f.dat| && Find(f.idx, k).Some?
  {
    Files(Replaced(f.idx, Find(f.idx, k).value, |f.dat|, how), Append(f.dat, v))
  }

  lemma ReplacedOthers(idx: seq<byte>, q: nat, data: nat, how: Addresses)
    requires InFile(idx, q) && Aligned(q)
    ensures var idx' := Replaced(idx, q, data, how);
      && (forall b :: 0 <= b < BUCKETS ==> Head(idx', b) == Head(idx, b))
      && (forall p :: InFile(idx, p) && Aligned(p) && p != q ==> RecordAt(idx', p) == RecordAt(idx, p))
      && RecordAt(idx', q) == Write(RecordAt(idx, q), if how.AsCoded? then PAD_AT else DATA_AT, Le8(data))
  {
    hide Le8, Write;
    var at := if how.AsCoded? then PAD_AT else DATA_AT;
    forall b | 0 <= b < BUCKETS ensures Head(Replaced(idx, q, data, how), b) == Head(idx, b) {
      WriteKeepsHead(idx, q + at, Le8(data), b);
    }
    forall p | InFile(idx, p) && Aligned(p) && p != q
      ensures RecordAt(Replaced(idx, q, data, how), p) == RecordAt(idx, p)
    {
      AlignedApart(p, q);
      WriteKeepsRecord(idx, q + at, Le8(data), p);
    }
    WriteInRecord(idx, q, at, Le8(data));
  }

  function DataAfter(idx: seq<byte>, k: Text, data': nat, x: Text): nat
    requires TABLE_END <= |idx| && Find(idx, x).Some?
  {
    if x == k then data' else DataPtr(RecordAt(idx, Find(idx, x).value))
  }

  /** The found record's data position changes; nothing else that a search or a fetch reads does. */
  lemma ReplacedRecord(idx: seq<byte>, starts: set<nat>, starts': set<nat>, k: Text, data: nat, data': nat,
      how: Addresses)
    requires IndexOk(idx, starts) && Find(idx, k).Some? && starts <= starts' && data' in starts'
    requires var q := Find(idx, k).value;
      var r' := RecordAt(Replaced(idx, q, data, how), q);
      SameLinks(r', RecordAt(idx, q)) && DataPtr(r') == data'
    ensures var idx' := Replaced(idx, Find(idx, k).value, data, how);
      && IndexOk(idx', starts')
      && (forall x: Text :: Find(idx', x) == Find(idx, x) && Answers(idx', x) == Answers(idx, x))
      && (forall x: Text :: Find(idx, x).Some? ==>
            DataPtr(RecordAt(idx', Find(idx, x).value)) == DataAfter(idx, k, data', x))
  {
    hide Replaced, Hash, Head, SameLinks, DataPtr, SeenKey, StoredKey, NextPtr, KeyEnds, Answers;
    var q := Find(idx, k).value;
    var idx' := Replaced(idx, q, data, how);
    FindOnChain(idx, starts, k);
    ReplacedOthers(idx, q, data, how);
    forall b | 0 <= b < BUCKETS ensures Keeps(idx, idx', starts, starts', b) {
      ReplacedKeeps(idx, idx', starts, starts', q, b);
    }
    KeptLinksKeepAnswers(idx, idx', starts, starts');
    forall x: Text | Find(idx, x).Some?
      ensures DataPtr(RecordAt(idx', Find(idx, x).value)) == DataAfter(idx, k, data', x)
    {
      FindOnChain(idx, starts, x);
    }
  }

  lemma ReplacedKeeps(idx: seq<byte>, idx': seq<byte>, starts: set<nat>, starts': set<nat>, q: nat, b: nat)
    requires |idx| == |idx'| && InFile(idx, q) && starts <= starts'
    requires forall p :: InFile(idx, p) && Aligned(p) && p != q ==> RecordAt(idx', p) == RecordAt(idx, p)
    requires SameLinks(RecordAt(idx', q), RecordAt(idx, q)) && DataPtr(RecordAt(idx', q)) in starts'
    ensures Keeps(idx, idx', starts, starts', b)
  {
  }

  /** The files after a replacement whose net effect on the record is a new data position. */
  lemma ReplacedFiles(f: Files, log: seq<Value>, m: map<Text, Text>, k: Text, v: Value, how: Addresses, data': nat)
    requires Valid(f, log) && Represents(f, m) && KeyOk(k) && k in m && data' in Starts(log + [v])
    requires Find(f.idx, k).Some?
    requires var q := Find(f.idx, k).value;
      var r' := RecordAt(Replaced(f.idx, q, |f.dat|, how), q);
      SameLinks(r', RecordAt(f.idx, q)) && DataPtr(r') == data'
    ensures var f' := ReplaceFiles(f, k, v, how);
      && Valid(f', log + [v]) && Represents(f', m[k := Meaning(log + [v], data')])
      && (Tidy(f) ==> Tidy(f'))
  {
    hide Replaced, Append, Hash, Head, SameLinks, DataPtr, SeenKey, NextPtr, ValueAt, Find, Answers, Meaning;
    var f', log' := ReplaceFiles(f, k, v, how), log + [v];
    var m' := m[k := Meaning(log', data')];
    AppendStarts(log, v);
    ReplacedRecord(f.idx, Starts(log), Starts(log'), k, |f.dat|, data', how);
    forall x: Text | KeyOk(x) ensures View(f', x) == if x in m' then Found(m'[x]) else Absent {
      assert View(f, x) == if x in m then Found(m[x]) else Absent;
      if Find(f.idx, x).Some? {
        FindOnChain(f.idx, Starts(log), x);
        var d := DataPtr(RecordAt(f.idx, Find(f.idx, x).value));
        ValueAtStart(log, d);
        ValueAtStart(log', if x == k then data' else d);
      }
    }
  }

  /** As commented, replace updates the map at k and nowhere else. */
  lemma ReplaceRefines(f: Files, log: seq<Value>, m: map<Text, Text>, k: Text, v: Value)
    requires Valid(f, log) && Represents(f, m) && KeyOk(k) && k in m && |f.dat| <= OFF_MAX
    ensures Find(f.idx, k).Some?
    ensures var f' := ReplaceFiles(f, k, v, AsCommented);
      && Valid(f', log + [v]) && Represents(f', m[k := v]) && (Tidy(f) ==> Tidy(f'))
  {
    hide Replaced, Append, Hash, Head, DataPtr, SeenKey, NextPtr, ValueAt, Find, Answers;
    assert View(f, k) == Found(m[k]);
    var q := Find(f.idx, k).value;
    FindOnChain(f.idx, Starts(log), k);
    ReplacedOthers(f.idx, q, |f.dat|, AsCommented);
    DataRewritten(RecordAt(f.idx, q), |f.dat|);
    AppendStarts(log, v);
    ReplacedFiles(f, log, m, k, v, AsCommented, |f.dat|);
  }

  // Half of a data_ptr is overwritten, by a replace or a delete at the coded addresses.

  /** A number whose low half is replaced by another's. */
  function Mixed(to: nat, from: nat): nat { to / WORD * WORD + from % WORD }

  lemma MixedParts(a: nat, b: nat, c: nat)
    requires a < WORD && c < WORD
    ensures Mixed(a + WORD * b, c) == c + WORD * b
  {
  }

  lemma MixedFrom(to: nat, from: nat)
    ensures Mixed(to, from) == Mixed(to, from % WORD)
  {
  }

  lemma LowHalf(s: seq<byte>)
    requires |s| == 8
    ensures FromLe8(s) % WORD == FromLe4(s[..4])
  {
    hide FromLe4;
    var low, high := FromLe4(s[..4]), FromLe4(s[4..]);
    assert FromLe8(s) == low + WORD * high;
  }

  lemma MixedSmall(a: nat, b: nat)
    requires a < WORD && b < WORD
    ensures Mixed(a, b) == b
  {
  }

  /** What a 64-byte key is followed by once the coded write has landed on the padding and on half of data_ptr. */
  function Spill(r: Record, data: nat): Text { CStr(Le8(data) + r[DATA_AT + 4..]) }

  /** The coded write: the padding takes the low half of the position, data_ptr's low half the high one. */
  lemma CodedWrite(r: Record, data: nat)
    requires data <= OFF_MAX
    ensures var s: Record := Write(r, PAD_AT, Le8(data));
      && s[KEY_AT..PAD_AT] == r[KEY_AT..PAD_AT] && s[PAD_AT..] == Le8(data) + r[DATA_AT + 4..]
      && StoredKey(s) == StoredKey(r) && NextPtr(s) == NextPtr(r) && DataPtr(s) == Mixed(DataPtr(r), data / WORD)
  {
    hide Write, Le4, FromLe4, Mixed;
    var low, high := Le4(data % WORD), Le4(data / WORD);
    var s: Record := Write(r, PAD_AT, low + high);
    WriteHere(r, PAD_AT, low + high);
    WriteElsewhere(r, PAD_AT, low + high, KEY_AT, PAD_AT);
    WriteElsewhere(r, PAD_AT, low + high, DATA_AT + 4, RECORD);
    var mid, end := s[PAD_AT..PAD_AT + 8], s[DATA_AT + 4..RECORD];
    assert mid[..4] == low && mid[4..] == high;
    assert s[PAD_AT..] == mid + end && r[DATA_AT + 4..] == r[DATA_AT + 4..RECORD];
    assert s[NEXT_AT..] == end[4..] && r[NEXT_AT..] == r[DATA_AT + 4..RECORD][4..];
    assert s[DATA_AT..NEXT_AT][..4] == mid[4..] && s[DATA_AT..NEXT_AT][4..] == end[..4];
    assert r[DATA_AT..NEXT_AT][4..] == r[DATA_AT + 4..RECORD][..4];
    FromLe4Le4(data / WORD);
    MixedParts(FromLe4(r[DATA_AT..NEXT_AT][..4]), FromLe4(end[..4]), data / WORD);
  }

  /** How the key of a record reads after the coded write. */
  lemma CodedKey(r: Record, data: nat)
    requires data <= OFF_MAX && KeyEnds(r) && SeenKey(r) == RTrim(StoredKey(r))
    ensures var s: Record := Write(r, PAD_AT, Le8(data));
      && (|StoredKey(r)| < MAX_KEY ==> SameKey(s, r))
      && (|StoredKey(r)| == MAX_KEY ==>
            SeenKey(s) == RTrim(StoredKey(r) + Spill(r, data)) && (|Spill(r, data)| < 4 ==> KeyEnds(s)))
  {
    hide Write, Le4, Le8, RTrim, Mixed;
    var s: Record := Write(r, PAD_AT, Le8(data));
    CodedWrite(r, data);
    var key := StoredKey(r);
    assert s[KEY_AT..][..MAX_KEY] == s[KEY_AT..PAD_AT] == r[KEY_AT..PAD_AT] == r[KEY_AT..][..MAX_KEY];
    if |key| < MAX_KEY {
      CStrPrefix(s[KEY_AT..], MAX_KEY);
      CStrPrefix(r[KEY_AT..], MAX_KEY);
    } else {
      FullCStr(s[KEY_AT..PAD_AT]);
      assert s[KEY_AT..] == key + s[PAD_AT..];
      CStrConcat(key, s[PAD_AT..]);
    }
  }

  /** A C string as long as its array is the array. */
  lemma {:induction false} FullCStr(s: seq<byte>)
    requires |CStr(s)| == |s|
    ensures CStr(s) == s
  {
    if s != [] { FullCStr(s[1..]); }
  }

  /** The coded replace does no harm to the shape of the index for such a record. */
  predicate Benign(r: Record, data: nat) {
    |StoredKey(r)| < MAX_KEY || (AllSpace(Spill(r, data)) && |Spill(r, data)| < 4)
  }

  /** As coded, on data files under four gigabytes, replace forgets the old value and makes the key read empty,
      whatever value was given. */
  lemma CodedReplaceEmpties(f: Files, log: seq<Value>, m: map<Text, Text>, k: Text, v: Value)
    requires Valid(f, log) && Represents(f, m) && KeyOk(k) && k in m && |f.dat| < WORD
    requires Find(f.idx, k).Some? && Benign(RecordAt(f.idx, Find(f.idx, k).value), |f.dat|)
    ensures var f' := ReplaceFiles(f, k, v, AsCoded);
      && Valid(f', log + [v]) && Represents(f', m[k := []]) && (Tidy(f) ==> Tidy(f'))
  {
    hide Replaced, Append, Hash, Head, DataPtr, SeenKey, StoredKey;
    hide NextPtr, KeyEnds, ValueAt, Find, Answers, Le8, Write;
    hide RTrim, Mixed, Spill;
    var q := Find(f.idx, k).value;
    var r := RecordAt(f.idx, q);
    FindOnChain(f.idx, Starts(log), k);
    ReplacedOthers(f.idx, q, |f.dat|, AsCoded);
    CodedWrite(r, |f.dat|);
    CodedKey(r, |f.dat|);
    MixedSmall(DataPtr(r), |f.dat| / WORD);
    RTrimAppend(StoredKey(r), Spill(r, |f.dat|));
    assert |StoredKey(r)| <= MAX_KEY by { StoredKeyLength(r); }
    HeaderMeans(log + [v]);
    ReplacedFiles(f, log, m, k, v, AsCoded, 0);
  }

  lemma StoredKeyLength(r: Record)
    ensures |StoredKey(r)| <= MAX_KEY
  {
  }

  /** A search past a record whose key may have stopped matching goes on behind it. */
  lemma {:induction false} MissedLookup(idx: seq<byte>, idx': seq<byte>, starts: set<nat>, p: nat, b: nat, k: Text,
      q: nat)
    requires ChainOk(idx, starts, p, b) && Lookup(idx, p, k) == Some(q) && |idx| == |idx'|
    requires forall c: nat :: RecordOk(idx, starts, c, b) && c != q ==> RecordAt(idx', c) == RecordAt(idx, c)
    requires NextPtr(RecordAt(idx', q)) == NextPtr(RecordAt(idx, q))
    ensures Lookup(idx', p, k) ==
      if SeenKey(RecordAt(idx', q)) == k then Some(q) else Lookup(idx, NextPtr(RecordAt(idx, q)), k)
    decreases |idx| - p
  {
    var n := NextPtr(RecordAt(idx, p));
    if p != q {
      assert RecordOk(idx, starts, n, b);
      MissedLookup(idx, idx', starts, n, b, k, q);
    } else if n != 0 {
      BeyondKeeps(idx, idx', starts, q, n, b, k);
    } else {
      assert Lookup(idx, n, k) == None;
    }
  }

  /** The key of the record still reads as it did. */
  predicate StillReads(r: Record, data: nat) { |StoredKey(r)| < MAX_KEY || AllSpace(Spill(r, data)) }

  lemma CodedFind(idx: seq<byte>, starts: set<nat>, k: Text, data: nat)
    requires IndexOk(idx, starts) && Find(idx, k).Some? && data <= OFF_MAX
    ensures var q := Find(idx, k).value;
      var idx', r := Replaced(idx, q, data, AsCoded), RecordAt(idx, q);
      && Find(idx', k) == (if StillReads(r, data) then Some(q) else Lookup(idx, NextPtr(r), k))
      && DataPtr(RecordAt(idx', q)) == Mixed(DataPtr(r), data / WORD)
      && forall c: nat :: RecordOk(idx, starts, c, Hash(k)) && c != q ==> RecordAt(idx', c) == RecordAt(idx, c)
  {
    hide Replaced, Hash, Head, Le8, Le4, Write, RTrim;
    hide DataPtr, NextPtr, SeenKey, StoredKey, KeyEnds, Mixed, Spill, Lookup;
    var q := Find(idx, k).value;
    var idx', r, key := Replaced(idx, q, data, AsCoded), RecordAt(idx, q), StoredKey(RecordAt(idx, q));
    FindOnChain(idx, starts, k);
    ReplacedOthers(idx, q, data, AsCoded);
    CodedWrite(r, data);
    CodedKey(r, data);
    StoredKeyLength(r);
    RTrimAppend(key, Spill(r, data));
    RTrimShortens(key);
    MissedLookup(idx, idx', starts, Head(idx, Hash(k)), Hash(k), k, q);
  }

  lemma RTrimShortens(s: Text)
    ensures |RTrim(s)| <= |s|
  {
  }

  /** As coded, on files of any size, the new value is read back exactly when it stands at the position mixed from
      the old position's high half and the new one's, or, once the key has stopped reading as it did, when the next
      record that answers the key already had that value. */
  lemma CodedReplaceReads(f: Files, log: seq<Value>, k: Text, v: Value)
    requires Valid(f, log) && KeyOk(k) && Find(f.idx, k).Some? && |f.dat| <= OFF_MAX
    ensures var r := RecordAt(f.idx, Find(f.idx, k).value);
      var next := Lookup(f.idx, NextPtr(r), k);
      View(ReplaceFiles(f, k, v, AsCoded), k) == Found(v) <==>
        if StillReads(r, |f.dat|) then ValueAt(DataFile(log + [v]), Mixed(DataPtr(r), |f.dat| / WORD)) == Read(v)
        else next.Some? && DataPtr(RecordAt(f.idx, next.value)) in Starts(log) &&
             Meaning(log, DataPtr(RecordAt(f.idx, next.value))) == v
  {
    hide Replaced, Append, Hash, Head, DataPtr, StoredKey;
    hide NextPtr, SeenKey, KeyEnds, ValueAt, StillReads, Mixed, Lookup;
    hide Starts, Meaning, ChainOk;
    var starts, q := Starts(log), Find(f.idx, k).value;
    var r := RecordAt(f.idx, q);
    FindOnChain(f.idx, starts, k);
    CodedFind(f.idx, starts, k, |f.dat|);
    AppendStarts(log, v);
    var next := Lookup(f.idx, NextPtr(r), k);
    if !StillReads(r, |f.dat|) && next.Some? {
      NextAnswer(f.idx, starts, k);
      var d := DataPtr(RecordAt(f.idx, next.value));
      ValueAtStart(log + [v], d);
    }
  }

  /** The next record that answers k lies on its chain, behind the first. */
  lemma NextAnswer(idx: seq<byte>, starts: set<nat>, k: Text)
    requires IndexOk(idx, starts) && Find(idx, k).Some?
    ensures var q := Find(idx, k).value;
      var next := Lookup(idx, NextPtr(RecordAt(idx, q)), k);
      next.Some? ==> next.value != q && RecordOk(idx, starts, next.value, Hash(k))
  {
    hide Hash, Head, DataPtr, StoredKey, SeenKey, KeyEnds, NextPtr;
    var h := Hash(k);
    var q := Find(idx, k).value;
    assert ChainOk(idx, starts, Head(idx, h), h);
    FoundOnChain(idx, starts, Head(idx, h), h, k);
    var n := NextPtr(RecordAt(idx, q));
    if n == 0 {
      assert Lookup(idx, n, k) == None;
    } else {
      FoundOnChain(idx, starts, n, h, k);
    }
  }

  /** On data files under four gigabytes, and with one record to a key: exactly when the value is empty and the
      key's record either has a terminator inside the key array or is followed by nothing but white space. */
  lemma CodedReplaceExactly(f: Files, log: seq<Value>, k: Text, v: Value)
    requires Valid(f, log) && Tidy(f) && KeyOk(k) && Find(f.idx, k).Some? && |f.dat| < WORD
    ensures View(ReplaceFiles(f, k, v, AsCoded), k) == Found(v) <==>
      v == [] && StillReads(RecordAt(f.idx, Find(f.idx, k).value), |f.dat|)
  {
    hide Replaced, Append, Hash, Head, DataPtr, StoredKey, ValueAt, NextPtr, SeenKey, StillReads, Mixed, View, ChainOk;
    hide Find, Lookup, Answers, Tidy, Starts, DataFile;
    var q := Find(f.idx, k).value;
    FindOnChain(f.idx, Starts(log), k);
    CodedReplaceReads(f, log, k, v);
    MixedSmall(DataPtr(RecordAt(f.idx, q)), |f.dat| / WORD);
    HeaderMeans(log + [v]);
    ValueAtStart(log + [v], 0);
    TidyAnswer(f, Starts(log), k);
  }

  lemma TidyAnswer(f: Files, starts: set<nat>, k: Text)
    requires IndexOk(f.idx, starts) && Tidy(f) && Find(f.idx, k).Some?
    ensures Lookup(f.idx, NextPtr(RecordAt(f.idx, Find(f.idx, k).value)), k) == None
  {
    hide NextPtr;
    assert Answers(f.idx, k) <= 1;
    OnlyAnswer(f.idx, starts, Head(f.idx, Hash(k)), Hash(k), k);
  }

  /** Behind the one record that answers k there is no other. */
  lemma {:induction false} OnlyAnswer(idx: seq<byte>, starts: set<nat>, p: nat, b: nat, k: Text)
    requires ChainOk(idx, starts, p, b) && Lookup(idx, p, k).Some? && Count(idx, p, k) <= 1
    ensures Lookup(idx, NextPtr(RecordAt(idx, Lookup(idx, p, k).value)), k) == None
    decreases |idx| - p
  {
    hide Hash, DataPtr, StoredKey, SeenKey, KeyEnds, NextPtr;
    var n := NextPtr(RecordAt(idx, p));
    if SeenKey(RecordAt(idx, p)) != k {
      OnlyAnswer(idx, starts, n, b, k);
    } else if n != 0 {
      assert Count(idx, n, k) == 0;
    } else {
      assert Lookup(idx, n, k) == None;
    }
  }

  // ---- delete

  /** The deletion flag and one pointer are written: as commented, the successor of the found record into
      its bucket or its predecessor's next_ptr. As coded, the four bytes read lie 72 bytes into the record
      and are the low half of data_ptr; they go to a bucket address computed for four-byte buckets, or 72
      bytes past the end of the found record. */
  function Deleted(idx: seq<byte>, k: Text, how: Addresses): (idx': seq<byte>)
    requires TABLE_END <= |idx| && Find(idx, k).Some?
    ensures |idx| <= |idx'|
  {
    var h := Hash(k);
    var q, p := Find(idx, k).value, Head(idx, h);
    var idx1 := Write(idx, q, Le4(1));
    match how
    case AsCoded =>
      var read := idx1[q + 72..q + 76];
      if p == q then Write(idx1, HEADER + 4 * h, read) else Write(idx1, q + RECORD + 72, read)
    case AsCommented =>
      var next := Le8(NextPtr(RecordAt(idx, q)));
      if p == q || !InFile(idx, p) then Write(idx1, BucketAt(h), next) else Write(idx1, Before(idx, p, q) + NEXT_AT,
          next)
  }

  function DeleteFiles(f: Files, k: Text, how: Addresses): Files
    requires TABLE_END <= |f.idx| && Find(f.idx, k).Some?
  {
    Files(Deleted(f.idx, k, how), f.dat)
  }

  /** Writing the flag of the record at q. */
  lemma FlagWritten(idx: seq<byte>, q: nat, p: nat)
    requires InFile(idx, q) && Aligned(q) && InFile(idx, p) && Aligned(p)
    ensures var idx' := Write(idx, q, Le4(1));
      && (p != q ==> RecordAt(idx', p) == RecordAt(idx, p))
      && SameLinks(RecordAt(idx', p), RecordAt(idx, p)) && DataPtr(RecordAt(idx', p)) == DataPtr(RecordAt(idx, p))
      && RecordAt(idx', p)[KEY_AT..] == RecordAt(idx, p)[KEY_AT..]
  {
    hide Le4, Write, SameLinks, DataPtr;
    if p != q {
      AlignedApart(p, q);
      WriteKeepsRecord(idx, q, Le4(1), p);
      SameLinksSelf(RecordAt(idx, p));
    } else {
      WriteInRecord(idx, q, 0, Le4(1));
      FlagRewritten(RecordAt(idx, q), Le4(1));
    }
  }

  lemma SameLinksSelf(r: Record)
    ensures SameLinks(r, r)
  {
  }

  lemma FlagKeepsHead(idx: seq<byte>, q: nat, b: nat)
    requires InFile(idx, q) && Aligned(q) && b < BUCKETS
    ensures Head(Write(idx, q, Le4(1)), b) == Head(idx, b)
  {
    WriteKeepsHead(idx, q, Le4(1), b);
  }

  /** The key's own chain, as commented, when the found record heads it. */
  lemma DeletedHead(idx: seq<byte>, starts: set<nat>, k: Text, b: nat, x: Text)
    requires IndexOk(idx, starts) && Find(idx, k) == Some(Head(idx, Hash(k))) && b < BUCKETS && |idx| <= OFF_MAX
    ensures var idx' := Deleted(idx, k, AsCommented);
      && |idx'| == |idx| && ChainOk(idx', starts, Head(idx', b), b)
      && (b != Hash(k) || x != k ==> Lookup(idx', Head(idx', b), x) == Lookup(idx, Head(idx, b), x))
      && Count(idx', Head(idx', b), x) ==
          Count(idx, Head(idx, b), x) - (if b == Hash(k) && x == k then 1 else 0)
  {
    hide Le4, Le8, Write, SameLinks, SeenKey, StoredKey, DataPtr, NextPtr, KeyEnds, Hash, Head;
    var h := Hash(k);
    var q := Head(idx, h);
    FindOnChain(idx, starts, k);
    var idx1, idx' := Write(idx, q, Le4(1)), Deleted(idx, k, AsCommented);
    var n := NextPtr(RecordAt(idx, q));
    assert ChainOk(idx, starts, q, h);
    assert n != 0 ==> ChainOk(idx, starts, n, h);
    FlagKeepsHead(idx, q, b);
    assert idx' == Write(idx1, BucketAt(h), Le8(n));
    if b == h { WriteHead(idx1, h, n); } else { WriteKeepsHead(idx1, BucketAt(h), Le8(n), b); }
    forall c | RecordOk(idx, starts, c, b)
      ensures SameLinks(RecordAt(idx', c), RecordAt(idx, c)) && DataPtr(RecordAt(idx', c)) == DataPtr(RecordAt(idx, c))
    {
      FlagWritten(idx, q, c);
      WriteKeepsRecord(idx1, BucketAt(h), Le8(n), c);
    }
    assert ChainOk(idx, starts, Head(idx, b), b);
    KeepChain(idx, idx', starts, starts, if b == h then n else Head(idx, b), b, x);
    assert n == 0 ==> Lookup(idx, n, x) == None;
  }

  lemma {:induction false} BeforeOnChain(idx: seq<byte>, starts: set<nat>, p: nat, b: nat, k: Text, q: nat)
    requires ChainOk(idx, starts, p, b) && Lookup(idx, p, k) == Some(q) && p != q
    ensures RecordOk(idx, starts, Before(idx, p, q), b) && Before(idx, p, q) < q
    decreases |idx| - p
  {
    var n := NextPtr(RecordAt(idx, p));
    assert RecordOk(idx, starts, n, b);
    if n != q { BeforeOnChain(idx, starts, n, b, k, q); }
  }

  /** The bytes, as commented, when another record precedes the found one. */
  lemma DeletedInnerBytes(idx: seq<byte>, starts: set<nat>, k: Text)
    requires IndexOk(idx, starts) && Find(idx, k).Some? && Find(idx, k).value != Head(idx, Hash(k)) && |idx| <= OFF_MAX
    ensures InFile(idx, Head(idx, Hash(k)))
    ensures var idx', q := Deleted(idx, k, AsCommented), Find(idx, k).value;
      var t := Before(idx, Head(idx, Hash(k)), q);
      && |idx'| == |idx| && RecordOk(idx, starts, t, Hash(k))
      && (forall b :: 0 <= b < BUCKETS ==> Head(idx', b) == Head(idx, b))
      && (forall c: nat :: InFile(idx, c) && Aligned(c) && c != t ==>
            SameLinks(RecordAt(idx', c), RecordAt(idx, c)) && DataPtr(RecordAt(idx', c)) == DataPtr(RecordAt(idx, c)))
      && SameKey(RecordAt(idx', t), RecordAt(idx, t)) && DataPtr(RecordAt(idx', t)) == DataPtr(RecordAt(idx, t))
      && NextPtr(RecordAt(idx', t)) == NextPtr(RecordAt(idx, q))
  {
    hide Le4, Le8, Write, SameKey, SeenKey, StoredKey, DataPtr, NextPtr, KeyEnds, Hash, Head;
    var h := Hash(k);
    var p, q := Head(idx, h), Find(idx, k).value;
    FindOnChain(idx, starts, k);
    FoundOnChain(idx, starts, p, h, k);
    BeforeOnChain(idx, starts, p, h, k, q);
    var t, n := Before(idx, p, q), NextPtr(RecordAt(idx, q));
    assert n != 0 ==> RecordOk(idx, starts, n, h);
    var idx1, idx' := Write(idx, q, Le4(1)), Deleted(idx, k, AsCommented);
    assert idx' == Write(idx1, t + NEXT_AT, Le8(n));
    forall b | 0 <= b < BUCKETS ensures Head(idx', b) == Head(idx, b) {
      FlagKeepsHead(idx, q, b);
      WriteKeepsHead(idx1, t + NEXT_AT, Le8(n), b);
    }
    forall c: nat | InFile(idx, c) && Aligned(c) && c != t
      ensures SameLinks(RecordAt(idx', c), RecordAt(idx, c)) && DataPtr(RecordAt(idx', c)) == DataPtr(RecordAt(idx, c))
    {
      FlagWritten(idx, q, c);
      AlignedApart(t, c);
      WriteKeepsRecord(idx1, t + NEXT_AT, Le8(n), c);
    }
    FlagWritten(idx, q, t);
    RecordRelinked(idx1, t, n);
  }

  lemma DeletedInner(idx: seq<byte>, starts: set<nat>, k: Text, b: nat, x: Text)
    requires IndexOk(idx, starts) && Find(idx, k).Some? && Find(idx, k).value != Head(idx, Hash(k))
    requires |idx| <= OFF_MAX && b < BUCKETS
    ensures var idx' := Deleted(idx, k, AsCommented);
      && |idx'| == |idx| && ChainOk(idx', starts, Head(idx', b), b)
      && (b != Hash(k) || x != k ==> Lookup(idx', Head(idx', b), x) == Lookup(idx, Head(idx, b), x))
      && Count(idx', Head(idx', b), x) ==
          Count(idx, Head(idx, b), x) - (if b == Hash(k) && x == k then 1 else 0)
  {
    hide Deleted, SameKey, SeenKey, StoredKey, DataPtr, NextPtr, KeyEnds, Hash, Head;
    var h := Hash(k);
    var p, q := Head(idx, h), Find(idx, k).value;
    DeletedInnerBytes(idx, starts, k);
    var idx' := Deleted(idx, k, AsCommented);
    FindOnChain(idx, starts, k);
    if b == h {
      UnlinkChain(idx, idx', starts, p, b, k, q, x);
    } else {
      KeepChain(idx, idx', starts, starts, Head(idx, b), b, x);
    }
  }

  /** One chain after a deletion as commented. */
  lemma DeletedChain(idx: seq<byte>, starts: set<nat>, k: Text, b: nat, x: Text)
    requires IndexOk(idx, starts) && Find(idx, k).Some? && |idx| <= OFF_MAX && b < BUCKETS
    ensures var idx' := Deleted(idx, k, AsCommented);
      && |idx'| == |idx| && ChainOk(idx', starts, Head(idx', b), b)
      && (b != Hash(k) || x != k ==> Lookup(idx', Head(idx', b), x) == Lookup(idx, Head(idx, b), x))
      && Count(idx', Head(idx', b), x) ==
          Count(idx, Head(idx, b), x) - (if b == Hash(k) && x == k then 1 else 0)
  {
    hide Deleted, Hash, Head, ChainOk, Count;
    if Find(idx, k).value == Head(idx, Hash(k)) {
      DeletedHead(idx, starts, k, b, x);
    } else {
      DeletedInner(idx, starts, k, b, x);
    }
  }

  /** As commented, deleting removes one answer of k and no other answer of any key. */
  lemma DeletedFind(idx: seq<byte>, starts: set<nat>, k: Text, x: Text)
    requires IndexOk(idx, starts) && Find(idx, k).Some? && |idx| <= OFF_MAX
    ensures var idx' := Deleted(idx, k, AsCommented);
      && |idx'| == |idx|
      && (x != k ==> Find(idx', x) == Find(idx, x))
      && Answers(idx', x) == Answers(idx, x) - (if x == k then 1 else 0)
  {
    hide Deleted, Hash, Head, ChainOk, Lookup, Count;
    DeletedChain(idx, starts, k, Hash(x), x);
  }

  lemma DeletedShape(idx: seq<byte>, starts: set<nat>, k: Text)
    requires IndexOk(idx, starts) && Find(idx, k).Some? && |idx| <= OFF_MAX
    ensures IndexOk(Deleted(idx, k, AsCommented), starts)
  {
    hide Deleted, Hash, Head, ChainOk, Lookup, Count;
    DeletedChain(idx, starts, k, 0, []);
    forall b | 0 <= b < BUCKETS
      ensures ChainOk(Deleted(idx, k, AsCommented), starts, Head(Deleted(idx, k, AsCommented), b), b)
    {
      DeletedChain(idx, starts, k, b, []);
    }
  }

  lemma DeletedData(idx: seq<byte>, starts: set<nat>, k: Text, x: Text)
    requires IndexOk(idx, starts) && Find(idx, k).Some? && Find(idx, x).Some? && |idx| <= OFF_MAX
    ensures var idx', c := Deleted(idx, k, AsCommented), Find(idx, x).value;
      |idx'| == |idx| && DataPtr(RecordAt(idx', c)) == DataPtr(RecordAt(idx, c))
  {
    hide Le8, Hash, Head, DataPtr, NextPtr, SeenKey, StoredKey, KeyEnds, SameKey, Write, ChainOk;
    DeletedFind(idx, starts, k, x);
    FindOnChain(idx, starts, k);
    FindOnChain(idx, starts, x);
    var q, c, h := Find(idx, k).value, Find(idx, x).value, Hash(k);
    if q == Head(idx, h) {
      FlagWritten(idx, q, c);
      WriteKeepsRecord(Write(idx, q, Le4(1)), BucketAt(h), Le8(NextPtr(RecordAt(idx, q))), c);
    } else {
      DeletedInnerBytes(idx, starts, k);
    }
  }

  /** As commented, delete removes k from the map when one record answers it, and disturbs no other key. */
  lemma DeleteRefines(f: Files, log: seq<Value>, m: map<Text, Text>, k: Text)
    requires Valid(f, log) && Represents(f, m) && KeyOk(k) && k in m && |f.idx| <= OFF_MAX
    ensures Find(f.idx, k).Some?
    ensures var f' := DeleteFiles(f, k, AsCommented);
      && Valid(f', log)
      && (forall x: Text :: x != k ==> View(f', x) == View(f, x))
      && (View(f', k) == Absent <==> Answers(f.idx, k) == 1)
      && (Tidy(f) ==> Tidy(f') && Represents(f', m - {k}))
  {
    hide Deleted, Hash, Head, DataPtr, SeenKey, NextPtr, ValueAt, Find, Answers;
    assert View(f, k) == Found(m[k]);
    var starts := Starts(log);
    DeletedShape(f.idx, starts, k);
    var f' := DeleteFiles(f, k, AsCommented);
    forall x: Text
      ensures x != k ==> View(f', x) == View(f, x)
      ensures Answers(f'.idx, x) == Answers(f.idx, x) - (if x == k then 1 else 0)
    {
      DeletedFind(f.idx, starts, k, x);
      if Find(f.idx, x).Some? { DeletedData(f.idx, starts, k, x); }
    }
    DeleteCount(f, f', m, k);
  }

  lemma DeleteCount(f: Files, f': Files, m: map<Text, Text>, k: Text)
    requires Represents(f, m) && KeyOk(k) && k in m && TABLE_END <= |f'.idx|
    requires forall x: Text :: x != k ==> View(f', x) == View(f, x)
    requires forall x: Text :: Answers(f'.idx, x) == Answers(f.idx, x) - (if x == k then 1 else 0)
    ensures View(f', k) == Absent <==> Answers(f.idx, k) == 1
    ensures Tidy(f) ==> Tidy(f') && Represents(f', m - {k})
  {
    hide Hash, Head, DataPtr, ValueAt, Find, Answers;
    assert View(f, k) == Found(m[k]);
    assert Find(f'.idx, k) == None <==> Answers(f'.idx, k) == 0;
    if Tidy(f) {
      assert Answers(f.idx, k) <= 1;
      forall x: Text ensures Answers(f'.idx, x) <= 1 { assert Answers(f.idx, x) <= 1; }
      forall x: Text | KeyOk(x) ensures View(f', x) == if x in m - {k} then Found((m - {k})[x]) else Absent {
        assert View(f, x) == if x in m then Found(m[x]) else Absent;
      }
    }
  }

  /** A search that ends at q looks no further than q. */
  lemma {:induction false} PrefixLookup(idx: seq<byte>, idx': seq<byte>, starts: set<nat>, p: nat, b: nat, k: Text,
      q: nat)
    requires ChainOk(idx, starts, p, b) && Lookup(idx, p, k) == Some(q) && |idx| <= |idx'|
    requires forall c: nat :: RecordOk(idx, starts, c, b) && c <= q ==> SameLinks(RecordAt(idx', c), RecordAt(idx, c))
    ensures Lookup(idx', p, k) == Some(q)
    decreases |idx| - p
  {
    assert SameLinks(RecordAt(idx', p), RecordAt(idx, p));
    if p != q {
      var n := NextPtr(RecordAt(idx, p));
      assert RecordOk(idx, starts, n, b);
      PrefixLookup(idx, idx', starts, n, b, k, q);
    }
  }

  /** As coded, delete leaves its key found, with its value, unless the key heads bucket 0: for such keys it
      succeeds exactly when there was nothing to delete. */
  lemma CodedDeleteKeeps(f: Files, log: seq<Value>, k: Text)
    requires Valid(f, log) && Find(f.idx, k).Some?
    requires Find(f.idx, k).value != Head(f.idx, Hash(k)) || Hash(k) != 0
    ensures View(DeleteFiles(f, k, AsCoded), k) == View(f, k) != Absent
  {
    hide Le4, Write, SeenKey, StoredKey, DataPtr, NextPtr, KeyEnds, SameLinks, Hash, Head, ValueAt, ChainOk, Lookup;
    var idx, h, starts := f.idx, Hash(k), Starts(log);
    var p, q := Head(idx, h), Find(idx, k).value;
    FindOnChain(idx, starts, k);
    var idx1, idx' := Write(idx, q, Le4(1)), Deleted(idx, k, AsCoded);
    var read := idx1[q + 72..q + 76];
    var at := if p == q then HEADER + 4 * h else q + RECORD + 72;
    assert idx' == Write(idx1, at, read);
    FlagKeepsHead(idx, q, h);
    WriteKeepsHead(idx1, at, read, h);
    forall c: nat | InFile(idx, c) && Aligned(c) && c <= q
      ensures SameLinks(RecordAt(idx', c), RecordAt(idx, c)) && DataPtr(RecordAt(idx', c)) == DataPtr(RecordAt(idx, c))
    {
      FlagWritten(idx, q, c);
      WriteKeepsRecord(idx1, at, read, c);
    }
    assert ChainOk(idx, starts, p, h);
    PrefixLookup(idx, idx', starts, p, h, k, q);
  }

  /** The four bytes the coded delete copies replace the low half of the next record's data_ptr. */
  lemma LowHalfCopied(r: Record, s: Record)
    requires KeyEnds(s)
    ensures var t: Record := Write(s, DATA_AT, r[72..76]);
      SameLinks(t, s) && DataPtr(t) == Mixed(DataPtr(s), DataPtr(r))
  {
    hide Write, FromLe4, Mixed;
    var t: Record := Write(s, DATA_AT, r[72..76]);
    WriteHere(s, DATA_AT, r[72..76]);
    WriteElsewhere(s, DATA_AT, r[72..76], KEY_AT, DATA_AT);
    WriteElsewhere(s, DATA_AT, r[72..76], DATA_AT + 4, RECORD);
    SameKeyBytes(t, s);
    var end := t[DATA_AT + 4..RECORD];
    assert t[NEXT_AT..] == end[4..] && s[NEXT_AT..] == s[DATA_AT + 4..RECORD][4..];
    assert t[DATA_AT..NEXT_AT][..4] == t[DATA_AT..DATA_AT + 4] && t[DATA_AT..NEXT_AT][4..] == end[..4];
    assert s[DATA_AT..NEXT_AT][4..] == s[DATA_AT + 4..RECORD][..4];
    assert r[DATA_AT..NEXT_AT][..4] == r[72..76];
    var low, high := FromLe4(r[72..76]), FromLe4(end[..4]);
    assert DataPtr(t) == low + WORD * high;
    MixedParts(FromLe4(s[DATA_AT..NEXT_AT][..4]), high, low);
    LowHalf(r[DATA_AT..NEXT_AT]);
    MixedFrom(DataPtr(s), DataPtr(r));
  }

  /** The bytes after the coded delete of a record that does not head its bucket: the record behind it in the
      file has other data, or, if there is none, 76 bytes are added to the file. */
  lemma CodedDeleteBytes(idx: seq<byte>, starts: set<nat>, k: Text)
    requires IndexOk(idx, starts) && Find(idx, k).Some? && Find(idx, k).value != Head(idx, Hash(k))
    ensures var idx', q := Deleted(idx, k, AsCoded), Find(idx, k).value;
      && |idx'| == (if InFile(idx, q + RECORD) then |idx| else |idx| + 76)
      && (forall b :: 0 <= b < BUCKETS ==> Head(idx', b) == Head(idx, b))
      && (forall c: nat :: InFile(idx, c) && Aligned(c) && c != q + RECORD ==>
            SameLinks(RecordAt(idx', c), RecordAt(idx, c)) && DataPtr(RecordAt(idx', c)) == DataPtr(RecordAt(idx, c)))
      && (InFile(idx, q + RECORD) ==>
            RecordAt(idx', q + RECORD) == Write(RecordAt(idx, q + RECORD), DATA_AT, RecordAt(idx, q)[72..76]))
  {
    hide Le4, Write, SeenKey, StoredKey, DataPtr, NextPtr, KeyEnds, SameLinks, Hash, Head, ChainOk, Lookup;
    var q := Find(idx, k).value;
    FindOnChain(idx, starts, k);
    var n, idx1, idx' := q + RECORD, Write(idx, q, Le4(1)), Deleted(idx, k, AsCoded);
    var read := idx1[q + 72..q + 76];
    WriteElsewhere(idx, q, Le4(1), q + 72, q + 76);
    assert read == idx[q + 72..q + 76] == RecordAt(idx, q)[72..76];
    assert idx' == Write(idx1, n + DATA_AT, read);
    CodedDeleteSize(idx, q);
    forall b | 0 <= b < BUCKETS ensures Head(idx', b) == Head(idx, b) {
      FlagKeepsHead(idx, q, b);
      WriteKeepsHead(idx1, n + DATA_AT, read, b);
    }
    forall c: nat | InFile(idx, c) && Aligned(c) && c != n
      ensures SameLinks(RecordAt(idx', c), RecordAt(idx, c)) && DataPtr(RecordAt(idx', c)) == DataPtr(RecordAt(idx, c))
    {
      FlagWritten(idx, q, c);
      AlignedApart(c, n);
      WriteKeepsRecord(idx1, n + DATA_AT, read, c);
    }
    if InFile(idx, n) {
      FlagWritten(idx, q, n);
      WriteInRecord(idx1, n, DATA_AT, read);
    }
  }

  lemma CodedDeleteSize(idx: seq<byte>, q: nat)
    requires Aligned(|idx|) && InFile(idx, q) && Aligned(q)
    ensures var idx1 := Write(idx, q, Le4(1));
      |Write(idx1, q + RECORD + DATA_AT, idx1[q + 72..q + 76])| == if InFile(idx, q + RECORD) then |idx| else |idx| + 76
  {
    if !InFile(idx, q + RECORD) { assert q + RECORD == |idx| by { AlignedApart(q, |idx|); } }
  }

  /** The data position of q after the record before it in the file has been deleted. */
  function DataMoved(idx: seq<byte>, k: Text, q: nat): nat
    requires TABLE_END <= |idx| && Find(idx, k).Some? && InFile(idx, q)
  {
    if q == Find(idx, k).value + RECORD then
      Mixed(DataPtr(RecordAt(idx, q)), DataPtr(RecordAt(idx, Find(idx, k).value)))
    else DataPtr(RecordAt(idx, q))
  }

  lemma RedirectedRecord(idx: seq<byte>, starts: set<nat>, k: Text, c: nat, b: nat)
    requires IndexOk(idx, starts) && Find(idx, k).Some? && Find(idx, k).value != Head(idx, Hash(k))
    requires RecordOk(idx, starts, c, b)
    ensures var idx' := Deleted(idx, k, AsCoded);
      InFile(idx', c) && SameLinks(RecordAt(idx', c), RecordAt(idx, c)) &&
          DataPtr(RecordAt(idx', c)) == DataMoved(idx, k, c)
  {
    hide Deleted, Write, SeenKey, StoredKey, DataPtr, NextPtr, SameLinks, Hash, Head, ChainOk, Mixed, KeyEnds;
    CodedDeleteBytes(idx, starts, k);
    var q := Find(idx, k).value;
    if c == q + RECORD { LowHalfCopied(RecordAt(idx, q), RecordAt(idx, c)); }
  }

  /** Every chain keeps its records, its shape and its lookups. */
  lemma RedirectedChain(idx: seq<byte>, starts: set<nat>, k: Text, y: Text)
    requires IndexOk(idx, starts) && Find(idx, k).Some? && Find(idx, k).value != Head(idx, Hash(k))
    ensures var idx', h, q := Deleted(idx, k, AsCoded), Hash(y), Find(idx, k).value;
      && Head(idx', h) == Head(idx, h) && Find(idx', y) == Find(idx, y)
      && (Find(idx, y).Some? ==> DataPtr(RecordAt(idx', Find(idx, y).value)) == DataMoved(idx, k, Find(idx, y).value))
      && ChainOk(idx', if InFile(idx, q + RECORD) then starts + {DataMoved(idx, k, q + RECORD)} else starts,
          Head(idx, h), h)
  {
    hide Deleted, SeenKey, StoredKey, DataPtr, NextPtr, SameLinks, Hash, Head, Mixed, KeyEnds, Lookup;
    var idx', h, q := Deleted(idx, k, AsCoded), Hash(y), Find(idx, k).value;
    var starts' := if InFile(idx, q + RECORD) then starts + {DataMoved(idx, k, q + RECORD)} else starts;
    CodedDeleteBytes(idx, starts, k);
    FindOnChain(idx, starts, y);
    if Find(idx, y).Some? { RedirectedRecord(idx, starts, k, Find(idx, y).value, h); }
    forall c | RecordOk(idx, starts, c, h) ensures
      SameLinks(RecordAt(idx', c), RecordAt(idx, c)) && DataPtr(RecordAt(idx', c)) in starts'
    {
      RedirectedRecord(idx, starts, k, c, h);
    }
    assert Keeps(idx, idx', starts, starts', h);
    assert ChainOk(idx, starts, Head(idx, h), h);
    KeepChain(idx, idx', starts, starts', Head(idx, h), h, y);
  }

  /** As coded, deleting a key that does not head its bucket changes one answer: a key whose record comes next in
      the index file is answered from the deleted key's data position, in its low half. On data files under four
      gigabytes that is the deleted key's value. */
  lemma CodedDeleteRedirects(f: Files, log: seq<Value>, k: Text, y: Text)
    requires Valid(f, log) && Find(f.idx, k).Some? && Find(f.idx, k).value != Head(f.idx, Hash(k))
    ensures var f', n := DeleteFiles(f, k, AsCoded), Find(f.idx, k).value + RECORD;
      && Find(f'.idx, y) == Find(f.idx, y)
      && (Find(f.idx, y) != Some(n) ==> View(f', y) == View(f, y))
      && (Find(f.idx, y) == Some(n) ==>
            View(f', y) == match ValueAt(f.dat, DataMoved(f.idx, k,
                n)) case Short => Unreadable case Read(v) => Found(v))
      && (Find(f.idx, y) == Some(n) && |f.dat| <= WORD ==> View(f', y) == View(f, k))
  {
    hide Deleted, SeenKey, StoredKey, DataPtr, NextPtr, KeyEnds, SameLinks, Hash, Head, ChainOk, Lookup, ValueAt, Mixed;
    var starts := Starts(log);
    RedirectedChain(f.idx, starts, k, y);
    FindOnChain(f.idx, starts, k);
    FindOnChain(f.idx, starts, y);
    if |f.dat| <= WORD && Find(f.idx, y).Some? {
      MixedSmall(DataPtr(RecordAt(f.idx, Find(f.idx, y).value)), DataPtr(RecordAt(f.idx, Find(f.idx, k).value)));
    }
  }

  /** On data files under four gigabytes the files stay well formed, unless the record was the last of the index
      file: then 76 bytes are left behind it, and no later record is aligned. */
  lemma CodedDeleteShape(f: Files, log: seq<Value>, k: Text)
    requires Valid(f, log) && Find(f.idx, k).Some? && Find(f.idx, k).value != Head(f.idx, Hash(k)) && |f.dat| <= WORD
    ensures Valid(DeleteFiles(f, k, AsCoded), log) <==> Find(f.idx, k).value + RECORD < |f.idx|
  {
    hide SeenKey, StoredKey, DataPtr, NextPtr, KeyEnds, SameLinks, Hash, Head, ChainOk, Lookup, Deleted, Mixed;
    var idx, starts, q := f.idx, Starts(log), Find(f.idx, k).value;
    FindOnChain(idx, starts, k);
    CodedDeleteBytes(idx, starts, k);
    var idx' := Deleted(idx, k, AsCoded);
    AlignedApart(q, |idx|);
    if InFile(idx, q + RECORD) {
      forall b | 0 <= b < BUCKETS ensures Keeps(idx, idx', starts, starts, b) {
        forall c | RecordOk(idx, starts, c, b)
          ensures SameLinks(RecordAt(idx', c), RecordAt(idx, c)) && DataPtr(RecordAt(idx', c)) in starts
        {
          RedirectedRecord(idx, starts, k, c, b);
          MixedSmall(DataPtr(RecordAt(idx, c)), DataPtr(RecordAt(idx, q)));
        }
      }
      KeptLinksKeepAnswers(idx, idx', starts, starts);
    }
  }

  lemma HashOfA()
    ensures Hash([97]) == 97 && Clean([97])
  {
    var a: Text := [97];
    assert a[..0] == [];
    assert Bkdr(a[..0]) == 0;
    assert Bkdr(a) == 97;
  }

  /** The smallest case: after "a" is stored with value "x" in a new store, the coded replace by "y" makes
      it read empty, and the coded delete leaves it reading "x". */
  lemma CodedUpdatesFail(pad: seq<byte>)
    requires |pad| == 4
    ensures var a: Text, x: Value, y: Value := [97], [120], [121];
      var f := InsertFiles(Created(), a, x, pad);
      && View(f, a) == Found(x)
      && Find(f.idx, a).Some?
      && View(ReplaceFiles(f, a, y, AsCoded), a) == Found([])
      && View(DeleteFiles(f, a, AsCoded), a) == Found(x)
  {
    hide Deleted, Replaced, Inserted, Head, Append, DataPtr, NextPtr;
    hide SeenKey, StoredKey, NewRecord, Hash, ValueAt, InsertSpec, DataFile;
    var a: Text, x: Value, y: Value := [97], [120], [121];
    var f0 := Created();
    var f := InsertFiles(f0, a, x, pad);
    HashOfA();
    CreatedIsEmpty();
    assert View(f0, a) == Absent;
    InsertRefines(f0, [], map[], a, x, pad);
    InsertedFind(f0.idx, Starts([]), Starts([x]), a, pad, DATA_HEADER, a) by { AppendStarts([], x); assert [] + [x] ==
        [x]; }
    InsertedNew(f0.idx, a, pad, DATA_HEADER);
    NewRecordFields(a, pad, DATA_HEADER);
    assert View(f, a) == Found(x);
    FindOnChain(f.idx, Starts([] + [x]), a);
    CodedReplaceEmpties(f, [] + [x], map[a := x], a, y);
    CodedDeleteKeeps(f, [] + [x], a);
  }
}
