/** The tmdb index file: its bytes, its hash chains, and what each update does to every lookup. */
module TmdbIndex {
  import opened Bytes

  const BUCKETS: nat := 655360
  const HEADER: nat := 256
  const TABLE_END: nat := HEADER + 8 * BUCKETS
  const MAX_KEY: nat := 64

  // The key record as the compiler lays it out: flag, key, four bytes of padding, data_ptr, next_ptr.
  const RECORD: nat := 88
  const KEY_AT: nat := 4
  const PAD_AT: nat := 68
  const DATA_AT: nat := 72
  const NEXT_AT: nat := 80

  type Record = r: seq<byte> | |r| == RECORD witness Zeros(88)

  datatype Option<+T> = None | Some(value: T)

  /** _db_hash works on unsigned long and adds a signed char. */
  function Signed(c: byte): int { if c < 128 then c else c - 256 }

  function Bkdr(key: Text): (h: nat)
    ensures h < WORD * WORD
  {
    if key == [] then 0
    else (Bkdr(key[..|key| - 1]) * 131 + Signed(key[|key| - 1])) % (WORD * WORD)
  }

  function Hash(key: Text): (h: nat)
    ensures h < BUCKETS
  {
    Bkdr(key) % 0x8000_0000 % BUCKETS
  }

  // Fields of a record. The key the search compares runs through the padding when no NUL stops it;
  // the key that was stored is the one inside the 64-byte array.
  function StoredKey(r: Record): Text { CStr(r[KEY_AT..PAD_AT]) }
  function SeenKey(r: Record): Text { RTrim(CStr(r[KEY_AT..])) }
  function DataPtr(r: Record): nat { FromLe8(r[DATA_AT..NEXT_AT]) }
  function NextPtr(r: Record): nat { FromLe8(r[NEXT_AT..]) }

  /** The stored key's terminator comes before data_ptr. */
  predicate KeyEnds(r: Record) { |CStr(r[KEY_AT..])| < DATA_AT - KEY_AT }

  /** A pointer the search follows to a whole record. Nothing checks that it points past the bucket table. */
  predicate InFile(idx: seq<byte>, p: nat) { 0 < p && p + RECORD <= |idx| }

  function RecordAt(idx: seq<byte>, p: nat): Record
    requires InFile(idx, p)
  {
    idx[p..p + RECORD]
  }

  function BucketAt(b: nat): nat { HEADER + 8 * b }

  function Head(idx: seq<byte>, b: nat): nat
    requires b < BUCKETS && TABLE_END <= |idx|
  {
    FromLe8(idx[BucketAt(b)..BucketAt(b) + 8])
  }

  /** The first record on the chain from p whose key reads as k. */
  function Lookup(idx: seq<byte>, p: nat, k: Text): (q: Option<nat>)
    ensures q.Some? ==> InFile(idx, q.value) && SeenKey(RecordAt(idx, q.value)) == k && p <= q.value
    decreases |idx| - p
  {
    if !InFile(idx, p) then None
    else if SeenKey(RecordAt(idx, p)) == k then Some(p)
    else if NextPtr(RecordAt(idx, p)) <= p then None
    else Lookup(idx, NextPtr(RecordAt(idx, p)), k)
  }

  /** How many records on the chain from p answer k. */
  function Count(idx: seq<byte>, p: nat, k: Text): (n: nat)
    ensures n == 0 <==> Lookup(idx, p, k) == None
    decreases |idx| - p
  {
    if !InFile(idx, p) then 0
    else
      var n := NextPtr(RecordAt(idx, p));
      (if SeenKey(RecordAt(idx, p)) == k then 1 else 0) + (if n <= p then 0 else Count(idx, n, k))
  }

  function Find(idx: seq<byte>, k: Text): (q: Option<nat>)
    requires TABLE_END <= |idx|
    ensures q.Some? ==> InFile(idx, q.value) && SeenKey(RecordAt(idx, q.value)) == k
  {
    Lookup(idx, Head(idx, Hash(k)), k)
  }

  /** The last record on the chain from p. */
  function Tail(idx: seq<byte>, p: nat): (t: nat)
    requires InFile(idx, p)
    ensures p <= t && InFile(idx, t)
    decreases |idx| - p
  {
    var n := NextPtr(RecordAt(idx, p));
    if n <= p || !InFile(idx, n) then p else Tail(idx, n)
  }

  predicate Aligned(p: nat) { TABLE_END <= p && (p - TABLE_END) % RECORD == 0 }

  /** A record that may stand at p on the chain of bucket b. `starts` holds the legal data positions. */
  predicate RecordOk(idx: seq<byte>, starts: set<nat>, p: nat, b: nat) {
    && InFile(idx, p) && Aligned(p)
    && var r := RecordAt(idx, p);
    && Hash(StoredKey(r)) == b
    && SeenKey(r) == RTrim(StoredKey(r)) && KeyEnds(r)
    && DataPtr(r) in starts
    && (NextPtr(r) == 0 || p < NextPtr(r))
  }

  predicate ChainOk(idx: seq<byte>, starts: set<nat>, p: nat, b: nat)
    decreases |idx| - p
  {
    p != 0 ==>
      && RecordOk(idx, starts, p, b)
      && var n := NextPtr(RecordAt(idx, p));
      n != 0 ==> ChainOk(idx, starts, n, b)
  }

  /** The heap-shape invariant of the index file. */
  ghost predicate IndexOk(idx: seq<byte>, starts: set<nat>) {
    && TABLE_END <= |idx| && Aligned(|idx|)
    && forall b :: 0 <= b < BUCKETS ==> ChainOk(idx, starts, Head(idx, b), b)
  }

  /** The key record _db_store fills in; malloc leaves the padding arbitrary, but a 64-byte key's
      terminator lands on its first byte. */
  predicate PadOk(key: Text, pad: seq<byte>) {
    |pad| == 4 && (|key| == MAX_KEY ==> pad[0] == 0)
  }

  function NewRecord(key: Text, pad: seq<byte>, data: nat): (r: Record)
    requires |key| <= MAX_KEY && PadOk(key, pad)
  {
    Zeros(4) + (key + Zeros(MAX_KEY - |key|)) + pad + Le8(data) + Le8(0)
  }

  lemma NewRecordFields(key: Text, pad: seq<byte>, data: nat)
    requires |key| <= MAX_KEY && PadOk(key, pad) && data <= OFF_MAX
    ensures var r := NewRecord(key, pad, data);
      && StoredKey(r) == key && SeenKey(r) == RTrim(key) && KeyEnds(r)
      && DataPtr(r) == data && NextPtr(r) == 0
  {
    FromLe8Le8(data);
    FromLe8Le8(0);
    Layout(key, pad, Le8(data), Le8(0));
  }

  lemma Layout(key: Text, pad: seq<byte>, data: seq<byte>, next: seq<byte>)
    requires |key| <= MAX_KEY && PadOk(key, pad) && |data| == 8 && |next| == 8
    ensures var r: Record := Zeros(4) + (key + Zeros(MAX_KEY - |key|)) + pad + data + next;
      && StoredKey(r) == key && SeenKey(r) == RTrim(key) && KeyEnds(r)
      && r[DATA_AT..NEXT_AT] == data && r[NEXT_AT..] == next
  {
    var zeros := Zeros(MAX_KEY - |key|);
    Cuts(Zeros(4), key + zeros, pad, data, next);
    CStrOfText(key, zeros);
    Regroup(key, zeros, pad, data, next);
    CStrOfText(key, zeros + (pad + data + next));
  }

  lemma Cuts(flag: seq<byte>, key: seq<byte>, pad: seq<byte>, data: seq<byte>, next: seq<byte>)
    requires |flag| == 4 && |key| == 64 && |pad| == 4 && |data| == 8 && |next| == 8
    ensures var r := flag + key + pad + data + next;
      && r[KEY_AT..PAD_AT] == key && r[KEY_AT..] == key + pad + data + next
      && r[DATA_AT..NEXT_AT] == data && r[NEXT_AT..] == next
  {
  }

  lemma Regroup(key: seq<byte>, zeros: seq<byte>, pad: seq<byte>, data: seq<byte>, next: seq<byte>)
    ensures (key + zeros) + pad + data + next == key + (zeros + (pad + data + next))
  {
  }

  predicate SameKey(r: Record, s: Record) {
    StoredKey(r) == StoredKey(s) && SeenKey(r) == SeenKey(s) && (KeyEnds(s) ==> KeyEnds(r))
  }

  /** Same keys and same successor: nothing a search follows has changed. */
  predicate SameLinks(r: Record, s: Record) { SameKey(r, s) && NextPtr(r) == NextPtr(s) }

  /** The key fields decide the keys, as long as the terminator is among them. */
  lemma SameKeyBytes(r: Record, s: Record)
    requires r[KEY_AT..DATA_AT] == s[KEY_AT..DATA_AT] && KeyEnds(s)
    ensures SameKey(r, s)
  {
    var n := DATA_AT - KEY_AT;
    assert r[KEY_AT..][..n] == r[KEY_AT..DATA_AT] == s[KEY_AT..][..n];
    CStrPrefix(r[KEY_AT..], n);
    CStrPrefix(s[KEY_AT..], n);
    assert r[KEY_AT..PAD_AT] == r[KEY_AT..DATA_AT][..MAX_KEY] == s[KEY_AT..PAD_AT];
  }

  /** Every record that may stand on a chain of bucket b still has its links, and legal data. */
  ghost predicate Keeps(idx: seq<byte>, idx': seq<byte>, starts: set<nat>, starts': set<nat>, b: nat) {
    && |idx| <= |idx'|
    && forall q :: RecordOk(idx, starts, q, b) ==>
        SameLinks(RecordAt(idx', q), RecordAt(idx, q)) && DataPtr(RecordAt(idx', q)) in starts'
  }

  lemma {:induction false} KeepChain(idx: seq<byte>, idx': seq<byte>, starts: set<nat>, starts': set<nat>, p: nat,
      b: nat, k: Text)
    requires ChainOk(idx, starts, p, b) && Keeps(idx, idx', starts, starts', b)
    ensures ChainOk(idx', starts', p, b)
    ensures Lookup(idx', p, k) == Lookup(idx, p, k) && Count(idx', p, k) == Count(idx, p, k)
    decreases |idx| - p
  {
    if p != 0 {
      assert SameLinks(RecordAt(idx', p), RecordAt(idx, p));
      var n := NextPtr(RecordAt(idx, p));
      if n == 0 {
        assert Lookup(idx, n, k) == None && Lookup(idx', n, k) == None;
      } else {
        KeepChain(idx, idx', starts, starts', n, b, k);
      }
    }
  }

  /** The tail t of a chain now points at a record r that ends it: the chain is one longer. */
  lemma {:induction false} ExtendChain(idx: seq<byte>, idx': seq<byte>, starts: set<nat>, starts': set<nat>,
                                       p: nat, b: nat, t: nat, r: nat, k: Text)
    requires p != 0 && ChainOk(idx, starts, p, b) && t == Tail(idx, p)
    requires starts <= starts' && |idx| <= |idx'|
    requires forall q :: RecordOk(idx, starts, q, b) && q != t ==> RecordAt(idx', q) == RecordAt(idx, q)
    requires var x, y := RecordAt(idx, t), RecordAt(idx', t);
      SameKey(y, x) && DataPtr(y) == DataPtr(x) && NextPtr(y) == r
    requires t < r && RecordOk(idx', starts', r, b) && NextPtr(RecordAt(idx', r)) == 0
    ensures ChainOk(idx', starts', p, b)
    ensures Lookup(idx', p, k) ==
      if Lookup(idx, p, k).Some? then Lookup(idx, p, k)
      else if SeenKey(RecordAt(idx', r)) == k then Some(r) else None
    ensures Count(idx', p, k) == Count(idx, p, k) + if SeenKey(RecordAt(idx', r)) == k then 1 else 0
    decreases |idx| - p
  {
    hide Hash, StoredKey, SeenKey, DataPtr, NextPtr, KeyEnds;
    var n := NextPtr(RecordAt(idx, p));
    if n == 0 {
      assert t == p;
      assert Lookup(idx, n, k) == None && Lookup(idx', 0, k) == None;
      assert Count(idx', r, k) == if SeenKey(RecordAt(idx', r)) == k then 1 else 0;
      assert ChainOk(idx', starts', 0, b);
      assert ChainOk(idx', starts', r, b);
    } else {
      assert RecordOk(idx, starts, n, b);
      assert Tail(idx, p) == Tail(idx, n);
      TailBeyond(idx, n);
      ExtendChain(idx, idx', starts, starts', n, b, t, r, k);
    }
  }

  lemma TailBeyond(idx: seq<byte>, p: nat)
    requires InFile(idx, p)
    ensures p <= Tail(idx, p)
  {
  }

  /** The record before `target` on the chain from p. */
  function Before(idx: seq<byte>, p: nat, target: nat): (q: nat)
    requires InFile(idx, p)
    ensures InFile(idx, q) && p <= q
    decreases |idx| - p
  {
    var n := NextPtr(RecordAt(idx, p));
    if n == target || n <= p || !InFile(idx, n) then p else Before(idx, n, target)
  }

  /** The predecessor now points past the record that answers k: only that record is gone. */
  lemma {:induction false} UnlinkChain(idx: seq<byte>, idx': seq<byte>, starts: set<nat>,
                                       p: nat, b: nat, k: Text, target: nat, other: Text)
    requires ChainOk(idx, starts, p, b) && Lookup(idx, p, k) == Some(target) && p != target
    requires |idx| == |idx'|
    requires forall q :: RecordOk(idx, starts, q, b) && q != Before(idx, p, target) ==>
        SameLinks(RecordAt(idx', q), RecordAt(idx, q)) && DataPtr(RecordAt(idx', q)) == DataPtr(RecordAt(idx, q))
    requires var x, y := RecordAt(idx, Before(idx, p, target)), RecordAt(idx', Before(idx, p, target));
      && SameKey(y, x) && DataPtr(y) == DataPtr(x)
      && NextPtr(y) == NextPtr(RecordAt(idx, target))
    ensures ChainOk(idx', starts, p, b)
    ensures other != k ==> Lookup(idx', p, other) == Lookup(idx, p, other)
    ensures Count(idx', p, other) == Count(idx, p, other) - if other == k then 1 else 0
    decreases |idx| - p
  {
    var n := NextPtr(RecordAt(idx, p));
    assert n != 0 && RecordOk(idx, starts, n, b) && Lookup(idx, n, k) == Some(target);
    if n == target {
      UnlinkNext(idx, idx', starts, p, b, k, target, other);
    } else {
      assert Before(idx, p, target) == Before(idx, n, target);
      assert n <= Before(idx, n, target);
      UnlinkChain(idx, idx', starts, n, b, k, target, other);
    }
  }

  lemma UnlinkNext(idx: seq<byte>, idx': seq<byte>, starts: set<nat>, p: nat, b: nat, k: Text, target: nat, other: Text)
    requires p != 0 && ChainOk(idx, starts, p, b) && Lookup(idx, p, k) == Some(target) && p != target
    requires |idx| == |idx'| && NextPtr(RecordAt(idx, p)) == target
    requires forall q :: RecordOk(idx, starts, q, b) && q != p ==>
        SameLinks(RecordAt(idx', q), RecordAt(idx, q)) && DataPtr(RecordAt(idx', q)) == DataPtr(RecordAt(idx, q))
    requires var x, y := RecordAt(idx, p), RecordAt(idx', p);
      && SameKey(y, x) && DataPtr(y) == DataPtr(x)
      && NextPtr(y) == NextPtr(RecordAt(idx, target))
    ensures ChainOk(idx', starts, p, b)
    ensures other != k ==> Lookup(idx', p, other) == Lookup(idx, p, other)
    ensures Count(idx', p, other) == Count(idx, p, other) - if other == k then 1 else 0
  {
    var m := NextPtr(RecordAt(idx, target));
    assert ChainOk(idx, starts, target, b);
    BeyondKeeps(idx, idx', starts, p, m, b, other);
    assert m == 0 ==> Lookup(idx', m, other) == None && Lookup(idx, m, other) == None;
    assert SeenKey(RecordAt(idx, p)) != k;
    var here := if SeenKey(RecordAt(idx, p)) == other then 1 else 0;
    assert Lookup(idx, p, other) == if SeenKey(RecordAt(idx, p)) == other then Some(p) else Lookup(idx, target, other);
    assert Count(idx, p, other) == here + Count(idx, target, other);
    assert Count(idx, target, other) == (if other == k then 1 else 0) + Count(idx, m, other);
    assert Count(idx', p, other) == here + Count(idx', m, other);
  }

  lemma {:induction false} BeyondKeeps(idx: seq<byte>, idx': seq<byte>, starts: set<nat>, changed: nat, p: nat,
      b: nat, k: Text)
    requires ChainOk(idx, starts, p, b) && (p == 0 || changed < p) && |idx| <= |idx'|
    requires forall q :: RecordOk(idx, starts, q, b) && q != changed ==>
        SameLinks(RecordAt(idx', q), RecordAt(idx, q)) && DataPtr(RecordAt(idx', q)) == DataPtr(RecordAt(idx, q))
    ensures ChainOk(idx', starts, p, b)
    ensures Lookup(idx', p, k) == Lookup(idx, p, k) && Count(idx', p, k) == Count(idx, p, k)
    decreases |idx| - p
  {
    if p != 0 {
      assert SameLinks(RecordAt(idx', p), RecordAt(idx, p));
      var n := NextPtr(RecordAt(idx, p));
      if n == 0 {
        assert Lookup(idx, n, k) == None && Lookup(idx', n, k) == None;
      } else {
        BeyondKeeps(idx, idx', starts, changed, n, b, k);
      }
    }
  }
}
