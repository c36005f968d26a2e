/** The search of tmdb on any bytes whatever, also on an index that an update has damaged. */
module TmdbChase {
  import opened Bytes
  import opened TmdbData
  import opened TmdbIndex
  import opened Tmdb

  /** How a search ends: at a record, at a zero next_ptr, with a failed read that ends the program, or never. */
  datatype Outcome = Hit(at: nat) | Miss | ReadError | Endless

  /** fseeko refuses a negative offset and leaves the file where the last read ended. */
  function Follow(p: nat, next: nat): (q: nat)
    ensures next != 0 ==> q != 0
  {
    if next > OFF_MAX then p + RECORD else next
  }

  function Positions(n: nat): (s: set<nat>)
    ensures forall p: nat :: p in s <==> p < n
  {
    if n == 0 then {} else Positions(n - 1) + {n - 1}
  }

  /** The loop of _db_find_and_lock from offset p; `visited` are the offsets it has read at. */
  function Chase(idx: seq<byte>, p: nat, k: Text, visited: set<nat>): (o: Outcome)
    requires p != 0 && visited <= Positions(|idx|)
    ensures o.Hit? ==> InFile(idx, o.at)
    decreases Positions(|idx|) - visited
  {
    if p in visited then Endless
    else if !InFile(idx, p) then ReadError
    else
      var r := RecordAt(idx, p);
      if SeenKey(r) == k then Hit(p)
      else if NextPtr(r) == 0 then Miss
      else
        assert p in Positions(|idx|) - visited;
        Chase(idx, Follow(p, NextPtr(r)), k, visited + {p})
  }

  /** _db_find_and_lock. */
  function Searched(idx: seq<byte>, k: Text): Outcome
    requires TABLE_END <= |idx|
  {
    var h := Hash(k);
    var head := Head(idx, h);
    if head == 0 then Miss else Chase(idx, if head > OFF_MAX then BucketAt(h) + 8 else head, k, {})
  }

  /** What tdb_fetch answers, or that it never does. A failed read of either file ends the program. */
  datatype Result = Returns(answer: Fetched) | Hangs

  function FetchOf(f: Files, k: Text): Result
    requires TABLE_END <= |f.idx|
  {
    match Searched(f.idx, k)
    case Miss => Returns(Absent)
    case ReadError => Returns(Unreadable)
    case Endless => Hangs
    case Hit(q) =>
      match ValueAt(f.dat, DataPtr(RecordAt(f.idx, q)))
      case Short => Returns(Unreadable)
      case Read(v) => Returns(Found(v))
  }

  function Ended(q: Option<nat>): Outcome { match q case Some(p) => Hit(p) case None => Miss }

  /** From a chain that is well formed the search ends as the chain says. */
  lemma {:induction false} ChaseOnChain(idx: seq<byte>, starts: set<nat>, p: nat, b: nat, k: Text, visited: set<nat>)
    requires p != 0 && ChainOk(idx, starts, p, b) && |idx| <= OFF_MAX
    requires visited <= Positions(|idx|) && forall v :: v in visited ==> v < p
    ensures Chase(idx, p, k, visited) == Ended(Lookup(idx, p, k))
    decreases |idx| - p
  {
    hide Hash, StoredKey, SeenKey, DataPtr, NextPtr, KeyEnds, Positions;
    var n := NextPtr(RecordAt(idx, p));
    if SeenKey(RecordAt(idx, p)) != k && n != 0 {
      assert RecordOk(idx, starts, n, b);
      ChaseOnChain(idx, starts, n, b, k, visited + {p});
    }
  }

  /** Wherever the key's own chain is well formed, the search and a fetch end as the chain says. */
  lemma SearchedOnChain(f: Files, starts: set<nat>, k: Text)
    requires TABLE_END <= |f.idx| <= OFF_MAX && ChainOk(f.idx, starts, Head(f.idx, Hash(k)), Hash(k))
    ensures Searched(f.idx, k) == Ended(Find(f.idx, k)) && FetchOf(f, k) == Returns(View(f, k))
  {
    hide Hash, Head, StoredKey, SeenKey, DataPtr, NextPtr, KeyEnds, ValueAt, Chase;
    var head := Head(f.idx, Hash(k));
    if head != 0 {
      assert RecordOk(f.idx, starts, head, Hash(k));
      ChaseOnChain(f.idx, starts, head, Hash(k), k, {});
    }
  }

  /** On every well-formed pair of files the search ends, and a fetch answers what the files say. */
  lemma FetchReturnsView(f: Files, log: seq<Value>, k: Text)
    requires Valid(f, log) && |f.idx| <= OFF_MAX
    ensures FetchOf(f, k) == Returns(View(f, k))
  {
    hide Hash, Head, ChainOk;
    SearchedOnChain(f, Starts(log), k);
  }
}
