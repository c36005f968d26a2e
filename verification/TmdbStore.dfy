/** The tmdb handle, its calls, and whole runs of calls. */
module TmdbStore {
  import opened Bytes
  import opened TmdbData
  import opened TmdbIndex
  import opened Tmdb
  import opened TmdbUpdate

  const KEY_FIRST := 1
  const KEY_NOTEXIST := 2
  const KEY_EXIST := 3

  // ---- what each call does to the files

  function StoreFiles(f: Files, k: Text, v: Text, mode: int, pad: seq<byte>, how: Addresses): (r: (Files, int))
    requires TABLE_END <= |f.idx| && DATA_HEADER <= |f.dat| && (KeyOk(k) ==> PadOk(k, pad))
  {
    if mode != TDB_INSERT && mode != TDB_REPLACE && mode != TDB_STORE then (f, TDB_ERROR)
    else if !KeyOk(k) || |v| > MAX_RECORD_LEN then (f, TDB_ERROR)
    else if Find(f.idx, k).Some? then
      if mode == TDB_INSERT then (f, TDB_OK) else (ReplaceFiles(f, k, v, how), TDB_SUCCESS)
    else
      if mode == TDB_REPLACE then (f, TDB_OK) else (InsertFiles(f, k, v, pad), TDB_SUCCESS)
  }

  function RemoveFiles(f: Files, k: Text, how: Addresses): (r: (Files, int))
    requires TABLE_END <= |f.idx|
  {
    if !KeyOk(k) then (f, TDB_ERROR)
    else if Find(f.idx, k).Some? then (DeleteFiles(f, k, how), TDB_SUCCESS)
    else (f, TDB_OK)
  }

  function FetchFiles(f: Files, k: Text): Fetched
    requires TABLE_END <= |f.idx|
  {
    if !KeyOk(k) then Absent else View(f, k)
  }

  /** The handle: two open files and the scratch fields a search leaves for its caller. */
  class Tdb {
    var idx: seq<byte>
    var dat: seq<byte>
    var hash: nat
    var keyPtrPos: nat
    var idxoff: nat
    var preidx: nat
    var datoff: nat
    ghost var log: seq<Value>

    ghost predicate Valid()
      reads this
    {
      Tmdb.Valid(Content(), log) && |idx| <= OFF_MAX && |dat| <= OFF_MAX
    }

    function Content(): Files
      reads this
    {
      Files(idx, dat)
    }

    /** tdb_open in mode "c": _db_alloc, then _db_create on two truncated files. */
    constructor Create()
      ensures Valid() && Content() == Created() && log == []
    {
      idx := Write(Write([], 0, Le4(0)), HEADER + 8 * BUCKETS - 8, Le8(0));
      dat := Write([], DATA_HEADER - 4, Le4(0));
      hash, keyPtrPos, idxoff, preidx, datoff := 0, 0, 0, 0, 0;
      log := [];
      new;
      CreatedBytes();
      CreatedIsEmpty();
    }

    /** tdb_open on files a previous handle left behind. */
    constructor Open(files: Files, ghost values: seq<Value>)
      requires Tmdb.Valid(files, values) && |files.idx| <= OFF_MAX && |files.dat| <= OFF_MAX
      ensures Valid() && Content() == files && log == values
    {
      idx, dat := files.idx, files.dat;
      hash, keyPtrPos, idxoff, preidx, datoff := 0, 0, 0, 0, 0;
      log := values;
    }

    /** _db_hash. */
    method HashOf(k: Text) returns (h: nat)
      ensures h == Hash(k)
    {
      h := 0;
      for i := 0 to |k|
        invariant h == Bkdr(k[..i])
      {
        assert k[..i + 1][..i] == k[..i];
        h := (h * 131 + Signed(k[i])) % (WORD * WORD);
      }
      assert k[..|k|] == k;
      h := h % 0x8000_0000 % BUCKETS;
    }

    /** _db_find_and_lock: leaves the bucket's head, the position and the end of the last record read, and the
        data position behind. `before` is the record read before the last one. */
    method Search(k: Text) returns (ret: int, before: nat)
      requires Valid()
      modifies this`hash, this`keyPtrPos, this`idxoff, this`preidx, this`datoff
      ensures hash == Hash(k) && keyPtrPos == Head(idx, hash)
      ensures ret == KEY_FIRST <==> keyPtrPos == 0
      ensures ret == KEY_EXIST <==> Find(idx, k).Some?
      ensures ret == KEY_FIRST || ret == KEY_NOTEXIST || ret == KEY_EXIST
      ensures ret == KEY_EXIST ==> idxoff == Find(idx, k).value && preidx == idxoff + RECORD &&
                                   datoff == DataPtr(RecordAt(idx, idxoff))
      ensures ret != KEY_FIRST ==> InFile(idx, keyPtrPos)
      ensures ret == KEY_EXIST && idxoff != keyPtrPos ==> before == Before(idx, keyPtrPos, idxoff)
      ensures ret == KEY_NOTEXIST ==>
        idxoff == Tail(idx, keyPtrPos) && preidx == idxoff + RECORD
    {
      hide Hash, SeenKey, StoredKey, DataPtr, NextPtr, KeyEnds, DataFile, Before, Tail;
      hash := HashOf(k);
      keyPtrPos := FromLe8(idx[BucketAt(hash)..BucketAt(hash) + 8]);
      FindOnChain(idx, Starts(log), k);
      if keyPtrPos == 0 {
        idxoff := 0;
        return KEY_FIRST, 0;
      }
      ret, before := Walk(k);
    }

    /** The loop of _db_find_and_lock: compare, then follow next_ptr. */
    method Walk(k: Text) returns (ret: int, before: nat)
      requires InFile(idx, keyPtrPos) && ChainOk(idx, Starts(log), keyPtrPos, hash)
      modifies this`idxoff, this`preidx, this`datoff
      ensures ret == KEY_NOTEXIST || ret == KEY_EXIST
      ensures ret == KEY_EXIST <==> Lookup(idx, keyPtrPos, k).Some?
      ensures ret == KEY_EXIST ==> Lookup(idx, keyPtrPos, k) == Some(idxoff) && preidx == idxoff + RECORD &&
                                   datoff == DataPtr(RecordAt(idx, idxoff))
      ensures ret == KEY_EXIST && idxoff != keyPtrPos ==> before == Before(idx, keyPtrPos, idxoff)
      ensures ret == KEY_NOTEXIST ==> idxoff == Tail(idx, keyPtrPos) && preidx == idxoff + RECORD
    {
      hide Hash, SeenKey, StoredKey, DataPtr, NextPtr, KeyEnds, SamePredecessors, Before, ChainOk, Lookup, Tail, Starts;
      before := 0;
      var p := keyPtrPos;
      SamePredecessorsSelf(idx, p);
      while true
        invariant InFile(idx, p) && ChainOk(idx, Starts(log), p, hash)
        invariant Lookup(idx, p, k) == Lookup(idx, keyPtrPos, k) && Tail(idx, p) == Tail(idx, keyPtrPos)
        invariant SamePredecessors(idx, keyPtrPos, p)
        invariant p != keyPtrPos ==> before == Before(idx, keyPtrPos, p)
        decreases |idx| - p
      {
        WalkStep(idx, Starts(log), keyPtrPos, p, hash, k);
        var r := RecordAt(idx, p);
        preidx := p + RECORD;
        if SeenKey(r) == k {
          idxoff := p;
          datoff := DataPtr(r);
          return KEY_EXIST, before;
        }
        if NextPtr(r) == 0 {
          idxoff := p;
          return KEY_NOTEXIST, before;
        }
        before := p;
        p := NextPtr(r);
      }
    }

    /** _write_data_record: the four fwrites, from the end of the file on. */
    method WriteDataRecord(v: Text)
      requires |v| < WORD
      modifies this`dat
      ensures dat == old(dat) + RecordBytes(v, 0)
    {
      dat := dat + Le4(0);
      dat := dat + Le4(|v|);
      dat := dat + v;
      dat := dat + Le8(0);
      AppendFour(old(dat), Le4(0), Le4(|v|), v, Le8(0));
    }

    /** The data half of _db_store: link the last record to the end of the file, then append there. */
    method AppendData(v: Text) returns (recordPos: nat)
      requires DATA_HEADER <= |dat| && |v| < WORD
      modifies this`dat
      ensures recordPos == |old(dat)| && dat == Append(old(dat), v)
    {
      recordPos := |dat|;
      if recordPos >= DATA_HEADER + STRUCT_SIZE {
        dat := Write(dat, |dat| - 8, Le8(recordPos));
      }
      WriteDataRecord(v);
    }

    /** The index half of _db_store for a key that was not found: append its record, then link it. */
    method AppendKey(k: Text, pad: seq<byte>, recordPos: nat, found: int)
      requires TABLE_END <= |idx| && KeyOk(k) && PadOk(k, pad)
      requires hash == Hash(k) && keyPtrPos == Head(idx, hash)
      requires found == KEY_FIRST || found == KEY_NOTEXIST
      requires found == KEY_FIRST <==> keyPtrPos == 0
      requires found == KEY_NOTEXIST ==> InFile(idx, keyPtrPos) && preidx == Tail(idx, keyPtrPos) + RECORD
      modifies this`idx
      ensures idx == Inserted(old(idx), k, pad, recordPos)
    {
      hide Hash, Head, Le8, Write, NewRecord, Tail;
      var keyPtr := |idx|;
      idx := idx + NewRecord(k, pad, recordPos);
      var at := if found == KEY_FIRST then HEADER + 8 * hash else preidx - 8;
      idx := Write(idx, at, Le8(keyPtr));
    }

    /** The in-place write of the replace branch. */
    method WriteBack(recordPos: nat, how: Addresses)
      requires InFile(idx, idxoff)
      modifies this`idx
      ensures idx == Replaced(old(idx), idxoff, recordPos, how)
    {
      idx := Write(idx, idxoff + (if how.AsCoded? then PAD_AT else DATA_AT), Le8(recordPos));
    }

    /** _db_store once the search has decided to write. */
    method Commit(k: Text, v: Value, pad: seq<byte>, found: int, how: Addresses)
      requires Valid() && KeyOk(k) && PadOk(k, pad)
      requires hash == Hash(k) && keyPtrPos == Head(idx, hash)
      requires found == KEY_FIRST || found == KEY_NOTEXIST || found == KEY_EXIST
      requires found == KEY_FIRST <==> keyPtrPos == 0
      requires found == KEY_EXIST <==> Find(idx, k).Some?
      requires found == KEY_EXIST ==> Find(idx, k) == Some(idxoff)
      requires found == KEY_NOTEXIST ==> InFile(idx, keyPtrPos) && preidx == Tail(idx, keyPtrPos) + RECORD
      modifies this`idx, this`dat, this`log
      ensures dat == DataFile(log) && log == old(log) + [v]
      ensures Content() == if found == KEY_EXIST then ReplaceFiles(old(Content()), k, v, how)
                           else InsertFiles(old(Content()), k, v, pad)
    {
      assert TABLE_END <= |idx| && DATA_HEADER <= |dat|;
      AppendStarts(log, v);
      hide Hash, Head, Le8, Write, NewRecord, DataFile, IndexOk, Find;
      hide Tail, DataPtr, Append, Inserted, Starts, Meaning, PadOk, Replaced, Before;
      var recordPos := AppendData(v);
      log := log + [v];
      if found != KEY_EXIST {
        AppendKey(k, pad, recordPos, found);
      } else {
        WriteBack(recordPos, how);
      }
    }

    /** _db_store. The in-place write of the replace branch goes where `how` says. */
    method Store(k: Text, v: Text, mode: int, pad: seq<byte>, how: Addresses) returns (ret: int)
      requires Valid() && (KeyOk(k) ==> PadOk(k, pad))
      modifies this
      ensures (Content(), ret) == StoreFiles(old(Content()), k, v, mode, pad, how)
      ensures dat == DataFile(log)
      ensures ret == TDB_SUCCESS ==> |v| <= MAX_RECORD_LEN
      ensures log == if ret == TDB_SUCCESS then old(log) + [v] else old(log)
    {
      hide Hash, Head, DataFile, IndexOk, Find, Tail, DataPtr, InsertFiles, ReplaceFiles, Before, PadOk;
      if mode != TDB_INSERT && mode != TDB_REPLACE && mode != TDB_STORE { return TDB_ERROR; }
      if |k| <= 0 || |k| > MAX_KEY { return TDB_ERROR; }
      if |v| > MAX_RECORD_LEN { return TDB_ERROR; }
      var found, _ := Search(k);
      if mode == TDB_INSERT && found == KEY_EXIST { return TDB_OK; }
      if mode == TDB_REPLACE && (found == KEY_FIRST || found == KEY_NOTEXIST) { return TDB_OK; }
      Commit(k, v, pad, found, how);
      return TDB_SUCCESS;
    }

    /** The writes of _db_delete after a successful search. */
    method Unlink(k: Text, before: nat, how: Addresses)
      requires TABLE_END <= |idx| && Find(idx, k) == Some(idxoff) && preidx == idxoff + RECORD
      requires hash == Hash(k) && keyPtrPos == Head(idx, hash) && InFile(idx, keyPtrPos)
      requires idxoff != keyPtrPos ==> before == Before(idx, keyPtrPos, idxoff)
      modifies this`idx
      ensures Content() == DeleteFiles(old(Content()), k, how)
    {
      hide Hash, Head, Le8, Le4, Write, Find, Before, NextPtr;
      var next := NextPtr(RecordAt(idx, idxoff));
      idx := Write(idx, idxoff, Le4(1));
      if how.AsCommented? {
        idx := Write(idx, if keyPtrPos == idxoff then HEADER + 8 * hash else before + NEXT_AT, Le8(next));
      } else {
        var read := idx[idxoff + 4 + 68..idxoff + 4 + 68 + 4];
        idx := Write(idx, if keyPtrPos == idxoff then HEADER + 4 * hash else preidx + 4 + MAX_KEY + 4, read);
      }
    }

    /** _db_delete. As commented, the successor replaces the found record in the bucket or in the record
        before it; as coded, see Deleted. */
    method Delete(k: Text, how: Addresses) returns (ret: int)
      requires Valid()
      modifies this
      ensures (Content(), ret) == RemoveFiles(old(Content()), k, how)
      ensures log == old(log)
    {
      assert TABLE_END <= |idx|;
      hide Tmdb.Valid, DeleteFiles, Hash, Head, Find, Before;
      hide Tail, DataPtr, RecordAt, Valid;
      ghost var f := Content();
      assert RemoveFiles(f, k, how) ==
        if !KeyOk(k) then (f, TDB_ERROR)
        else if Find(f.idx, k).Some? then (DeleteFiles(f, k, how), TDB_SUCCESS) else (f, TDB_OK);
      hide RemoveFiles;
      if |k| <= 0 || |k| > MAX_KEY { return TDB_ERROR; }
      var found, before := Search(k);
      if found != KEY_EXIST { return TDB_OK; }
      Unlink(k, before, how);
      return TDB_SUCCESS;
    }

    /** _db_fetch. */
    method Fetch(k: Text) returns (r: Fetched)
      requires Valid()
      modifies this`hash, this`keyPtrPos, this`idxoff, this`preidx, this`datoff
      ensures r == FetchFiles(Content(), k)
    {
      hide Hash, Head, DataFile, Find, DataPtr, CStr, FromLe4;
      if |k| <= 0 || |k| > MAX_KEY { return Absent; }
      var found, _ := Search(k);
      if found != KEY_EXIST { return Absent; }
      if datoff + 8 > |dat| { return Unreadable; }
      var len := FromLe4(dat[datoff + 4..datoff + 8]);
      if datoff + 8 + len > |dat| { return Unreadable; }
      return Found(CStr(dat[datoff + 8..datoff + 8 + len]));
    }
  }

  /** The chains from `head` and from p agree on who comes before any later record. */
  ghost predicate SamePredecessors(idx: seq<byte>, head: nat, p: nat) {
    && InFile(idx, head) && InFile(idx, p)
    && forall q: nat :: p < q ==> Before(idx, head, q) == Before(idx, p, q)
  }

  lemma SamePredecessorsSelf(idx: seq<byte>, p: nat)
    requires InFile(idx, p)
    ensures SamePredecessors(idx, p, p)
  {
  }

  /** One step of the search. */
  lemma WalkStep(idx: seq<byte>, starts: set<nat>, head: nat, p: nat, b: nat, k: Text)
    requires SamePredecessors(idx, head, p) && p != 0 && ChainOk(idx, starts, p, b)
    ensures InFile(idx, p)
    ensures var n := NextPtr(RecordAt(idx, p));
      && (SeenKey(RecordAt(idx, p)) == k ==> Lookup(idx, p, k) == Some(p))
      && (SeenKey(RecordAt(idx, p)) != k && n == 0 ==> Lookup(idx, p, k) == None && Tail(idx, p) == p)
      && (SeenKey(RecordAt(idx, p)) != k && n != 0 ==>
            && p < n && InFile(idx, n) && ChainOk(idx, starts, n, b)
            && Lookup(idx, p, k) == Lookup(idx, n, k) && Tail(idx, p) == Tail(idx, n)
            && SamePredecessors(idx, head, n) && Before(idx, head, n) == p)
  {
    var n := NextPtr(RecordAt(idx, p));
    if n != 0 {
      assert RecordOk(idx, starts, n, b);
      assert Before(idx, head, n) == Before(idx, p, n) == p;
      forall q: nat | n < q ensures Before(idx, head, q) == Before(idx, n, q) {
        assert Before(idx, head, q) == Before(idx, p, q);
      }
    }
  }

  lemma CreatedBytes()
    ensures Write(Write([], 0, Le4(0)), HEADER + 8 * BUCKETS - 8, Le8(0)) == Zeros(TABLE_END)
    ensures Write([], DATA_HEADER - 4, Le4(0)) == Zeros(DATA_HEADER)
  {
  }

  lemma AppendFour(a: seq<byte>, b: seq<byte>, c: seq<byte>, d: seq<byte>, e: seq<byte>)
    ensures a + b + c + d + e == a + (b + c + d + e)
  {
  }
}
