/** What the calls of tmdb return, and what the coded replace and delete do as calls. */
module TmdbCalls {
  import opened Bytes
  import opened TmdbData
  import opened TmdbIndex
  import opened Tmdb
  import opened TmdbUpdate
  import opened TmdbChase
  import opened TmdbHeadDelete
  import opened TmdbStore

  /** -1 for a bad mode, key or value; 0 when there is nothing to do; 1 when something was written. */
  lemma StoreReturns(f: Files, k: Text, v: Text, mode: int, pad: seq<byte>, how: Addresses)
    requires TABLE_END <= |f.idx| && DATA_HEADER <= |f.dat| && (KeyOk(k) ==> PadOk(k, pad))
    ensures StoreFiles(f, k, v, mode, pad, how).1 ==
      (if !(1 <= mode <= 3) || |k| == 0 || |k| > 64 || |v| > 4194304 then -1
       else if mode == (if Find(f.idx, k).Some? then 1 else 2) then 0 else 1)
    ensures StoreFiles(f, k, v, mode, pad, how).1 != 1 ==> StoreFiles(f, k, v, mode, pad, how).0 == f
  {
    hide Find, Append, Inserted, Replaced;
  }

  lemma RemoveReturns(f: Files, k: Text, how: Addresses)
    requires TABLE_END <= |f.idx|
    ensures RemoveFiles(f, k, how).1 ==
      if |k| == 0 || |k| > 64 then -1 else if Find(f.idx, k).Some? then 1 else 0
    ensures RemoveFiles(f, k, how).1 != 1 ==> RemoveFiles(f, k, how).0 == f
  {
    hide Find, Deleted;
  }

  lemma FetchReturns(f: Files, k: Text)
    requires TABLE_END <= |f.idx|
    ensures FetchFiles(f, k) == if |k| == 0 || |k| > 64 then Absent else View(f, k)
  {
    hide Find;
  }

  lemma {:induction false} CStringOf(s: seq<byte>)
    ensures CStr(s) <= s && (|CStr(s)| < |s| ==> s[|CStr(s)|] == 0)
  {
    if s != [] && s[0] != 0 { CStringOf(s[1..]); }
  }

  /** What a fetch of a found key reads: a position from offset 72 of the key record, a length from offset 4 of the
      data record, and the payload behind it up to its first zero. A read past the end of the file fails. */
  lemma FetchReads(f: Files, k: Text, q: nat)
    requires TABLE_END <= |f.idx| && KeyOk(k) && Find(f.idx, k) == Some(q)
    ensures q + 88 <= |f.idx|
    ensures var d := FromLe8(f.idx[q + 72..q + 80]);
      if d + 8 > |f.dat| || d + 8 + FromLe4(f.dat[d + 4..d + 8]) > |f.dat| then FetchFiles(f, k) == Unreadable
      else
        var payload := f.dat[d + 8..d + 8 + FromLe4(f.dat[d + 4..d + 8])];
        FetchFiles(f, k).Found? &&
        var v := FetchFiles(f, k).value;
        v <= payload && (|v| < |payload| ==> payload[|v|] == 0)
  {
    hide FromLe8, FromLe4, CStr, Lookup;
    var d := FromLe8(f.idx[q + 72..q + 80]);
    SliceOfSlice(f.idx, q, q + 88, 72, 80);
    if d + 8 <= |f.dat| && d + 8 + FromLe4(f.dat[d + 4..d + 8]) <= |f.dat| {
      CStringOf(f.dat[d + 8..d + 8 + FromLe4(f.dat[d + 4..d + 8])]);
    }
  }

  /** The coded delete of a key that does not head bucket 0 reports success, and the key still answers. */
  lemma CodedRemoveKeeps(f: Files, log: seq<Value>, k: Text)
    requires Valid(f, log) && KeyOk(k) && Find(f.idx, k).Some?
    requires Find(f.idx, k).value != Head(f.idx, Hash(k)) || Hash(k) != 0
    ensures var (f', ret) := RemoveFiles(f, k, AsCoded);
      ret == 1 && TABLE_END <= |f'.idx| && FetchFiles(f', k) == FetchFiles(f, k) != Absent
  {
    CodedDeleteKeeps(f, log, k);
    hide Find, Deleted, Hash, Head, View;
  }

  /** The coded delete of any stored key reports success; the key is absent afterwards under exactly the condition
      of CodedDeleteExactly. */
  lemma CodedRemoveExactly(f: Files, log: seq<Value>, k: Text)
    requires Valid(f, log) && |f.idx| < WORD && |f.dat| < WORD && KeyOk(k) && Find(f.idx, k).Some?
    requires Tame(f.idx, DataPtr(RecordAt(f.idx, Find(f.idx, k).value)))
    ensures var (f', ret) := RemoveFiles(f, k, AsCoded);
      var q := Find(f.idx, k).value;
      var d := DataPtr(RecordAt(f.idx, q));
      && ret == 1 && TABLE_END <= |f'.idx|
      && (FetchOf(f', k) == Returns(Absent) <==>
            Hash(k) == 0 && q == Head(f.idx, 0) && (d == 0 || PassedBy(f.idx, d, k)))
  {
    CodedDeleteExactly(f, log, k);
    hide Find, Deleted, Hash, Head, FetchOf, DataPtr, PassedBy, Tame;
  }

  /** The coded replace of any stored key reports success; the new value answers under exactly the condition of
      CodedReplaceReads. */
  lemma CodedStoreReads(f: Files, log: seq<Value>, k: Text, v: Value, mode: int, pad: seq<byte>)
    requires Valid(f, log) && KeyOk(k) && Find(f.idx, k).Some? && |f.dat| <= OFF_MAX
    requires (mode == 2 || mode == 3) && PadOk(k, pad)
    ensures DATA_HEADER <= |f.dat|
    ensures var (f', ret) := StoreFiles(f, k, v, mode, pad, AsCoded);
      var r := RecordAt(f.idx, Find(f.idx, k).value);
      var next := Lookup(f.idx, NextPtr(r), k);
      && ret == 1 && TABLE_END <= |f'.idx|
      && (FetchFiles(f', k) == Found(v) <==>
            if StillReads(r, |f.dat|) then ValueAt(DataFile(log + [v]), Mixed(DataPtr(r), |f.dat| / WORD)) == Read(v)
            else next.Some? && DataPtr(RecordAt(f.idx, next.value)) in Starts(log) &&
                 Meaning(log, DataPtr(RecordAt(f.idx, next.value))) == v)
  {
    CodedReplaceReads(f, log, k, v);
    hide Find, Replaced, Append, Hash, Head, View, DataPtr;
    hide Lookup, NextPtr, StillReads, Mixed, ValueAt, Starts, Meaning;
  }

  /** A successful replace or delete at the coded addresses says so, whatever it did. */
  lemma CodedCallsFail(pad: seq<byte>)
    requires |pad| == 4
    ensures var a: Text, x: Value, y: Value := [97], [120], [121];
      var f := InsertFiles(Created(), a, x, pad);
      && FetchFiles(f, a) == Found(x)
      && FetchFiles(StoreFiles(f, a, y, 3, pad, AsCoded).0, a) == Found([]) &&
          StoreFiles(f, a, y, 3, pad, AsCoded).1 == 1
      && FetchFiles(RemoveFiles(f, a, AsCoded).0, a) == Found(x) && RemoveFiles(f, a, AsCoded).1 == 1
  {
    CodedUpdatesFail(pad);
    hide Find, Replaced, Append, Inserted, Deleted, View;
  }
}
