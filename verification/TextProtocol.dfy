/** The text that the scheduler and the cache server exchange. */
module TextProtocol {
  import opened Decimal
  import opened Resizer

  const SIZE_MAX: nat := 0xFFFF_FFFF_FFFF_FFFF

  // ---- splitting at a delimiter

  /** str.split, and explode: the pieces between the delimiters. */
  function Split(s: string, delim: char): (ps: seq<string>)
    ensures ps != []
  {
    if s == "" then [""]
    else
      var rest := Split(s[1..], delim);
      if s[0] == delim then [""] + rest else [[s[0]] + rest[0]] + rest[1..]
  }

  function Join(ps: seq<string>, delim: char): string
    requires ps != []
  {
    if |ps| == 1 then ps[0] else ps[0] + [delim] + Join(ps[1..], delim)
  }

  lemma {:induction false} SplitPiece(p: string, s: string, delim: char)
    requires delim !in p
    ensures Split(p + [delim] + s, delim) == [p] + Split(s, delim)
  {
    var t := p + [delim] + s;
    if p == "" {
      assert t[1..] == s;
    } else {
      SplitPiece(p[1..], s, delim);
      assert t[1..] == p[1..] + [delim] + s;
      assert [t[0]] + p[1..] == p;
    }
  }

  lemma {:induction false} SplitLastPiece(p: string, delim: char)
    requires delim !in p
    ensures Split(p, delim) == [p]
  {
    if p != "" {
      SplitLastPiece(p[1..], delim);
      assert [p[0]] + p[1..] == p;
    }
  }

  /** Splitting undoes joining, and joining undoes splitting. */
  lemma {:induction false} SplitJoin(ps: seq<string>, delim: char)
    requires ps != [] && forall p :: p in ps ==> delim !in p
    ensures Split(Join(ps, delim), delim) == ps
  {
    if |ps| == 1 {
      SplitLastPiece(ps[0], delim);
    } else {
      SplitJoin(ps[1..], delim);
      SplitPiece(ps[0], Join(ps[1..], delim), delim);
    }
  }

  lemma {:induction false} JoinSplit(s: string, delim: char)
    ensures Join(Split(s, delim), delim) == s
    ensures forall p :: p in Split(s, delim) ==> delim !in p
  {
    if s != "" {
      JoinSplit(s[1..], delim);
      var rest := Split(s[1..], delim);
      assert s == [s[0]] + s[1..];
      if s[0] == delim {
        assert ([""] + rest)[1..] == rest;
      } else {
        var ps := Split(s, delim);
        assert ps[1..] == rest[1..];
        forall p | p in ps ensures delim !in p {
          if p != ps[0] { assert p in rest; }
        }
      }
    }
  }

  /** One piece: the text from `start` up to the next delimiter or the end. */
  lemma PieceStep(from: string, delim: char, start: nat, i: nat)
    requires start <= i <= |from| && delim !in from[start..i] && (i < |from| ==> from[i] == delim)
    ensures Split(from[start..], delim) ==
      [from[start..i]] + if i < |from| then Split(from[i + 1..], delim) else []
  {
    var buf := from[start..i];
    if i < |from| {
      assert from[start..] == buf + [delim] + from[i + 1..];
      SplitPiece(buf, from[i + 1..], delim);
    } else {
      assert from[start..] == buf;
      SplitLastPiece(buf, delim);
    }
  }

  lemma AppendPiece(items: seq<string>, piece: string, rest: seq<string>)
    ensures items + ([piece] + rest) == items + [piece] + rest
  {
  }

  /** The first loop of explode counts the delimiters. */
  method CountPieces(from: string, delim: char) returns (n: nat)
    ensures n == |Split(from, delim)|
  {
    n := 1;
    for i := 0 to |from|
      invariant n + |Split(from[i..], delim)| - 1 == |Split(from, delim)|
    {
      assert from[i..][1..] == from[i + 1..];
      if from[i] == delim { n := n + 1; }
    }
  }

  /** explode: count the pieces, then copy the text into them one by one. */
  method Explode(from: string, delim: char) returns (items: seq<string>)
    ensures items == Split(from, delim)
  {
    hide Split;
    var n := CountPieces(from, delim);
    items := [];
    var i := 0;
    assert from[0..] == from;
    for k := 0 to n
      invariant |items| == k
      invariant if k < n then i <= |from| && items + Split(from[i..], delim) == Split(from, delim)
                else items == Split(from, delim)
    {
      var buf := "";
      ghost var start := i;
      while i < |from| && from[i] != delim
        invariant start <= i <= |from| && buf == from[start..i] && delim !in buf
      {
        buf := buf + [from[i]];
        i := i + 1;
      }
      PieceStep(from, delim, start, i);
      AppendPiece(items, buf, if i < |from| then Split(from[i + 1..], delim) else []);
      i := i + 1;
      items := items + [buf];
    }
  }

  // ---- the pool statistics reply

  datatype Stat = Stat(name: string, size: nat)

  function PrintStat(st: Stat): string { st.name + ":" + Print(st.size) }

  /** The server's reply: every pool followed by a semicolon. */
  function PrintReply(stats: seq<Stat>): string {
    if stats == [] then "" else PrintStat(stats[0]) + ";" + PrintReply(stats[1..])
  }

  /** `None` where Python raises, or where >> fails. */
  datatype Parsed<+T> = None | Some(value: T)

  /** Blanks that int() strips. */
  predicate IsPySpace(c: char) { c == ' ' || '\t' <= c <= '\r' || 28 as char <= c <= 31 as char }

  function StripLeft(s: string): (t: string)
    ensures |t| <= |s|
  {
    if s != "" && IsPySpace(s[0]) then StripLeft(s[1..]) else s
  }

  function StripRight(s: string): (t: string)
    ensures |t| <= |s|
  {
    if s != "" && IsPySpace(s[|s| - 1]) then StripRight(s[..|s| - 1]) else s
  }

  /** Digits, in which single underscores may stand between two of them. */
  predicate IsPyDigits(s: string) {
    && s != ""
    && (forall c :: c in s ==> IsDigit(c) || c == '_')
    && forall i :: 0 <= i < |s| && s[i] == '_' ==> 0 < i < |s| - 1 && s[i + 1] != '_'
  }

  function DropUnderscores(s: string): (t: string)
    requires forall c :: c in s ==> IsDigit(c) || c == '_'
    ensures AllDigits(t)
  {
    if s == "" then "" else (if s[0] == '_' then "" else [s[0]]) + DropUnderscores(s[1..])
  }

  /** int(). */
  function PyInt(s: string): Parsed<int> {
    var t := StripRight(StripLeft(s));
    var body := if t != "" && (t[0] == '-' || t[0] == '+') then t[1..] else t;
    if !IsPyDigits(body) then None
    else
      var n: int := Parse(DropUnderscores(body));
      Some(if t[0] == '-' then -n else n)
  }

  /** get_pool_stats on one `name:size`. */
  function ParsePair(pair: string): Parsed<(string, int)> {
    var kv := Split(pair, ':');
    if |kv| != 2 then None else match PyInt(kv[1]) case None => None case Some(n) => Some((kv[0], n))
  }

  function ParsePairs(pairs: seq<string>, m: map<string, int>): Parsed<map<string, int>>
    decreases |pairs|
  {
    if pairs == [] then Some(m)
    else
      match ParsePair(pairs[0])
      case None => None
      case Some((name, n)) => ParsePairs(pairs[1..], m[name := n])
  }

  function ParseReply(s: string): Parsed<map<string, int>> {
    var pieces := Split(s, ';');
    ParsePairs(pieces[..|pieces| - 1], map[])
  }

  /** The loop of get_pool_stats. */
  method GetPoolStats(response: string) returns (r: Parsed<map<string, int>>)
    ensures r == ParseReply(response)
  {
    var pieces := Split(response, ';');
    var pairs := pieces[..|pieces| - 1];
    var m: map<string, int> := map[];
    for i := 0 to |pairs|
      invariant ParsePairs(pairs[i..], m) == ParseReply(response)
    {
      assert pairs[i..][1..] == pairs[i + 1..];
      match ParsePair(pairs[i]) {
        case None => return None;
        case Some((name, n)) => m := m[name := n];
      }
    }
    return Some(m);
  }

  predicate PlainName(name: string) { ':' !in name && ';' !in name }

  function AddStats(m: map<string, int>, stats: seq<Stat>): map<string, int>
    decreases |stats|
  {
    if stats == [] then m else AddStats(m[stats[0].name := stats[0].size], stats[1..])
  }

  lemma {:induction false} NoUnderscores(s: string)
    requires AllDigits(s)
    ensures DropUnderscores(s) == s
  {
    if s != "" {
      NoUnderscores(s[1..]);
      assert [s[0]] + s[1..] == s;
    }
  }

  lemma PyIntPrint(n: nat)
    ensures PyInt(Print(n)) == Some(n)
  {
    var s := Print(n);
    assert IsDigit(s[0]) && IsDigit(s[|s| - 1]);
    assert StripRight(StripLeft(s)) == s;
    NoUnderscores(s);
    ParsePrint(n);
  }

  lemma StatRoundTrip(st: Stat)
    requires PlainName(st.name)
    ensures ParsePair(PrintStat(st)) == Some((st.name, st.size)) && ';' !in PrintStat(st)
  {
    var digits := Print(st.size);
    assert ':' !in digits && ';' !in digits;
    SplitPiece(st.name, digits, ':');
    SplitLastPiece(digits, ':');
    assert PrintStat(st) == st.name + [':'] + digits;
    assert Split(PrintStat(st), ':') == [st.name, digits];
    PyIntPrint(st.size);
  }

  lemma {:induction false} PairsRoundTrip(stats: seq<Stat>, m: map<string, int>)
    requires forall st :: st in stats ==> PlainName(st.name)
    ensures var pieces := Split(PrintReply(stats), ';');
      ParsePairs(pieces[..|pieces| - 1], m) == Some(AddStats(m, stats))
    decreases |stats|
  {
    if stats != [] {
      StatRoundTrip(stats[0]);
      FirstPair(stats);
      hide Split, PrintReply, PlainName, PrintStat, ParsePair;
      PairsRoundTrip(stats[1..], m[stats[0].name := stats[0].size]);
    }
  }

  lemma FirstPair(stats: seq<Stat>)
    requires stats != [] && ';' !in PrintStat(stats[0])
    ensures var pieces, tail := Split(PrintReply(stats), ';'), Split(PrintReply(stats[1..]), ';');
      |pieces| == |tail| + 1 && pieces[0] == PrintStat(stats[0]) && pieces[..|pieces| - 1][1..] == tail[..|tail| - 1]
  {
    var st, rest := stats[0], stats[1..];
    SplitPiece(PrintStat(st), PrintReply(rest), ';');
    assert PrintReply(stats) == PrintStat(st) + [';'] + PrintReply(rest);
  }

  lemma {:induction false} AddStatsIsMap(m: map<string, int>, stats: seq<Stat>, name: string)
    requires forall i, j :: 0 <= i < j < |stats| ==> stats[i].name != stats[j].name
    ensures name in AddStats(m, stats) <==> name in m || exists i :: 0 <= i < |stats| && stats[i].name == name
    ensures forall i :: 0 <= i < |stats| && stats[i].name == name ==> AddStats(m, stats)[name] == stats[i].size
    ensures name in m && (forall i :: 0 <= i < |stats| ==> stats[i].name != name) ==>
        AddStats(m, stats)[name] == m[name]
    decreases |stats|
  {
    if stats != [] {
      var rest := stats[1..];
      AddStatsIsMap(m[stats[0].name := stats[0].size], rest, name);
      assert forall i :: 0 < i < |stats| ==> stats[i] == rest[i - 1];
      if exists i :: 0 <= i < |stats| && stats[i].name == name {
        var i :| 0 <= i < |stats| && stats[i].name == name;
        if i > 0 { assert rest[i - 1].name == name; }
      }
    }
  }

  lemma PyIntBody(t: string, body: string, n: nat)
    requires body == Print(n) && StripRight(StripLeft(t)) == body
    ensures PyInt(t) == Some(n as int)
  {
    assert IsDigit(body[0]);
    NoUnderscores(body);
    ParsePrint(n);
    hide Print, Parse, DropUnderscores, StripLeft, StripRight;
  }

  /** Blanks around a number. */
  lemma PyIntBlanks(n: nat)
    ensures PyInt(" " + Print(n)) == Some(n as int) && PyInt(Print(n) + " ") == Some(n as int)
  {
    var s := Print(n);
    assert IsDigit(s[0]) && IsDigit(s[|s| - 1]);
    hide Print;
    assert (" " + s)[1..] == s && (s + " ")[..|s|] == s;
    assert StripLeft(" " + s) == StripLeft(s) == s && StripRight(s) == s;
    assert StripLeft(s + " ") == s + " " && StripRight(s + " ") == StripRight(s);
    PyIntBody(" " + s, s, n);
    PyIntBody(s + " ", s, n);
  }

  lemma Unstripped(t: string)
    requires t != "" && !IsPySpace(t[0]) && !IsPySpace(t[|t| - 1])
    ensures StripRight(StripLeft(t)) == t
  {
  }

  lemma DigitsArePy(n: nat)
    ensures IsPyDigits(Print(n)) && DropUnderscores(Print(n)) == Print(n)
  {
    NoUnderscores(Print(n));
    hide Print, DropUnderscores;
  }

  /** A number with a sign. */
  lemma PyIntSigned(sign: char, n: nat)
    requires sign == '-' || sign == '+'
    ensures PyInt([sign] + Print(n)) == Some(if sign == '-' then -(n as int) else n as int)
  {
    hide Print, Parse, DropUnderscores, StripLeft, StripRight, IsPyDigits;
    var s := Print(n);
    var t := [sign] + s;
    assert IsDigit(s[|s| - 1]) && t[1..] == s && t[|t| - 1] == s[|s| - 1];
    Unstripped(t);
    DigitsArePy(n);
    ParsePrint(n);
  }

  /** getCacheStats: the size of every pool in units of 16 MB. */
  function CacheStats(l: Ledger): (m: map<string, nat>)
    ensures m.Keys == l.Keys && forall p :: p in l ==> m[p] == l[p] / 16777216
  {
    map p | p in l :: l[p] / SIZE_CONV
  }

  /** From the cache's ledger to the scheduler's dictionary. */
  lemma StatsRoundTrip(l: Ledger, stats: seq<Stat>)
    requires forall i, j :: 0 <= i < j < |stats| ==> stats[i].name != stats[j].name
    requires var pools := CacheStats(l);
      forall i :: 0 <= i < |stats| ==> stats[i].name in pools && pools[stats[i].name] == stats[i].size
    requires forall name :: name in l ==> PlainName(name) && exists i :: 0 <= i < |stats| && stats[i].name == name
    ensures ParseReply(PrintReply(stats)) == Some(CacheStats(l))
  {
    hide PlainName, PrintReply, ParseReply, CacheStats;
    var pools := CacheStats(l);
    forall name | name in pools ensures PlainName(name) && exists i :: 0 <= i < |stats| && stats[i].name == name {
      assert name in l;
    }
    ReplyRoundTrip(pools, stats);
  }

  /** The two texts, for two pools. */
  lemma TextExamples()
    ensures PrintReply([Stat("a", 3), Stat("b", 0)]) == "a:3;b:0;"
    ensures PrintRequest(["a", "b"], [1, 2]) == "a b\n1 2"
  {
    assert Print(3) == "3" && Print(0) == "0" && Print(1) == "1" && Print(2) == "2";
    var stats := [Stat("a", 3), Stat("b", 0)];
    assert stats[1..] == [Stat("b", 0)] && stats[1..][1..] == [];
    assert PrintReply([Stat("b", 0)]) == "b:0;" by { assert [Stat("b", 0)][1..] == []; }
    var names, sizes := ["a", "b"], PrintSizes([1, 2]);
    assert names[1..] == ["b"] && sizes == ["1", "2"] && sizes[1..] == ["2"];
    assert Join(["b"], ' ') == "b" && Join(["2"], ' ') == "2";
  }

  /** The scheduler reads back the whole pool map, for pool names without the two separators. */
  lemma ReplyRoundTrip(pools: map<string, nat>, stats: seq<Stat>)
    requires forall i, j :: 0 <= i < j < |stats| ==> stats[i].name != stats[j].name
    requires forall i :: 0 <= i < |stats| ==> stats[i].name in pools && pools[stats[i].name] == stats[i].size
    requires forall name :: name in pools ==> PlainName(name)
    requires forall name :: name in pools ==> exists i :: 0 <= i < |stats| && stats[i].name == name
    ensures ParseReply(PrintReply(stats)) == Some(pools)
  {
    hide PlainName, Split, PrintReply, ParsePairs, AddStats;
    AllPlain(pools, stats);
    PairsRoundTrip(stats, map[]);
    AddStatsRebuilds(pools, stats);
  }

  lemma AllPlain(pools: map<string, nat>, stats: seq<Stat>)
    requires forall i :: 0 <= i < |stats| ==> stats[i].name in pools
    requires forall name :: name in pools ==> PlainName(name)
    ensures forall st :: st in stats ==> PlainName(st.name)
  {
    hide PlainName;
    forall st | st in stats ensures PlainName(st.name) {
      var i :| 0 <= i < |stats| && stats[i] == st;
      assert stats[i].name in pools;
    }
  }

  lemma AddStatsRebuilds(pools: map<string, nat>, stats: seq<Stat>)
    requires forall i, j :: 0 <= i < j < |stats| ==> stats[i].name != stats[j].name
    requires forall i :: 0 <= i < |stats| ==> stats[i].name in pools && pools[stats[i].name] == stats[i].size
    requires forall name :: name in pools ==> exists i :: 0 <= i < |stats| && stats[i].name == name
    ensures AddStats(map[], stats) == pools
  {
    var m := AddStats(map[], stats);
    forall name ensures name in m <==> name in pools { AddStatsIsMap(map[], stats, name); }
    forall name | name in pools ensures m[name] == pools[name] {
      AddStatsIsMap(map[], stats, name);
      var i :| 0 <= i < |stats| && stats[i].name == name;
    }
  }

  // ---- the resize request

  /** Characters that >> skips. */
  predicate IsSpace(c: char) { c == ' ' || '\t' <= c <= '\r' }

  predicate Word(s: string) { s != "" && forall i :: 0 <= i < |s| ==> !IsSpace(s[i]) }

  /** set_cache_size: the two rows, each separated by blanks. */
  function PrintRow(ws: seq<string>): string { if ws == [] then "" else Join(ws, ' ') }

  function PrintSizes(sizes: seq<nat>): (ws: seq<string>)
    ensures |ws| == |sizes|
    ensures forall i :: 0 <= i < |ws| ==> ws[i] == Print(sizes[i])
  {
    seq(|sizes|, i requires 0 <= i < |sizes| => Print(sizes[i]))
  }

  function PrintRequest(names: seq<string>, sizes: seq<nat>): string {
    PrintRow(names) + "\n" + PrintRow(PrintSizes(sizes))
  }

  /** getline: the text before the first newline, and what follows it. */
  function GetLine(s: string): (r: (string, string)) {
    if s == "" then ("", "")
    else if s[0] == '\n' then ("", s[1..])
    else var (line, rest) := GetLine(s[1..]); ([s[0]] + line, rest)
  }

  /** Skipping blanks and reading up to the next one. */
  function TakeWord(s: string): (r: (string, string))
    ensures r.0 != "" ==> |r.1| < |s|
  {
    if s == "" then ("", "")
    else if IsSpace(s[0]) then TakeWord(s[1..])
    else TakeRest(s)
  }

  function TakeRest(s: string): (r: (string, string))
    ensures |r.0| + |r.1| == |s|
    ensures s != "" && !IsSpace(s[0]) ==> r.0 != ""
  {
    if s == "" || IsSpace(s[0]) then ("", s)
    else var (w, rest) := TakeRest(s[1..]); ([s[0]] + w, rest)
  }

  function SkipSpace(s: string): string { if s != "" && IsSpace(s[0]) then SkipSpace(s[1..]) else s }

  function TakeDigits(s: string): (r: (string, string))
    ensures AllDigits(r.0)
  {
    if s == "" || !IsDigit(s[0]) then ("", s)
    else var (digits, rest) := TakeDigits(s[1..]); ([s[0]] + digits, rest)
  }

  /** >> into a size_t: blanks, perhaps a sign, and digits up to the first other character. It fails without a
      digit or above 64 bits; a minus sign negates modulo 2^64. */
  function TakeSize(s: string): Parsed<(nat, string)> {
    var t := SkipSpace(s);
    var (digits, rest) := TakeDigits(if t != "" && (t[0] == '-' || t[0] == '+') then t[1..] else t);
    var n := Parse(digits);
    if digits == "" || n > SIZE_MAX then None
    else Some((if t[0] == '-' && n > 0 then SIZE_MAX + 1 - n else n, rest))
  }

  /** The six blanks that end a word and are skipped before one. */
  lemma SixBlanks(c: char, s: string)
    ensures TakeWord([c]).0 == "" <==>
      c == ' ' || c == '\t' || c == '\n' || c as int == 11 || c as int == 12 || c == '\r'
    ensures TakeWord([c]).0 == "" ==> TakeWord([c] + s) == TakeWord(s)
  {
    assert [c][1..] == "" && ([c] + s)[1..] == s;
    assert TakeRest("") == ("", "");
  }

  /** The reading loop of executeNewConfig. */
  function ParseRows(names: string, sizes: string): seq<Request>
    decreases |names|
  {
    var (name, names') := TakeWord(names);
    if name == "" then []
    else match TakeSize(sizes)
      case None => []
      case Some((size, sizes')) => [Request(name, size)] + ParseRows(names', sizes')
  }

  function ParseRequest(s: string): seq<Request> {
    var (line, rest) := GetLine(s);
    var (size, _) := GetLine(rest);
    ParseRows(line, size)
  }

  /** The loop itself. */
  method ReadRows(names: string, sizes: string) returns (reqs: seq<Request>)
    ensures reqs == ParseRows(names, sizes)
  {
    reqs := [];
    var ns, ss := names, sizes;
    while true
      invariant reqs + ParseRows(ns, ss) == ParseRows(names, sizes)
      decreases |ns|
    {
      var (name, ns') := TakeWord(ns);
      if name == "" { return; }
      match TakeSize(ss) {
        case None => return;
        case Some((size, ss')) =>
          reqs := reqs + [Request(name, size)];
          ns, ss := ns', ss';
      }
    }
  }

  lemma {:induction false} TakeRestWord(w: string, rest: string)
    requires (forall i :: 0 <= i < |w| ==> !IsSpace(w[i])) && (rest == "" || IsSpace(rest[0]))
    ensures TakeRest(w + rest) == (w, rest)
  {
    if w == "" {
      assert w + rest == rest;
    } else {
      TakeRestWord(w[1..], rest);
      assert (w + rest)[1..] == w[1..] + rest;
      assert [w[0]] + w[1..] == w;
    }
  }

  /** The text of a row after its first word. */
  function Tail(ws: seq<string>): string { if |ws| <= 1 then "" else " " + PrintRow(ws[1..]) }

  lemma TakeWordOfRow(ws: seq<string>, blank: bool)
    requires ws != [] && Word(ws[0])
    ensures TakeWord((if blank then " " else "") + PrintRow(ws)) == (ws[0], Tail(ws))
  {
    var row := PrintRow(ws);
    assert row == ws[0] + Tail(ws);
    TakeRestWord(ws[0], Tail(ws));
    assert TakeWord(row) == (ws[0], Tail(ws));
    assert (" " + row)[1..] == row;
    assert "" + row == row;
  }

  lemma {:induction false} TakeDigitsOf(digits: string, rest: string)
    requires AllDigits(digits) && (rest == "" || !IsDigit(rest[0]))
    ensures TakeDigits(digits + rest) == (digits, rest)
  {
    if digits == "" {
      assert digits + rest == rest;
    } else {
      TakeDigitsOf(digits[1..], rest);
      assert (digits + rest)[1..] == digits[1..] + rest;
      assert [digits[0]] + digits[1..] == digits;
    }
  }

  lemma TakeSizeOf(n: nat, rest: string)
    requires n <= SIZE_MAX && (rest == "" || !IsDigit(rest[0]))
    ensures TakeSize(Print(n) + rest) == Some((n, rest)) && TakeSize(" " + (Print(n) + rest)) == Some((n, rest))
  {
    var s := Print(n) + rest;
    assert IsDigit(s[0]) && s[0] == Print(n)[0];
    assert (" " + s)[1..] == s;
    TakeDigitsOf(Print(n), rest);
    ParsePrint(n);
    hide Print, Parse, TakeDigits;
    assert SkipSpace(s) == s && SkipSpace(" " + s) == SkipSpace(s);
  }

  /** A sign is read, a minus sign as 2^64 minus the number; more than 64 bits fail. */
  lemma TakeSizeSigned(n: nat, rest: string)
    requires rest == "" || !IsDigit(rest[0])
    ensures TakeSize("+" + (Print(n) + rest)) == if n < 18446744073709551616 then Some((n, rest)) else None
    ensures TakeSize("-" + (Print(n) + rest)) ==
      if n < 18446744073709551616 then Some((if n == 0 then 0 else 18446744073709551616 - n, rest)) else None
  {
    var s := Print(n) + rest;
    assert ("+" + s)[1..] == s && ("-" + s)[1..] == s;
    TakeDigitsOf(Print(n), rest);
    ParsePrint(n);
    hide Print, Parse, TakeDigits;
    assert SkipSpace("+" + s) == "+" + s && SkipSpace("-" + s) == "-" + s;
  }

  lemma TakeSizeOfRow(sizes: seq<nat>, blank: bool)
    requires sizes != [] && sizes[0] <= SIZE_MAX
    ensures TakeSize((if blank then " " else "") + PrintRow(PrintSizes(sizes))) ==
        Some((sizes[0], Tail(PrintSizes(sizes))))
  {
    var ws := PrintSizes(sizes);
    var row := PrintRow(ws);
    assert row == Print(sizes[0]) + Tail(ws);
    assert "" + row == row;
    TakeSizeOf(sizes[0], Tail(ws));
  }

  lemma {:induction false} RowsRoundTrip(names: seq<string>, sizes: seq<nat>, blank: bool)
    requires forall i :: 0 <= i < |names| ==> Word(names[i])
    requires forall i :: 0 <= i < |sizes| ==> sizes[i] <= SIZE_MAX
    ensures var b := if blank then " " else "";
      var n := if |names| <= |sizes| then |names| else |sizes|;
      var reqs := ParseRows(b + PrintRow(names), b + PrintRow(PrintSizes(sizes)));
      |reqs| == n && forall i :: 0 <= i < n ==> reqs[i] == Request(names[i], sizes[i])
    decreases |names|
  {
    hide ParseRows, PrintRow, PrintSizes, Word, Print;
    if names == [] || sizes == [] {
      NoRows(names, sizes, blank);
    } else {
      FirstRow(names, sizes, blank);
      RowsRoundTrip(names[1..], sizes[1..], true);
    }
  }

  lemma NoRows(names: seq<string>, sizes: seq<nat>, blank: bool)
    requires names == [] || sizes == []
    ensures var b := if blank then " " else ""; ParseRows(b + PrintRow(names), b + PrintRow(PrintSizes(sizes))) == []
  {
    var b := if blank then " " else "";
    assert b + "" == b;
    assert TakeWord(b).0 == "" && TakeSize(b) == None;
    hide TakeWord, TakeSize, Word;
  }

  lemma FirstRow(names: seq<string>, sizes: seq<nat>, blank: bool)
    requires names != [] && sizes != [] && Word(names[0]) && sizes[0] <= SIZE_MAX
    ensures var b := if blank then " " else "";
      ParseRows(b + PrintRow(names), b + PrintRow(PrintSizes(sizes))) ==
        [Request(names[0], sizes[0])] +
        ParseRows(" " + PrintRow(names[1..]), " " + PrintRow(PrintSizes(sizes[1..])))
  {
    TakeWordOfRow(names, blank);
    TakeSizeOfRow(sizes, blank);
    TailsParse(names, sizes);
    hide TakeWord, TakeSize, PrintRow, Tail, PrintSizes, Word;
  }

  lemma DigitsAreWord(n: nat)
    ensures Word(Print(n))
  {
    var s := Print(n);
    assert forall i :: 0 <= i < |s| ==> IsDigit(s[i]);
  }

  /** A row with nothing left reads like a blank row. */
  lemma TailsParse(names: seq<string>, sizes: seq<nat>)
    requires names != [] && sizes != []
    ensures ParseRows(Tail(names), Tail(PrintSizes(sizes))) ==
            ParseRows(" " + PrintRow(names[1..]), " " + PrintRow(PrintSizes(sizes[1..])))
  {
    assert PrintSizes(sizes[1..]) == PrintSizes(sizes)[1..];
    assert " " + "" == " ";
    assert TakeWord("") == ("", "") && TakeWord(" ") == ("", "") by { assert " "[1..] == ""; }
  }

  lemma {:induction false} GetLineOf(a: string, b: string)
    requires '\n' !in a
    ensures GetLine(a + "\n" + b) == (a, b)
  {
    var s := a + "\n" + b;
    if a == "" {
      assert s[1..] == b;
    } else {
      GetLineOf(a[1..], b);
      assert s[1..] == a[1..] + "\n" + b;
      assert [a[0]] + a[1..] == a;
    }
  }

  lemma {:induction false} GetLastLine(a: string)
    requires '\n' !in a
    ensures GetLine(a) == (a, "")
  {
    if a != "" {
      GetLastLine(a[1..]);
      assert [a[0]] + a[1..] == a;
    }
  }

  lemma {:induction false} RowHasNoNewline(ws: seq<string>)
    requires forall i :: 0 <= i < |ws| ==> Word(ws[i])
    ensures '\n' !in PrintRow(ws)
  {
    if |ws| >= 1 {
      assert forall i :: 0 <= i < |ws[0]| ==> !IsSpace(ws[0][i]);
      if |ws| > 1 { RowHasNoNewline(ws[1..]); }
    }
  }

  /** The server reads back the pairs the scheduler printed, up to the shorter list, for names that are words. */
  lemma RequestRoundTrip(names: seq<string>, sizes: seq<nat>)
    requires forall i :: 0 <= i < |names| ==> Word(names[i])
    requires forall i :: 0 <= i < |sizes| ==> sizes[i] <= SIZE_MAX
    ensures var n := if |names| <= |sizes| then |names| else |sizes|;
      var reqs := ParseRequest(PrintRequest(names, sizes));
      |reqs| == n && forall i :: 0 <= i < n ==> reqs[i] == Request(names[i], sizes[i])
  {
    var row, ws := PrintRow(names), PrintSizes(sizes);
    forall i | 0 <= i < |ws| ensures Word(ws[i]) { DigitsAreWord(sizes[i]); }
    RowHasNoNewline(names);
    RowHasNoNewline(ws);
    GetLineOf(row, PrintRow(ws));
    GetLastLine(PrintRow(ws));
    RowsRoundTrip(names, sizes, false);
    assert "" + row == row && "" + PrintRow(ws) == PrintRow(ws);
  }
}
