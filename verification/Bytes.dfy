/** Bytes of a file: little-endian integers, C strings, and writes at an offset. */
module Bytes {
  type byte = x: int | 0 <= x < 256

  /** A NUL-free string, as every `const char *` argument is. */
  type Text = s: seq<byte> | forall i :: 0 <= i < |s| ==> s[i] != 0

  const OFF_MAX: nat := 0x7FFF_FFFF_FFFF_FFFF  // largest off_t

  function Zeros(n: nat): (s: seq<byte>)
    ensures |s| == n
    ensures forall i :: 0 <= i < n ==> s[i] == 0
  {
    seq(n, _ => 0)
  }

  const WORD: nat := 0x1_0000_0000  // 2^32

  /** A four-byte integer as fwrite emits it: the low 32 bits of n, least significant byte first. */
  function Le4(n: nat): (s: seq<byte>)
    ensures |s| == 4
  {
    var a := n / 256; var b := a / 256; var c := b / 256;
    [n % 256, a % 256, b % 256, c % 256]
  }

  function FromLe4(s: seq<byte>): (n: nat)
    requires |s| == 4
    ensures n < WORD
  {
    s[0] as int + 256 * (s[1] as int + 256 * (s[2] as int + 256 * (s[3] as int)))
  }

  /** An eight-byte integer: its low half, then its high half. */
  function Le8(n: nat): (s: seq<byte>)
    ensures |s| == 8
  {
    Le4(n % WORD) + Le4(n / WORD)
  }

  function FromLe8(s: seq<byte>): (n: nat)
    requires |s| == 8
  {
    FromLe4(s[..4]) + WORD * FromLe4(s[4..])
  }

  lemma FromLe4Le4(n: nat)
    ensures FromLe4(Le4(n)) == n % WORD
  {
    var a := n / 256; var b := a / 256; var c := b / 256; var d := c / 256;
    assert n == WORD * d + FromLe4(Le4(n));
  }

  lemma FromLe8Le8(n: nat)
    requires n <= OFF_MAX
    ensures FromLe8(Le8(n)) == n
  {
    hide Le4, FromLe4;
    FromLe4Le4(n % WORD);
    FromLe4Le4(n / WORD);
    assert Le8(n)[..4] == Le4(n % WORD) && Le8(n)[4..] == Le4(n / WORD);
  }

  /** The C string that starts at s[0]: everything before the first NUL. */
  function CStr(s: seq<byte>): (t: Text)
    ensures |t| <= |s|
  {
    if s == [] || s[0] == 0 then [] else [s[0]] + CStr(s[1..])
  }

  lemma {:induction false} CStrOfText(t: Text, rest: seq<byte>)
    requires rest == [] || rest[0] == 0
    ensures CStr(t + rest) == t
  {
    if t == [] {
      assert t + rest == rest;
    } else {
      CStrOfText(t[1..], rest);
      assert (t + rest)[1..] == t[1..] + rest;
    }
  }

  /** A C string runs on past a NUL-free prefix. */
  lemma {:induction false} CStrConcat(t: Text, rest: seq<byte>)
    ensures CStr(t + rest) == t + CStr(rest)
  {
    if t == [] {
      assert t + rest == rest;
    } else {
      CStrConcat(t[1..], rest);
      assert (t + rest)[1..] == t[1..] + rest;
    }
  }

  /** A C string that ends inside a prefix is the prefix's C string. */
  lemma {:induction false} CStrPrefix(s: seq<byte>, n: nat)
    requires n <= |s|
    ensures |CStr(s)| < n || |CStr(s[..n])| < n ==> CStr(s) == CStr(s[..n])
  {
    if s != [] && s[0] != 0 && n > 0 {
      CStrPrefix(s[1..], n - 1);
      assert s[..n][1..] == s[1..][..n - 1];
    }
  }

  /** A NUL ends the string there. */
  lemma CStrStops(s: seq<byte>, n: nat)
    requires n < |s| && s[n] == 0
    ensures CStr(s) == CStr(s[..n])
    decreases n
  {
    if n > 0 && s[0] != 0 {
      CStrStops(s[1..], n - 1);
      assert s[..n][1..] == s[1..][..n - 1];
    }
  }

  /** isspace in the C locale. */
  predicate IsSpace(c: byte) { c == 32 || 9 <= c <= 13 }

  /** tm_util's rtrim: the string without its trailing white space. */
  function RTrim(s: Text): (t: Text)
    ensures |t| <= |s|
    ensures t == s[..|t|]
    ensures t == [] || !IsSpace(t[|t| - 1])
    ensures forall i :: |t| <= i < |s| ==> IsSpace(s[i])
  {
    if s == [] || !IsSpace(s[|s| - 1]) then s else RTrim(s[..|s| - 1])
  }

  predicate AllSpace(s: seq<byte>) { forall i :: 0 <= i < |s| ==> IsSpace(s[i]) }

  /** Appending white space is invisible to rtrim; appending anything else is not. */
  lemma {:induction false} RTrimAppend(s: Text, c: Text)
    ensures AllSpace(c) ==> RTrim(s + c) == RTrim(s)
    ensures !AllSpace(c) ==> |RTrim(s + c)| > |s|
    decreases |c|
  {
    if c == [] {
      assert s + c == s;
    } else {
      var d := c[..|c| - 1];
      assert (s + c)[..|s + c| - 1] == s + d;
      assert c == d + [c[|c| - 1]];
      RTrimAppend(s, d);
    }
  }

  lemma RTrimIdempotent(s: Text)
    ensures RTrim(RTrim(s)) == RTrim(s)
  {
  }

  /** fseek(at); fwrite(data): overwrite in place, extend past the end, fill a hole with zeros. */
  function Write(file: seq<byte>, at: nat, data: seq<byte>): (r: seq<byte>)
    ensures |r| == if at + |data| <= |file| || data == [] then |file| else at + |data|
  {
    if data == [] then file
    else if at + |data| <= |file| then file[..at] + data + file[at + |data|..]
    else if at <= |file| then file[..at] + data
    else file + Zeros(at - |file|) + data
  }

  lemma WriteHere(file: seq<byte>, at: nat, data: seq<byte>)
    requires data != []
    ensures at + |data| <= |Write(file, at, data)|
    ensures Write(file, at, data)[at..at + |data|] == data
  {
  }

  /** Bytes outside the written range keep their values. */
  lemma WriteElsewhere(file: seq<byte>, at: nat, data: seq<byte>, lo: nat, hi: nat)
    requires lo <= hi <= |file|
    requires hi <= at || at + |data| <= lo
    ensures hi <= |Write(file, at, data)|
    ensures Write(file, at, data)[lo..hi] == file[lo..hi]
  {
  }
}
