/** Decimal text, as std::to_string and str() print it and >> and int() read it. */
module Decimal {
  predicate IsDigit(c: char) { '0' <= c <= '9' }

  function Digit(d: nat): (c: char)
    requires d < 10
    ensures IsDigit(c)
  {
    '0' + d as char
  }

  function ValueOf(c: char): (d: nat)
    requires IsDigit(c)
    ensures d < 10 && Digit(d) == c
  {
    (c - '0') as nat
  }

  predicate AllDigits(s: string) { forall i :: 0 <= i < |s| ==> IsDigit(s[i]) }

  /** The decimal digits of n, without leading zeros. */
  function Print(n: nat): (s: string)
    ensures s != [] && AllDigits(s)
  {
    if n < 10 then [Digit(n)] else Print(n / 10) + [Digit(n % 10)]
  }

  function Parse(s: string): nat
    requires AllDigits(s)
  {
    if s == [] then 0 else 10 * Parse(s[..|s| - 1]) + ValueOf(s[|s| - 1])
  }

  lemma {:induction false} ParsePrint(n: nat)
    ensures Parse(Print(n)) == n
  {
    var s := Print(n);
    if n < 10 {
      assert s[..0] == [];
    } else {
      assert s[..|s| - 1] == Print(n / 10);
      ParsePrint(n / 10);
    }
  }

  lemma PrintInjective(a: nat, b: nat)
    requires Print(a) == Print(b)
    ensures a == b
  {
    ParsePrint(a);
    ParsePrint(b);
  }

  /** Signed numbers carry a minus sign. */
  function PrintInt(n: int): (s: string)
    ensures s != []
    ensures forall i :: 0 <= i < |s| ==> s[i] == '-' || IsDigit(s[i])
  {
    if n < 0 then "-" + Print(-n) else Print(n)
  }

  function Ten(n: nat): nat { if n == 0 then 1 else 10 * Ten(n - 1) }

  /** The digits from i on, each times its power of ten. */
  function ValueFrom(s: string, i: nat): nat
    requires AllDigits(s) && i <= |s|
    decreases |s| - i
  {
    if i == |s| then 0 else (s[i] - '0') as nat * Ten(|s| - 1 - i) + ValueFrom(s, i + 1)
  }

  lemma {:induction false} ValueAppend(s: string, i: nat)
    requires AllDigits(s) && i < |s|
    ensures ValueFrom(s, i) == 10 * ValueFrom(s[..|s| - 1], i) + (s[|s| - 1] - '0') as nat
    decreases |s| - i
  {
    var n := |s| - 1;
    if i < n {
      ValueAppend(s, i + 1);
      var x := (s[i] - '0') as nat;
      assert Ten(n - i) == 10 * Ten(n - 1 - i);
      assert x * Ten(n - i) == 10 * (x * Ten(n - 1 - i));
      assert s[..n][i] == s[i];
    } else {
      assert ValueFrom(s, i + 1) == 0 && ValueFrom(s[..n], i) == 0 && Ten(0) == 1;
    }
  }

  /** Parsing is positional, in base ten, so printing is too; and a number is printed without a leading zero. */
  lemma {:induction false} ParseIsPositional(s: string)
    requires AllDigits(s)
    ensures Parse(s) == ValueFrom(s, 0)
  {
    if s != "" {
      ParseIsPositional(s[..|s| - 1]);
      ValueAppend(s, 0);
    }
  }

  lemma {:induction false} PrintIsDecimal(n: nat)
    ensures ValueFrom(Print(n), 0) == n && (n > 0 ==> Print(n)[0] != '0')
  {
    ParsePrint(n);
    ParseIsPositional(Print(n));
    if n >= 10 { PrintIsDecimal(n / 10); }
  }

  lemma PrintIntInjective(a: int, b: int)
    requires PrintInt(a) == PrintInt(b)
    ensures a == b
  {
    assert PrintInt(a)[0] == '-' <==> a < 0;
    assert PrintInt(b)[0] == '-' <==> b < 0;
    if a < 0 {
      assert PrintInt(a)[1..] == Print(-a) && PrintInt(b)[1..] == Print(-b);
      PrintInjective(-a, -b);
    } else {
      PrintInjective(a, b);
    }
  }

  /** A separator that neither part before it contains splits text in only one way. */
  lemma SplitFirst(a: string, b: string, c: string, d: string, sep: char)
    requires a + [sep] + b == c + [sep] + d && sep !in a && sep !in c
    ensures a == c && b == d
  {
    var s := a + [sep] + b;
    assert s[|a|] == sep && s[|c|] == sep;
    assert forall i :: 0 <= i < |a| ==> s[i] == a[i] != sep;
    assert forall i :: 0 <= i < |c| ==> s[i] == c[i] != sep;
    assert a == s[..|a|] && c == s[..|c|];
    assert b == s[|a| + 1..] && d == s[|c| + 1..];
  }

  /** Likewise for a separator that neither part after it contains. */
  lemma SplitLast(a: string, b: string, c: string, d: string, sep: char)
    requires a + [sep] + b == c + [sep] + d && sep !in b && sep !in d
    ensures a == c && b == d
  {
    var s := a + [sep] + b;
    assert s[|a|] == sep && s[|c|] == sep;
    assert forall i :: |a| < i < |s| ==> s[i] == b[i - |a| - 1] != sep;
    assert forall i :: |c| < i < |s| ==> s[i] == d[i - |c| - 1] != sep;
    assert a == s[..|a|] && c == s[..|c|];
    assert b == s[|a| + 1..] && d == s[|c| + 1..];
  }
}
