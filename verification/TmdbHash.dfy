/** The bucket of a key in closed form. */
module TmdbHash {
  import opened Bytes
  import opened TmdbIndex

  function Power(n: nat): nat { if n == 0 then 1 else 131 * Power(n - 1) }

  /** The terms of the BKDR sum from i on: a signed character times a power of 131, on unbounded integers. */
  function PolyFrom(k: Text, i: nat): int
    requires i <= |k|
    decreases |k| - i
  {
    if i == |k| then 0 else (k[i] as int - 256 * (k[i] as int / 128)) * Power(|k| - 1 - i) + PolyFrom(k, i + 1)
  }

  function Poly(k: Text): int { PolyFrom(k, 0) }

  lemma TimesPower(x: int, n: nat)
    ensures x * Power(n + 1) == 131 * (x * Power(n))
  {
    assert Power(n + 1) == 131 * Power(n);
  }

  /** One more character multiplies the sum by 131 and adds the character. */
  lemma {:induction false} PolyAppend(k: Text, i: nat)
    requires 0 < |k| && i < |k|
    ensures var n := |k| - 1;
      PolyFrom(k, i) == 131 * PolyFrom(k[..n], i) + (k[n] as int - 256 * (k[n] as int / 128))
    decreases |k| - i
  {
    var n := |k| - 1;
    var x := k[i] as int - 256 * (k[i] as int / 128);
    if i < n {
      PolyAppend(k, i + 1);
      TimesPower(x, n - 1 - i);
      assert k[..n][i] == k[i];
    } else {
      assert Power(0) == 1 && PolyFrom(k, i + 1) == 0 && PolyFrom(k[..n], i) == 0;
    }
  }

  const LONG: nat := 0x1_0000_0000_0000_0000  // 2^64

  /** Reducing modulo 2^64 before the next step does not show after it. */
  lemma StepModulo(b: int, s: int)
    ensures (131 * (b % LONG) + s) % LONG == (131 * b + s) % LONG
  {
    assert b == LONG * (b / LONG) + b % LONG;
  }

  lemma BkdrAppend(k: Text)
    requires k != []
    ensures var n := |k| - 1;
      Bkdr(k) == (131 * Bkdr(k[..n]) + (k[n] as int - 256 * (k[n] as int / 128))) % LONG
  {
    var n := |k| - 1;
    SignedChar(k[n]);
    assert Bkdr(k) == (Bkdr(k[..n]) * 131 + Signed(k[n])) % LONG;
  }

  lemma SignedChar(c: byte)
    ensures Signed(c) == c as int - 256 * (c as int / 128)
  {
  }

  lemma {:induction false} BkdrIsPoly(k: Text)
    ensures Bkdr(k) == Poly(k) % LONG
    decreases |k|
  {
    if k != [] {
      var n := |k| - 1;
      PolyAppend(k, 0);
      BkdrAppend(k);
      hide Bkdr, PolyFrom;
      BkdrIsPoly(k[..n]);
      StepModulo(Poly(k[..n]), k[n] as int - 256 * (k[n] as int / 128));
    }
  }

  /** 2^31 divides 2^64. */
  lemma LowBits(x: int)
    ensures x % LONG % 0x8000_0000 == x % 0x8000_0000
  {
    var q, r := x / LONG, x % LONG;
    var t, u := r / 0x8000_0000, r % 0x8000_0000;
    Digits(0x2_0000_0000 * q + t, u);
    assert x == 0x8000_0000 * (0x2_0000_0000 * q + t) + u;
  }

  lemma Digits(high: int, low: nat)
    requires low < 0x8000_0000
    ensures (0x8000_0000 * high + low) % 0x8000_0000 == low
  {
  }

  /** The bucket is the sum over all characters, signed, times powers of 131, reduced to 31 bits and then to the
      number of buckets. The wrap-around at 64 bits does not show. */
  lemma HashIsPoly(k: Text)
    ensures Hash(k) == Poly(k) % 0x8000_0000 % 655360
  {
    BkdrIsPoly(k);
    hide Bkdr, Poly;
    LowBits(Poly(k));
  }
}
