/** The Zipf sampler over ideal reals, with pow given by its laws. */
module Zipf {
  import opened Rounding

  type Pow = (real, real) -> real

  ghost predicate Positive(pow: Pow) { forall x: real, y: real :: x > 0.0 && y > 0.0 ==> pow(x, y) > 0.0 }

  ghost predicate FixesOne(pow: Pow) { forall y: real :: y > 0.0 ==> pow(1.0, y) == 1.0 }

  ghost predicate Increasing(pow: Pow) {
    forall x: real, z: real, y: real :: 0.0 < x < z && y > 0.0 ==> pow(x, y) < pow(z, y)
  }

  ghost predicate UndoneByInverse(pow: Pow) {
    forall x: real, y: real :: x > 0.0 && y > 0.0 ==> pow(pow(x, y), 1.0 / y) == x
  }

  /** The laws of x to the power y for positive x and y that the sampler rests on. */
  ghost predicate PowLaws(pow: Pow) {
    Positive(pow) && FixesOne(pow) && Increasing(pow) && UndoneByInverse(pow)
  }

  lemma PowPositive(pow: Pow, x: real, y: real)
    requires PowLaws(pow) && x > 0.0 && y > 0.0
    ensures pow(x, y) > 0.0
  {
    hide UndoneByInverse, Increasing;
  }

  lemma PowOne(pow: Pow, y: real)
    requires PowLaws(pow) && y > 0.0
    ensures pow(1.0, y) == 1.0
  {
    hide UndoneByInverse, Increasing;
  }

  lemma PowIncreasing(pow: Pow, x: real, z: real, y: real)
    requires PowLaws(pow) && 0.0 < x <= z && y > 0.0
    ensures pow(x, y) <= pow(z, y) && (x < z ==> pow(x, y) < pow(z, y))
  {
    hide UndoneByInverse;
  }

  lemma PowInverse(pow: Pow, x: real, y: real)
    requires PowLaws(pow) && x > 0.0 && y > 0.0
    ensures pow(pow(x, y), 1.0 / y) == x
  {
    hide Increasing, Positive, FixesOne;
  }

  function ZetaSum(pow: Pow, n: nat, theta: real): real {
    if n == 0 then 0.0 else ZetaSum(pow, n - 1, theta) + pow(1.0 / n as real, theta)
  }

  /** zeta. */
  method Zeta(pow: Pow, n: nat, theta: real) returns (ans: real)
    ensures ans == ZetaSum(pow, n, theta)
  {
    ans := 0.0;
    for i := 1 to n + 1
      invariant ans == ZetaSum(pow, i - 1, theta)
    {
      ans := ans + pow(1.0 / i as real, theta);
    }
  }

  /** The weights of the ranks, and their sum from the front. */
  function Weights(pow: Pow, n: nat, theta: real): (ws: seq<real>)
    ensures |ws| == n && forall i :: 0 <= i < n ==> ws[i] == pow(1.0 / (i + 1) as real, theta)
  {
    seq(n, i requires 0 <= i < n => pow(1.0 / (i + 1) as real, theta))
  }

  function Sum(ws: seq<real>): real { if ws == [] then 0.0 else ws[0] + Sum(ws[1..]) }

  lemma {:induction false} SumSnoc(ws: seq<real>, w: real)
    ensures Sum(ws + [w]) == Sum(ws) + w
  {
    if ws == [] {
      assert [w][1..] == [] && ws + [w] == [w];
    } else {
      SumSnoc(ws[1..], w);
      assert (ws + [w])[1..] == ws[1..] + [w];
    }
  }

  /** The n-th sum takes the weights 1 / 1, 1 / 2, ..., 1 / n to the power theta. */
  lemma {:induction false} ZetaIsSum(pow: Pow, n: nat, theta: real)
    ensures ZetaSum(pow, n, theta) == Sum(Weights(pow, n, theta))
  {
    if n > 0 {
      ZetaIsSum(pow, n - 1, theta);
      SumSnoc(Weights(pow, n - 1, theta), pow(1.0 / n as real, theta));
      assert Weights(pow, n, theta) == Weights(pow, n - 1, theta) + [pow(1.0 / n as real, theta)];
    }
  }

  lemma ZetaSmall(pow: Pow, theta: real)
    requires PowLaws(pow) && theta > 0.0
    ensures ZetaSum(pow, 1, theta) == 1.0
    ensures ZetaSum(pow, 2, theta) == 1.0 + pow(0.5, theta)
  {
    hide PowLaws;
    PowOne(pow, theta);
    assert 1.0 / 1 as real == 1.0 && 1.0 / 2 as real == 0.5;
    assert ZetaSum(pow, 0, theta) == 0.0;
    assert ZetaSum(pow, 1, theta) == ZetaSum(pow, 0, theta) + pow(1.0, theta);
  }

  lemma {:induction false} ZetaGrows(pow: Pow, m: nat, n: nat, theta: real)
    requires PowLaws(pow) && theta > 0.0 && m < n
    ensures ZetaSum(pow, m, theta) < ZetaSum(pow, n, theta)
    decreases n
  {
    hide PowLaws;
    assert 1.0 / n as real > 0.0;
    PowPositive(pow, 1.0 / n as real, theta);
    if m < n - 1 { ZetaGrows(pow, m, n - 1, theta); }
  }

  /** eta * u - eta + 1. */
  function Base(eta: real, u: real): real { eta * u - eta + 1.0 }

  function Eta(p: real, ratio: real): real
    requires ratio != 1.0
  {
    (1.0 - p) / (1.0 - ratio)
  }

  /** What the third branch adds to a, before truncation. */
  function Spread(pow: Pow, n: nat, theta: real, zeta: real, zeta2: real, u: real): real
    requires n > 0 && 0.0 < theta < 1.0 && zeta > 0.0 && zeta2 / zeta != 1.0
  {
    var alpha := 1.0 / (1.0 - theta);
    var eta := Eta(pow(2.0 / n as real, 1.0 - theta), zeta2 / zeta);
    n as real * pow(Base(eta, u), alpha)
  }

  datatype Branch = First | Second | Third

  /** The draw, scaled to the sum of all weights. */
  function Scaling(u: real, zeta: real): real { u * zeta }

  function BranchOf(pow: Pow, theta: real, zeta: real, u: real): Branch {
    if Scaling(u, zeta) < 1.0 then First
    else if Scaling(u, zeta) < 1.0 + pow(0.5, theta) then Second
    else Third
  }

  lemma Shrinks(z: real, u: real, bound: real)
    requires 0.0 < z <= bound && u < 1.0
    ensures Scaling(u, z) < bound
  {
    assert (1.0 - u) * z > 0.0;
  }

  lemma BaseSums(pow: Pow, theta: real)
    requires PowLaws(pow) && theta > 0.0
    ensures ZetaSum(pow, 1, theta) == 1.0 && ZetaSum(pow, 2, theta) == 1.0 + pow(0.5, theta) > 1.0
  {
    hide PowLaws, ZetaSum, Scaling;
    ZetaSmall(pow, theta);
    PowPositive(pow, 0.5, theta);
  }

  lemma SmallSums(pow: Pow, n: nat, theta: real)
    requires 1 <= n <= 2 && theta > 0.0 && PowLaws(pow)
    ensures 0.0 < ZetaSum(pow, n, theta) <= ZetaSum(pow, 2, theta)
  {
    hide ZetaSum, PowLaws, Scaling;
    BaseSums(pow, theta);
    assert n == 1 || n == 2;
  }

  lemma ThirdMeans(pow: Pow, theta: real, zeta: real, u: real)
    requires BranchOf(pow, theta, zeta, u) == Third
    ensures Scaling(u, zeta) >= 1.0 + pow(0.5, theta)
  {
  }

  /** With fewer than three ranks the third branch, whose eta divides by zero, is never reached. */
  lemma ThirdNeedsThree(pow: Pow, n: nat, theta: real, u: real)
    requires n >= 1 && 0.0 < theta < 1.0 && PowLaws(pow) && 0.0 <= u < 1.0
    requires BranchOf(pow, theta, ZetaSum(pow, n, theta), u) == Third
    ensures n >= 3 && ZetaSum(pow, n, theta) > ZetaSum(pow, 2, theta) > 1.0
    ensures Scaling(u, ZetaSum(pow, n, theta)) >= ZetaSum(pow, 2, theta)
  {
    hide ZetaSum, PowLaws, Scaling;
    BaseSums(pow, theta);
    var z, half := ZetaSum(pow, n, theta), pow(0.5, theta);
    ThirdMeans(pow, theta, z, u);
    hide BranchOf;
    if n <= 2 {
      SmallSums(pow, n, theta);
      Shrinks(z, u, 1.0 + half);
    } else {
      ZetaGrows(pow, 2, n, theta);
    }
  }

  lemma Scaled(x: real, y: real)
    requires x >= 0.0 && y >= 0.0
    ensures x * y >= 0.0 && (x > 0.0 && y > 0.0 ==> x * y > 0.0)
  {
  }

  /** A linear map of u that takes ratio to p and 1 to 1 stays in [p, 1). */
  lemma Rescaled(p: real, ratio: real, u: real)
    requires 0.0 < p < 1.0 && 0.0 < ratio < 1.0 && ratio <= u < 1.0
    ensures p <= Base(Eta(p, ratio), u) < 1.0
    ensures ratio < u ==> p < Base(Eta(p, ratio), u)
  {
    EtaPositive(p, ratio);
    BelowOne(Eta(p, ratio), u);
    FromRatio(Eta(p, ratio), p, ratio, u);
  }

  lemma EtaPositive(p: real, ratio: real)
    requires p < 1.0 && ratio < 1.0
    ensures Eta(p, ratio) > 0.0 && Eta(p, ratio) * (1.0 - ratio) == 1.0 - p
  {
    var eta := Eta(p, ratio);
    assert eta * (1.0 - ratio) == 1.0 - p;
    if eta <= 0.0 { Scaled(-eta, 1.0 - ratio); }
  }

  lemma BelowOne(eta: real, u: real)
    requires eta > 0.0 && u < 1.0
    ensures Base(eta, u) < 1.0
  {
    Scaled(eta, 1.0 - u);
    assert eta * (1.0 - u) == eta - eta * u;
  }

  lemma FromRatio(eta: real, p: real, ratio: real, u: real)
    requires eta > 0.0 && eta * (1.0 - ratio) == 1.0 - p && ratio <= u
    ensures p <= Base(eta, u) && (ratio < u ==> p < Base(eta, u))
  {
    var rise := eta * (u - ratio);
    Scaled(eta, u - ratio);
    assert eta * u == eta * ratio + rise;
    assert eta * ratio == eta - (1.0 - p);
    assert Base(eta, u) == p + rise;
  }

  lemma Ratio(zeta: real, zeta2: real, u: real)
    requires 0.0 < zeta2 < zeta && Scaling(u, zeta) >= zeta2
    ensures 0.0 < zeta2 / zeta < 1.0 && zeta2 / zeta <= u
    ensures Scaling(u, zeta) > zeta2 ==> zeta2 / zeta < u
  {
    var r := zeta2 / zeta;
    assert r * zeta == zeta2;
    if r > u {
      Scaled(r - u, zeta);
      assert (r - u) * zeta == r * zeta - u * zeta;
    }
    if r >= 1.0 { Scaled(r - 1.0, zeta); }
    if r <= 0.0 { Scaled(-r, zeta); }
  }

  lemma TwoOver(n: nat)
    requires n >= 3
    ensures 0.0 < 2.0 / n as real < 1.0 && n as real * (2.0 / n as real) == 2.0
  {
  }

  lemma PowBetween(pow: Pow, n: nat, theta: real, w: real)
    requires n >= 3 && 0.0 < theta < 1.0 && PowLaws(pow)
    requires pow(2.0 / n as real, 1.0 - theta) <= w < 1.0
    ensures 2.0 / n as real <= pow(w, 1.0 / (1.0 - theta)) < 1.0
    ensures pow(2.0 / n as real, 1.0 - theta) < w ==> 2.0 / n as real < pow(w, 1.0 / (1.0 - theta))
  {
    TwoOver(n);
    var q, t := 2.0 / n as real, 1.0 - theta;
    var p, alpha := pow(q, t), 1.0 / t;
    hide PowLaws;
    assert t > 0.0 && alpha > 0.0;
    PowPositive(pow, q, t);
    PowInverse(pow, q, t);
    PowIncreasing(pow, p, w, alpha);
    PowIncreasing(pow, w, 1.0, alpha);
    PowOne(pow, alpha);
  }

  lemma PowInside(pow: Pow, n: nat, theta: real)
    requires n >= 3 && 0.0 < theta < 1.0 && PowLaws(pow)
    ensures 0.0 < pow(2.0 / n as real, 1.0 - theta) < 1.0
  {
    hide PowLaws;
    TwoOver(n);
    PowPositive(pow, 2.0 / n as real, 1.0 - theta);
    PowIncreasing(pow, 2.0 / n as real, 1.0, 1.0 - theta);
    PowOne(pow, 1.0 - theta);
  }

  lemma Stretch(n: nat, x: real)
    requires n >= 3 && 2.0 / n as real <= x < 1.0
    ensures 2.0 <= n as real * x < n as real
    ensures 2.0 / n as real < x ==> 2.0 < n as real * x
  {
    TwoOver(n);
    Scaled(n as real, x - 2.0 / n as real);
    Scaled(n as real, 1.0 - x);
  }

  /** The third branch adds at least 2 and less than n. */
  lemma SpreadBounds(pow: Pow, n: nat, theta: real, u: real)
    requires n >= 1 && 0.0 < theta < 1.0 && PowLaws(pow) && 0.0 <= u < 1.0
    requires BranchOf(pow, theta, ZetaSum(pow, n, theta), u) == Third
    ensures n >= 3 && ZetaSum(pow, n, theta) > ZetaSum(pow, 2, theta) > 1.0
    ensures ZetaSum(pow, 2, theta) / ZetaSum(pow, n, theta) != 1.0
    ensures 2.0 <= Spread(pow, n, theta, ZetaSum(pow, n, theta), ZetaSum(pow, 2, theta), u) < n as real
    ensures Scaling(u, ZetaSum(pow, n, theta)) > ZetaSum(pow, 2, theta) ==>
      2.0 < Spread(pow, n, theta, ZetaSum(pow, n, theta), ZetaSum(pow, 2, theta), u)
  {
    hide PowLaws, ZetaSum, BranchOf, Scaling;
    var zeta, zeta2 := ZetaSum(pow, n, theta), ZetaSum(pow, 2, theta);
    ThirdNeedsThree(pow, n, theta, u);
    var p, ratio := pow(2.0 / n as real, 1.0 - theta), zeta2 / zeta;
    hide Base, Eta;
    PowInside(pow, n, theta);
    Ratio(zeta, zeta2, u);
    Rescaled(p, ratio, u);
    var w := Base(Eta(p, ratio), u);
    PowBetween(pow, n, theta, w);
    Stretch(n, pow(w, 1.0 / (1.0 - theta)));
  }

  /** operator(), for a draw u. */
  function Sample(pow: Pow, a: int, b: int, theta: real, u: real): int
    requires a <= b && 0.0 < theta < 1.0 && PowLaws(pow) && 0.0 <= u < 1.0
  {
    var n := b - a + 1;
    var zeta, zeta2 := ZetaSum(pow, n, theta), ZetaSum(pow, 2, theta);
    match BranchOf(pow, theta, zeta, u)
    case First => a
    case Second => a + 1
    case Third =>
      SpreadBounds(pow, n, theta, u);
      Truncate(a as real + Spread(pow, n, theta, zeta, zeta2, u))
  }

  /** Which draws give which rank, with z the sum of the n weights: a for the first 1 of it, a + 1 for the next
      pow(0.5, theta), a + 2 upwards for the rest. */
  lemma BranchesPartition(pow: Pow, a: int, b: int, theta: real, u: real, z: real)
    requires a <= b && 0.0 < theta < 1.0 && PowLaws(pow) && 0.0 <= u < 1.0
    requires z == ZetaSum(pow, b - a + 1, theta)
    ensures Sample(pow, a, b, theta, u) == a <==> u * z < 1.0
    ensures Sample(pow, a, b, theta, u) == a + 1 <==> 1.0 <= u * z < 1.0 + pow(0.5, theta)
    ensures Sample(pow, a, b, theta, u) >= a + 2 <==> u * z >= 1.0 + pow(0.5, theta)
  {
    var n := b - a + 1;
    var branch := BranchOf(pow, theta, z, u);
    BranchBounds(pow, theta, z, u);
    PowPositive(pow, 0.5, theta);
    if branch == Third {
      SpreadBounds(pow, n, theta, u);
      var s := Spread(pow, n, theta, z, ZetaSum(pow, 2, theta), u);
      assert Sample(pow, a, b, theta, u) == Truncate(a as real + s);
      hide Truncate, Spread, PowLaws, ZetaSum, BranchOf, Sample;
      TruncateBetween(a + 2, a as real + s, b + 1);
    } else {
      assert Sample(pow, a, b, theta, u) == if branch == First then a else a + 1;
      hide Spread, PowLaws, ZetaSum, BranchOf, Sample;
    }
  }

  lemma BranchBounds(pow: Pow, theta: real, z: real, u: real)
    ensures BranchOf(pow, theta, z, u) == First <==> u * z < 1.0
    ensures BranchOf(pow, theta, z, u) == Third <==> u * z >= 1.0 && u * z >= 1.0 + pow(0.5, theta)
  {
  }

  /** The third branch in closed form: pow((s / n), 1 - theta) goes in a straight line from pow(2 / n, 1 - theta),
      where the branch begins, to 1, and the sample is a + s without its fraction. */
  lemma ThirdBranch(pow: Pow, a: int, b: int, theta: real, u: real, z: real, z2: real) returns (s: real)
    requires a <= b && 0.0 < theta < 1.0 && PowLaws(pow) && 0.0 <= u < 1.0
    requires z == ZetaSum(pow, b - a + 1, theta) && z2 == 1.0 + pow(0.5, theta) && u * z >= z2
    ensures b - a >= 2 && 2.0 <= s < (b - a + 1) as real
    ensures pow(s / (b - a + 1) as real, 1.0 - theta) * (z - z2) ==
            (u * z - z2) + pow(2.0 / (b - a + 1) as real, 1.0 - theta) * (z - u * z)
    ensures var y, m := a as real + s, Sample(pow, a, b, theta, u);
      if y >= 0.0 then m as real <= y < m as real + 1.0 else y <= m as real < y + 1.0
  {
    hide PowLaws, ZetaSum, Sample, Truncate, Spread;
    var n := ThirdSetup(pow, a, b, theta, u, z, z2);
    s := Spread(pow, n, theta, z, z2, u);
    SpreadPower(pow, n, theta, z, z2, u);
    TruncateFraction(a as real + s);
  }

  lemma ThirdSetup(pow: Pow, a: int, b: int, theta: real, u: real, z: real, z2: real) returns (n: nat)
    requires a <= b && 0.0 < theta < 1.0 && PowLaws(pow) && 0.0 <= u < 1.0
    requires z == ZetaSum(pow, b - a + 1, theta) && z2 == 1.0 + pow(0.5, theta) && u * z >= z2
    ensures n == b - a + 1 >= 3 && z > z2 > 1.0 && z2 / z != 1.0
    ensures 2.0 <= Spread(pow, n, theta, z, z2, u) < n as real
    ensures Sample(pow, a, b, theta, u) == Truncate(a as real + Spread(pow, n, theta, z, z2, u))
  {
    n := b - a + 1;
    BranchBounds(pow, theta, z, u);
    PowPositive(pow, 0.5, theta);
    BaseSums(pow, theta);
    hide PowLaws, ZetaSum, Scaling, Spread, Truncate, BranchOf;
    SpreadBounds(pow, n, theta, u);
  }

  lemma TruncateFraction(y: real)
    ensures var m := Truncate(y);
      if y >= 0.0 then m as real <= y < m as real + 1.0 else y <= m as real < y + 1.0
  {
  }

  lemma SpreadPower(pow: Pow, n: nat, theta: real, z: real, z2: real, u: real)
    requires n >= 3 && 0.0 < theta < 1.0 && PowLaws(pow) && 0.0 <= u < 1.0 && 1.0 < z2 < z && u * z >= z2
    requires z2 / z != 1.0
    ensures pow(Spread(pow, n, theta, z, z2, u) / n as real, 1.0 - theta) * (z - z2) ==
            (u * z - z2) + pow(2.0 / n as real, 1.0 - theta) * (z - u * z)
  {
    hide PowLaws;
    var p, t := pow(2.0 / n as real, 1.0 - theta), 1.0 - theta;
    var ratio := z2 / z;
    var w := Base(Eta(p, ratio), u);
    PowInside(pow, n, theta);
    Fraction(z, z2);
    Ratio(z, z2, u);
    Rescaled(p, ratio, u);
    var x := pow(w, 1.0 / t);
    Spread1(pow, n, theta, z, z2, u);
    PowInverse(pow, w, 1.0 / t);
    assert 1.0 / (1.0 / t) == t;
    hide Base, Eta, Spread;
    assert pow(x, t) == w;
    StraightLine(p, ratio, u, z, z2);
  }

  lemma Spread1(pow: Pow, n: nat, theta: real, z: real, z2: real, u: real)
    requires n > 0 && 0.0 < theta < 1.0 && z > 0.0 && z2 / z != 1.0
    ensures Spread(pow, n, theta, z, z2, u) / n as real ==
            pow(Base(Eta(pow(2.0 / n as real, 1.0 - theta), z2 / z), u), 1.0 / (1.0 - theta))
  {
    hide Base, Eta;
    var x := pow(Base(Eta(pow(2.0 / n as real, 1.0 - theta), z2 / z), u), 1.0 / (1.0 - theta));
    assert n as real * x / n as real == x;
  }

  lemma StraightLine(p: real, ratio: real, u: real, z: real, z2: real)
    requires 0.0 < ratio < 1.0 && p < 1.0 && ratio * z == z2
    ensures Base(Eta(p, ratio), u) * (z - z2) == (u * z - z2) + p * (z - u * z)
  {
    var eta, w := Eta(p, ratio), Base(Eta(p, ratio), u);
    EtaPositive(p, ratio);
    assert w == eta * u - eta + 1.0;
    hide Eta, Base;
    var a, b := eta * (1.0 - ratio), 1.0 - u;
    assert a == 1.0 - p;
    assert z - z2 == z * (1.0 - ratio);
    assert w == 1.0 - eta * b;
    calc {
      w * (z - z2);
      (1.0 - eta * b) * (z * (1.0 - ratio));
      z * (1.0 - ratio) - (eta * (1.0 - ratio)) * (b * z);
      z - z2 - (1.0 - p) * (b * z);
      { assert b * z == z - u * z; }
      z - z2 - (1.0 - p) * (z - u * z);
      (u * z - z2) + p * (z - u * z);
    }
  }

  /**
   * The sample lies in [a, b], with one exception: truncation rounds a negative sum up, so a draw whose
   * sum falls strictly between b and b + 1 <= 0 gives b + 1.
   */
  lemma SampleInRangeExactly(pow: Pow, a: int, b: int, theta: real, u: real)
    requires a <= b && 0.0 < theta < 1.0 && PowLaws(pow) && 0.0 <= u < 1.0
    ensures a <= Sample(pow, a, b, theta, u) <= b + 1
    ensures b >= 0 ==> Sample(pow, a, b, theta, u) <= b
    ensures
      var n := b - a + 1;
      var zeta := ZetaSum(pow, n, theta);
      BranchOf(pow, theta, zeta, u) == Third ==>
        && n >= 3 && zeta > 0.0 && ZetaSum(pow, 2, theta) / zeta != 1.0
        && (Sample(pow, a, b, theta, u) <= b <==>
            b >= 0 || a as real + Spread(pow, n, theta, zeta, ZetaSum(pow, 2, theta), u) <= b as real)
    ensures BranchOf(pow, theta, ZetaSum(pow, b - a + 1, theta), u) != Third ==> Sample(pow, a, b, theta, u) <= b
  {
    var n := b - a + 1;
    var branch := BranchOf(pow, theta, ZetaSum(pow, n, theta), u);
    if branch == Third {
      SpreadBounds(pow, n, theta, u);
      var s := Spread(pow, n, theta, ZetaSum(pow, n, theta), ZetaSum(pow, 2, theta), u);
      assert Sample(pow, a, b, theta, u) == Truncate(a as real + s);
      hide Spread, PowLaws, ZetaSum, BranchOf, Sample;
      TruncateUpTo(a as real + s, b);
      TruncateBetween(a + 2, a as real + s, b + 1);
    } else if branch == Second {
      SecondNeedsTwo(pow, n, theta, u);
    }
  }

  /** Every point of [p, 1) is reached by a draw of the third branch. */
  lemma DrawFor(p: real, zeta: real, zeta2: real, w: real) returns (u: real)
    requires 1.0 < zeta2 < zeta && 0.0 < p <= w < 1.0
    ensures 0.0 < zeta2 / zeta < 1.0
    ensures 0.0 <= u < 1.0 && Scaling(u, zeta) >= zeta2 && Base(Eta(p, zeta2 / zeta), u) == w
  {
    var ratio := zeta2 / zeta;
    Fraction(zeta, zeta2);
    EtaPositive(p, ratio);
    var eta := Eta(p, ratio);
    hide Eta, Scaling;
    u := Unscaled(eta, ratio, p, w);
    ScalingAtLeast(u, zeta, zeta2);
  }

  lemma Fraction(zeta: real, zeta2: real)
    requires 0.0 < zeta2 < zeta
    ensures 0.0 < zeta2 / zeta < 1.0 && zeta2 / zeta * zeta == zeta2
  {
    var r := zeta2 / zeta;
    assert zeta * r == zeta2;
    Cancel(zeta, 0.0, r);
    Cancel(zeta, r, 1.0);
  }

  lemma Cancel(r: real, x: real, y: real)
    requires r > 0.0
    ensures r * x < r * y <==> x < y
  {
    assert r * (y - x) == r * y - r * x;
    if x < y { Scaled(r, y - x); } else { Scaled(r, x - y); }
  }

  lemma ScalingAtLeast(u: real, zeta: real, zeta2: real)
    requires 0.0 < zeta2 < zeta && zeta2 / zeta <= u
    ensures Scaling(u, zeta) >= zeta2
  {
    Fraction(zeta, zeta2);
    Scaled(u - zeta2 / zeta, zeta);
  }

  lemma Unscaled(eta: real, ratio: real, p: real, w: real) returns (u: real)
    requires eta > 0.0 && eta * (1.0 - ratio) == 1.0 - p && p <= w < 1.0
    ensures ratio <= u < 1.0 && Base(eta, u) == w
  {
    var d := (1.0 - w) / eta;
    assert eta * d == 1.0 - w;
    Cancel(eta, 0.0, d);
    Cancel(eta, 1.0 - ratio, d);
    u := 1.0 - d;
    assert eta * u == eta - eta * d;
  }

  /** Half a step below n. */
  lemma NearTop(n: nat)
    requires n >= 3
    ensures var q := (n as real - 0.5) / n as real; 2.0 / n as real <= q < 1.0 && n as real * q == n as real - 0.5
  {
    var r := n as real;
    var q := (r - 0.5) / r;
    assert r * (2.0 / r) == 2.0 && r * q == r - 0.5;
    Cancel(r, q, 2.0 / r);
    Cancel(r, q, 1.0);
  }

  /** Some draw of the third branch adds n - 1/2. */
  lemma SpreadNearTop(pow: Pow, n: nat, theta: real) returns (u: real)
    requires n >= 3 && 0.0 < theta < 1.0 && PowLaws(pow)
    ensures 0.0 <= u < 1.0 && ZetaSum(pow, n, theta) > ZetaSum(pow, 2, theta) > 1.0
    ensures BranchOf(pow, theta, ZetaSum(pow, n, theta), u) == Third
    ensures ZetaSum(pow, 2, theta) / ZetaSum(pow, n, theta) != 1.0
    ensures Spread(pow, n, theta, ZetaSum(pow, n, theta), ZetaSum(pow, 2, theta), u) == n as real - 0.5
  {
    hide PowLaws, ZetaSum, Scaling, Base, Eta;
    BaseSums(pow, theta);
    ZetaGrows(pow, 2, n, theta);
    var q, t := (n as real - 0.5) / n as real, 1.0 - theta;
    var p, w := pow(2.0 / n as real, t), pow(q, t);
    TwoOver(n);
    NearTop(n);
    PowInside(pow, n, theta);
    PowIncreasing(pow, 2.0 / n as real, q, t);
    PowIncreasing(pow, q, 1.0, t);
    PowOne(pow, t);
    PowInverse(pow, q, t);
    u := DrawFor(p, ZetaSum(pow, n, theta), ZetaSum(pow, 2, theta), w);
  }

  /** A range of three or more negative numbers is overstepped by one, whatever its bounds and the skew. */
  lemma NegativeRangeOverstepped(pow: Pow, a: int, b: int, theta: real) returns (u: real)
    requires b < 0 && b - a >= 2 && 0.0 < theta < 1.0 && PowLaws(pow)
    ensures 0.0 <= u < 1.0 && Sample(pow, a, b, theta, u) == b + 1
  {
    var n: nat := b - a + 1;
    u := SpreadNearTop(pow, n, theta);
    var s := Spread(pow, n, theta, ZetaSum(pow, n, theta), ZetaSum(pow, 2, theta), u);
    assert Sample(pow, a, b, theta, u) == Truncate(a as real + s);
    hide Spread, BranchOf, ZetaSum, PowLaws, Sample;
    assert a as real + s == b as real + 0.5;
  }

  /** Every draw from [a, b] lies in [a, b] exactly when b is not negative or the range has at most two numbers. */
  lemma RangeKeptExactly(pow: Pow, a: int, b: int, theta: real)
    requires a <= b && 0.0 < theta < 1.0 && PowLaws(pow)
    ensures (forall u: real :: 0.0 <= u < 1.0 ==> a <= Sample(pow, a, b, theta, u) <= b) <==> b >= 0 || b - a < 2
  {
    hide PowLaws, Sample, BranchOf, Spread, ZetaSum;
    if b < 0 && b - a >= 2 {
      var u := NegativeRangeOverstepped(pow, a, b, theta);
    } else {
      forall u: real | 0.0 <= u < 1.0 ensures a <= Sample(pow, a, b, theta, u) <= b {
        SampleInRangeExactly(pow, a, b, theta, u);
      }
    }
  }

  lemma SecondNeedsTwo(pow: Pow, n: nat, theta: real, u: real)
    requires n >= 1 && 0.0 < theta < 1.0 && PowLaws(pow) && 0.0 <= u < 1.0
    requires BranchOf(pow, theta, ZetaSum(pow, n, theta), u) == Second
    ensures n >= 2
  {
    hide ZetaSum, PowLaws, Scaling;
    BaseSums(pow, theta);
    Shrinks(ZetaSum(pow, 1, theta), u, 1.0);
  }

  lemma TruncateUpTo(y: real, b: int)
    requires y < (b + 1) as real
    ensures Truncate(y) <= b <==> b >= 0 || y <= b as real
  {
  }
}
