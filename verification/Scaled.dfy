/** Fixed-point numbers of mu/lib/scaled.mu4: 28 bits of fraction in a 64-bit cell, with the
    rounding operators that are the default. */
module Scaled {
  import opened Cells

  const ONE: int := 0x1000_0000    // 1 << 28

  // ----- division, as the kernel does it -----

  /** C division truncates. */
  function Quot(a: int, b: int): int
    requires b != 0
  {
    var q := (if a < 0 then -a else a) / (if b < 0 then -b else b);
    if (a < 0) == (b < 0) then q else -q
  }

  /** mu_slash_mod: the truncated quotient and remainder, corrected when the remainder is not
      zero and the signs differ. */
  function SlashMod(a: int, b: int): (int, int)
    requires b != 0
  {
    var quot := Quot(a, b);
    var mod := a - quot * b;
    if mod != 0 && ((a < 0) != (b < 0)) then (mod + b, quot - 1) else (mod, quot)
  }

  /** The result is floored: the remainder has the sign of the divisor. */
  lemma SlashModFloors(a: int, b: int)
    requires b != 0
    ensures var (mod, quot) := SlashMod(a, b);
            quot * b + mod == a && (if b > 0 then 0 <= mod < b else b < mod <= 0)
  {
    QuotRemains(a, b);
    assert (Quot(a, b) - 1) * b == Quot(a, b) * b - b;
    hide Quot;
  }

  /** The truncated quotient leaves a remainder with the sign of the dividend. */
  lemma QuotRemains(a: int, b: int)
    requires b != 0
    ensures var r := a - Quot(a, b) * b;
            (if a < 0 then r <= 0 else r >= 0) && (if b > 0 then -b < r < b else b < r < -b)
  {
    var x, y := if a < 0 then -a else a, if b < 0 then -b else b;
    var q := x / y;
    Remains(x, y);
    SignedProduct(q, b);
  }

  lemma Remains(x: int, y: int)
    requires x >= 0 && y > 0
    ensures 0 <= x - (x / y) * y < y
  {}

  lemma SignedProduct(q: int, b: int)
    ensures (-q) * b == -(q * b) && q * -b == -(q * b) && (-q) * -b == q * b
  {}

  /** n << 28, cut down to a cell. */
  function ShiftUp(n: Cell): Cell { Wrap(n * ONE) }

  /** n >> 28, with sign. */
  function ShiftDown(n: Cell): Cell { n / ONE }

  /** 2/ */
  function Half(d: Cell): Cell { d / 2 }

  /** sc/  ( n1 n2 - sc=n1/n2) */
  function ScDivide(n: Cell, d: Cell): Cell
    requires d != 0
  {
    Wrap(SlashMod(Add(ShiftUp(n), Half(d)), d).1)
  }

  /** sc*  ( n sc - sc=n*sc) */
  function ScTimes(n: Cell, sc: Cell): Cell { ShiftDown(Add(Mul(n, sc), 0x800_0000)) }

  function Ten(f: nat): (t: nat)
    ensures t >= 1
  {
    if f == 0 then 1 else 10 * Ten(f - 1)
  }

  /** The power of ten as a cell. */
  function Power(f: nat): Cell { Wrap(Ten(f)) }

  /** exp10 */
  method Exp10(f: nat) returns (p: Cell)
    ensures p == Power(f)
  {
    p := 1;
    for k := 0 to f
      invariant p == Power(k)
    {
      WrapMul(Ten(k), 10);
      p := Mul(p, 10);
    }
  }

  lemma {:induction false} TenGrows(k: nat, f: nat)
    requires k <= f
    ensures Ten(k) <= Ten(f)
    decreases f
  {
    if k < f { TenGrows(k, f - 1); }
  }

  lemma TenSmall(f: nat)
    requires f <= 18
    ensures Ten(f) < TWO63 && Power(f) == Ten(f)
  {
    TenGrows(f, 18);
    assert Ten(6) == 1_000_000 by { assert Ten(3) == 1000; }
    assert Ten(12) == 1_000_000_000_000 by { assert Ten(9) == 1_000_000_000; }
    assert Ten(18) == 1_000_000_000_000_000_000 by { assert Ten(15) == 1_000_000_000_000_000; }
  }

  // ----- the range of exactness -----

  /** 28 bits below the top of a cell. */
  predicate InRange(n: int) { -0x8_0000_0000 <= n < 0x8_0000_0000 }

  /** What sc/ computes is the number nearest to n 2^28 / d, the upper one of two. */
  lemma DivideRounds(n: Cell, d: Cell)
    requires InRange(n) && 0 < d && n * ONE + d / 2 < TWO63
    ensures var e := ScDivide(n, d) * d - n * ONE; -d < 2 * e <= d
  {
    var x := n * ONE + d / 2;
    assert Add(ShiftUp(n), Half(d)) == x;
    SlashModFloors(x, d);
    var (mod, quot) := SlashMod(x, d);
    assert quot * d + mod == x;
    QuotientInside(quot, d, mod, x);
    assert Wrap(quot) == quot;
  }

  /** What sc* computes is the number nearest to n sc / 2^28, the upper one of two. */
  lemma TimesRounds(n: Cell, sc: Cell)
    requires -TWO63 <= n * sc && n * sc + ONE / 2 < TWO63
    ensures var e := ScTimes(n, sc) * ONE - n * sc; -ONE < 2 * e <= ONE
  {
    var p := n * sc;
    assert Add(Mul(n, sc), 0x800_0000) == p + 0x800_0000;
    assert ScTimes(n, sc) == (p + 0x800_0000) / ONE;
  }

  lemma QuotientInside(q: int, d: int, m: int, x: int)
    requires d > 0 && 0 <= m < d && q * d + m == x && -TWO63 <= x < TWO63
    ensures -TWO63 <= q < TWO63
  {
    Grows(q, d);
    Grows(q + 1, d);
    assert (q + 1) * d == q * d + d;
  }

  lemma Grows(q: int, d: int)
    requires d >= 1
    ensures if q >= 0 then q * d >= q else q * d <= q
  {
    assert q * d == q * (d - 1) + q;
    if q >= 0 { assert q * (d - 1) >= 0; } else { assert q * (d - 1) <= 0; }
  }

  lemma Eights(p: nat)
    requires p <= 8
    ensures 0 < Ten(p) <= 100_000_000 && Power(p) == Ten(p)
  {
    TenGrows(p, 8);
    assert Ten(8) == 100_000_000 by { assert Ten(4) == 10_000; }
  }

  lemma {:induction false} TenSplits(f: nat, p: nat)
    requires f <= p
    ensures Ten(p) == Ten(f) * Ten(p - f)
    decreases p
  {
    if f < p {
      TenSplits(f, p - 1);
      assert 10 * (Ten(f) * Ten(p - 1 - f)) == Ten(f) * (10 * Ten(p - 1 - f));
    }
  }

  /** Converting n with f decimal places and back with p of them, up to eight, gives exactly
      n with p - f zeros after it, if and only if that number has 28 bits to spare. */
  lemma ExactToEightPlaces(n: Cell, f: nat, p: nat)
    requires f <= p <= 8
    ensures Power(f) == Ten(f) && Power(p) == Ten(p)
    ensures ScTimes(ScDivide(n, Power(f)), Power(p)) == n * Ten(p - f) <==> InRange(n * Ten(p - f))
  {
    hide InRange, ScDivide, ScTimes, Power, Ten;
    Eights(f);
    Eights(p);
    Eights(p - f);
    TenSplits(f, p);
    var d, g := Ten(f), Ten(p - f);
    var s := ScDivide(n, Power(f));
    TimesInRange(s, Power(p));
    if InRange(n * g) {
      RangeShrinks(n, g);
      DivideRounds(n, d);
      var e := s * d - n * ONE;
      ErrorSmall(e, d, g);
      Regroup(s, d, g, n, e);
      ProductBack(s, Power(p), n * g, e * g);
    }
  }

  lemma TimesInRange(s: Cell, t: Cell)
    ensures InRange(ScTimes(s, t))
  {}

  lemma Regroup(s: int, d: int, g: int, n: int, e: int)
    requires s * d == n * ONE + e
    ensures s * (d * g) == (n * g) * ONE + e * g
  {
    calc {
      s * (d * g);
      (s * d) * g;
      (n * ONE + e) * g;
      (n * ONE) * g + e * g;
      (n * g) * ONE + e * g;
    }
  }

  lemma RangeShrinks(n: int, g: nat)
    requires g >= 1 && InRange(n * g)
    ensures InRange(n) && n * ONE + 50_000_000 < TWO63
  {
    Grows(n, g);
  }

  lemma ErrorSmall(e: int, d: int, g: int)
    requires d >= 1 && g >= 1 && -d <= 2 * e <= d && d * g <= 100_000_000
    ensures -50_000_000 <= e * g <= 50_000_000
  {
    assert 2 * (e * g) == (2 * e) * g;
    assert d * g - (2 * e) * g == (d - 2 * e) * g && (d - 2 * e) * g >= 0;
    assert d * g + (2 * e) * g == (d + 2 * e) * g && (d + 2 * e) * g >= 0;
  }

  lemma ProductBack(s: Cell, t: Cell, m: int, e: int)
    requires s * t == m * ONE + e && InRange(m) && -50_000_000 <= e <= 50_000_000
    ensures ScTimes(s, t) == m
  {
    WrapAdd(s * t, 0x800_0000);
    var x := m * ONE + (e + 0x800_0000);
    assert -TWO63 <= m * ONE <= TWO63 - ONE && 0 <= e + 0x800_0000 < ONE;
    assert Add(Mul(s, t), 0x800_0000) == x;
  }

  // ----- more than eight places -----

  /** A large divisor, of either sign, rounds 1 to zero. */
  lemma OneIsLost(d: Cell)
    requires d <= -0x3000_0000 || d >= 0x3000_0000
    ensures ScTimes(ScDivide(1, d), d) == 0
  {
    hide SlashMod;
    var x := ONE + Half(d);
    assert Add(ShiftUp(1), Half(d)) == x;
    assert SlashMod(x, d).1 == 0 by { HalfQuotient(x, d); }
    assert ScDivide(1, d) == 0;
    assert Mul(0, d) == 0;
  }

  lemma HalfQuotient(x: int, d: int)
    requires if d > 0 then 0 <= x < d else d < x <= 0
    ensures SlashMod(x, d).1 == 0
  {
    hide SlashMod;
    SlashModFloors(x, d);
    var (mod, quot) := SlashMod(x, d);
    if d > 0 { SmallQuotient(quot, d, mod); } else { SmallQuotient(quot, -d, -mod); }
  }

  lemma SmallQuotient(q: int, d: int, m: int)
    requires d > 0 && 0 <= m < d
    ensures q >= 1 ==> q * d + m >= d
    ensures q <= -1 ==> q * d + m < 0
  {
    if q >= 1 { assert (q - 1) * d >= 0; }
    if q <= -1 { assert (q + 1) * d <= 0; }
  }

  /** From nine places on the power of ten is large in a cell, or zero. */
  lemma PowerLarge(f: nat)
    requires f >= 9 && Power(f) != 0
    ensures Power(f) <= -0x3000_0000 || Power(f) >= 0x3000_0000
  {
    if f <= 18 {
      TenSmall(f);
      TenGrows(9, f);
      assert Ten(9) == 1_000_000_000 by { assert Ten(5) == 100_000; }
    } else if f >= 30 {
      PowerEven(f);
    } else {
      PowersAt(f);
    }
  }

  lemma TenTo18()
    ensures Ten(18) == 1_000_000_000_000_000_000
  {
    assert Ten(6) == 1_000_000 by { assert Ten(3) == 1000; }
    assert Ten(12) == 1_000_000_000_000 by { assert Ten(9) == 1_000_000_000; }
    assert Ten(15) == 1_000_000_000_000_000;
  }

  lemma PowersAt(f: nat)
    requires 19 <= f <= 29
    ensures Power(f) <= -0x3000_0000 || Power(f) >= 0x3000_0000
  {
    hide Ten;
    TenTo18();
    TenSplits(18, f);
    SmallTens();
    var x := Ten(f);
    assert x == 1_000_000_000_000_000_000 * Ten(f - 18);
    if f == 19 { assert x == 10_000_000_000_000_000_000; }
    else if f == 20 { assert x == 100_000_000_000_000_000_000; }
    else if f == 21 { assert x == 1_000_000_000_000_000_000_000; }
    else if f == 22 { assert x == 10_000_000_000_000_000_000_000; }
    else if f == 23 { assert x == 100_000_000_000_000_000_000_000; }
    else if f == 24 { assert x == 1_000_000_000_000_000_000_000_000; }
    else if f == 25 { assert x == 10_000_000_000_000_000_000_000_000; }
    else if f == 26 { assert x == 100_000_000_000_000_000_000_000_000; }
    else if f == 27 { assert x == 1_000_000_000_000_000_000_000_000_000; }
    else if f == 28 { assert x == 10_000_000_000_000_000_000_000_000_000; }
    else { assert x == 100_000_000_000_000_000_000_000_000_000; }
  }

  lemma SmallTens()
    ensures Ten(1) == 10 && Ten(2) == 100 && Ten(3) == 1000 && Ten(4) == 10_000 && Ten(5) == 100_000
    ensures Ten(6) == 1_000_000 && Ten(7) == 10_000_000 && Ten(8) == 100_000_000
    ensures Ten(9) == 1_000_000_000 && Ten(10) == 10_000_000_000 && Ten(11) == 100_000_000_000
  {
    assert Ten(4) == 10_000;
    assert Ten(8) == 100_000_000;
  }

  lemma PowerEven(f: nat)
    requires f >= 30
    ensures Power(f) % 0x4000_0000 == 0
  {
    hide Ten;
    TenTo18();
    SmallTens();
    TenSplits(18, 29);
    TenSplits(29, 30);
    TenSplits(30, f);
    assert Ten(30) == 931_322_574_615_478_515_625 * 0x4000_0000;
    Multiple(931_322_574_615_478_515_625, Ten(f - 30));
  }

  lemma Multiple(c: nat, k: nat)
    ensures Wrap(c * 0x4000_0000 * k) % 0x4000_0000 == 0
  {
    var x := c * 0x4000_0000 * k;
    var j := (x + TWO63) / TWO64;
    assert x == (c * k) * 0x4000_0000;
    assert Wrap(x) == x - j * TWO64 == (c * k - j * 0x4_0000_0000) * 0x4000_0000;
    Divides(c * k - j * 0x4_0000_0000);
  }

  lemma Divides(a: int)
    ensures a * 0x4000_0000 % 0x4000_0000 == 0
  {}

  function Five(f: nat): nat { if f == 0 then 1 else 5 * Five(f - 1) }

  lemma {:induction false} FiveOdd(f: nat)
    ensures Five(f) % 2 == 1
  {
    if f > 0 { FiveOdd(f - 1); }
  }

  lemma {:induction false} TenFactors(f: nat)
    ensures Ten(f) == Pow2(f) * Five(f)
  {
    if f > 0 {
      TenFactors(f - 1);
      TenTimes(Pow2(f - 1), Five(f - 1));
      TenStep(f);
      hide Ten, Pow2, Five;
    }
  }

  lemma TenStep(f: nat)
    requires f > 0
    ensures Ten(f) == 10 * Ten(f - 1) && Pow2(f) == 2 * Pow2(f - 1) && Five(f) == 5 * Five(f - 1)
  {}

  lemma TenTimes(a: int, b: int)
    ensures 10 * (a * b) == (2 * a) * (5 * b)
  {}

  /** The power of ten is zero in a cell from 64 places on. */
  lemma PowerZero(f: nat)
    ensures Power(f) == 0 <==> f >= 64
  {
    hide Ten, Pow2, Five;
    TenFactors(f);
    FiveOdd(f);
    Pow2Is64();
    if f >= 64 {
      Pow2Add(64, f - 64);
      assert Ten(f) == 0 + (Pow2(f - 64) * Five(f)) * TWO64;
      WrapShift(0, Pow2(f - 64) * Five(f));
    } else if Power(f) == 0 {
      var q := Ten(f) / TWO64;
      assert Ten(f) == q * TWO64;
      Pow2Add(f, 64 - f);
      assert Pow2(f) * Five(f) == Pow2(f) * (Pow2(64 - f) * q);
      Cancel(Pow2(f), Five(f), Pow2(64 - f) * q);
      assert Pow2(64 - f) % 2 == 0 by { Pow2Even(64 - f); }
      EvenTimes(Pow2(64 - f), q);
    }
  }

  lemma Cancel(a: int, x: int, y: int)
    requires a > 0 && a * x == a * y
    ensures x == y
  {
    assert a * (x - y) == 0;
  }

  lemma Pow2Even(n: nat)
    requires n > 0
    ensures Pow2(n) % 2 == 0
  {}

  lemma EvenTimes(a: int, b: int)
    requires a % 2 == 0
    ensures a * b % 2 == 0
  {
    assert a * b == 2 * (a / 2 * b);
  }

  /** Every number with 28 bits to spare comes back if and only if there are at most eight
      places. (From 64 places on the power of ten is zero, and there is nothing to divide by.) */
  lemma ExactPlaces(f: nat)
    requires f < 64
    ensures Power(f) != 0
    ensures (forall n: Cell | InRange(n) :: ScTimes(ScDivide(n, Power(f)), Power(f)) == n) <==> f <= 8
  {
    hide ScDivide, ScTimes, Power;
    PowerZero(f);
    if f <= 8 {
      forall n: Cell | InRange(n) ensures ScTimes(ScDivide(n, Power(f)), Power(f)) == n {
        ExactToEightPlaces(n, f, f);
      }
    } else {
      PowerLarge(f);
      OneIsLost(Power(f));
      var one: Cell := 1;
      assert InRange(one) && ScTimes(ScDivide(one, Power(f)), Power(f)) != one;
    }
  }
}
