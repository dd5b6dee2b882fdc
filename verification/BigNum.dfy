/** Addition and negation of numbers of any length, sixteen bits at a time, as in
    src/mp-math.c: lowest digit first, in place, with a carry threaded through. */
module BigNum {

  type Bigit = x: int | 0 <= x < 0x1_0000

  const BASE: int := 0x1_0000

  function Value(p: seq<Bigit>): nat { if p == [] then 0 else Value(p[..|p| - 1]) + p[|p| - 1] * Base(|p| - 1) }

  function Base(n: nat): (b: nat)
    ensures b >= 1
  {
    if n == 0 then 1 else BASE * Base(n - 1)
  }

  lemma ValueNext(p: seq<Bigit>, i: nat)
    requires i < |p|
    ensures Value(p[..i + 1]) == Value(p[..i]) + p[i] * Base(i)
  {
    assert p[..i + 1][..i] == p[..i];
  }

  lemma {:induction false} ValueSmall(p: seq<Bigit>)
    ensures Value(p) < Base(|p|)
  {
    if p != [] {
      ValueSmall(p[..|p| - 1]);
      DigitBound(p[|p| - 1], Base(|p| - 1));
    }
  }

  lemma DigitBound(d: Bigit, b: int)
    requires b >= 1
    ensures d * b + b <= BASE * b
  {
    assert BASE * b - (d * b + b) == (BASE - d - 1) * b;
    assert (BASE - d - 1) * b >= 0;
  }

  /** One digit of a sum and its carry, in the place worth b. */
  lemma PlaceSum(acc: int, digit: int, carry: int, b: int)
    requires acc == digit + BASE * carry
    ensures acc * b == digit * b + carry * (BASE * b)
  {}

  /** mp_add: the first size digits of p become those of p + q + carry, and what is carried
      out of them is returned. */
  method Add(carryIn: int, p: array<Bigit>, q: seq<Bigit>, size: nat) returns (carry: int)
    requires size <= p.Length && size <= |q| && 0 <= carryIn <= 1
    modifies p
    ensures 0 <= carry <= 1
    ensures Value(p[..size]) + carry * Base(size) == old(Value(p[..size])) + Value(q[..size]) + carryIn
    ensures p[size..] == old(p[size..])
  {
    hide Value, Base;
    ghost var was := p[..];
    carry := carryIn;
    Nothing(was, q);
    for i := 0 to size
      invariant 0 <= carry <= 1 && p[i..] == was[i..]
      invariant Value(p[..i]) + carry * Base(i) == Value(was[..i]) + Value(q[..i]) + carryIn
    {
      ghost var before, carried := p[..i], carry;
      ValueNext(was, i);
      ValueNext(q, i);
      assert p[i] == p[i..][0] == was[i];
      var accum := p[i] as int + q[i] + carry;
      carry := if accum / BASE != 0 then 1 else 0;
      p[i] := accum % BASE;
      assert p[..i] == before;
      assert p[i + 1..] == was[i + 1..];
      ValueNext(p[..], i);
      assert p[..][..i + 1] == p[..i + 1] && p[..][..i] == p[..i];
      PlaceSum(accum, p[i], carry, Base(i));
      BaseNext(i);
      ThreeProducts(was[i], q[i], carried, Base(i));
    }
    assert was[..size] == old(p[..size]) && was[size..] == old(p[size..]);
  }

  lemma Nothing(p: seq<Bigit>, q: seq<Bigit>)
    ensures Value(p[..0]) == 0 && Value(q[..0]) == 0 && Base(0) == 1
  {}

  lemma BaseNext(i: nat)
    ensures Base(i + 1) == BASE * Base(i)
  {}

  lemma ThreeProducts(x: int, y: int, z: int, b: int)
    ensures (x + y + z) * b == x * b + y * b + z * b
  {}

  /** mp_negate: the first size digits of p become those of the complement of p, plus carry. */
  method Negate(carryIn: int, p: array<Bigit>, size: nat) returns (carry: int)
    requires size <= p.Length && 0 <= carryIn <= 1
    modifies p
    ensures 0 <= carry <= 1
    ensures Value(p[..size]) + carry * Base(size) == Base(size) - 1 - old(Value(p[..size])) + carryIn
    ensures p[size..] == old(p[size..])
  {
    hide Value, Base;
    ghost var was := p[..];
    carry := carryIn;
    Nothing(was, was);
    for i := 0 to size
      invariant 0 <= carry <= 1 && p[i..] == was[i..]
      invariant Value(p[..i]) + carry * Base(i) == Base(i) - 1 - Value(was[..i]) + carryIn
    {
      ghost var before, carried := p[..i], carry;
      ValueNext(was, i);
      assert p[i] == p[i..][0] == was[i];
      var accum := BASE - 1 - p[i] as int + carry;
      carry := if accum / BASE != 0 then 1 else 0;
      p[i] := accum % BASE;
      assert p[..i] == before;
      assert p[i + 1..] == was[i + 1..];
      ValueNext(p[..], i);
      assert p[..][..i + 1] == p[..i + 1] && p[..][..i] == p[..i];
      PlaceSum(accum, p[i], carry, Base(i));
      BaseNext(i);
      ThreeProducts(BASE - 1, -(was[i] as int), carried, Base(i));
    }
    assert was[..size] == old(p[..size]) && was[size..] == old(p[size..]);
  }

  lemma {:induction false} ValueJoins(x: seq<Bigit>, y: seq<Bigit>)
    ensures Value(x + y) == Value(x) + Base(|x|) * Value(y)
    decreases |y|
  {
    if y == [] {
      assert x + y == x;
    } else {
      var init, d := y[..|y| - 1], y[|y| - 1];
      ValueJoins(x, init);
      assert (x + y)[..|x + y| - 1] == x + init;
      BaseJoins(|x|, |init|);
      Distribute(Base(|x|), Value(init), d, Base(|init|));
    }
  }

  lemma Distribute(a: int, v: int, d: int, b: int)
    ensures a * (v + d * b) == a * v + d * (a * b)
  {
    assert a * (d * b) == d * (a * b);
  }

  lemma {:induction false} BaseJoins(m: nat, n: nat)
    ensures Base(m + n) == Base(m) * Base(n)
    decreases n
  {
    if n > 0 {
      BaseJoins(m, n - 1);
      assert BASE * (Base(m) * Base(n - 1)) == Base(m) * (BASE * Base(n - 1));
    }
  }

  /** Two runs, the carry of the first going into the second, are one run over the low and
      high digits together: the same digits and the same carry. */
  method AddInTwo(carryIn: int, lo: array<Bigit>, hi: array<Bigit>, qlo: seq<Bigit>, qhi: seq<Bigit>)
      returns (carry: int)
    requires lo != hi && |qlo| == lo.Length && |qhi| == hi.Length && 0 <= carryIn <= 1
    modifies lo, hi
    ensures 0 <= carry <= 1
    ensures Value(lo[..] + hi[..]) + carry * Base(lo.Length + hi.Length) ==
            old(Value(lo[..] + hi[..])) + Value(qlo + qhi) + carryIn
  {
    ghost var l, h := lo[..], hi[..];
    assert l[..lo.Length] == l && h[..hi.Length] == h && qlo[..lo.Length] == qlo && qhi[..hi.Length] == qhi;
    var c := Add(carryIn, lo, qlo, lo.Length);
    carry := Add(c, hi, qhi, hi.Length);
    assert lo[..lo.Length] == lo[..] && hi[..hi.Length] == hi[..];
    Together(lo[..], hi[..], l, h, qlo, qhi, carryIn, c, carry);
  }

  lemma Together(lo: seq<Bigit>, hi: seq<Bigit>, l: seq<Bigit>, h: seq<Bigit>, qlo: seq<Bigit>, qhi: seq<Bigit>,
                 carryIn: int, c: int, carry: int)
    requires |lo| == |l| == |qlo| && |hi| == |h| == |qhi|
    requires Value(lo) + c * Base(|lo|) == Value(l) + Value(qlo) + carryIn
    requires Value(hi) + carry * Base(|hi|) == Value(h) + Value(qhi) + c
    ensures Value(lo + hi) + carry * Base(|lo| + |hi|) == Value(l + h) + Value(qlo + qhi) + carryIn
  {
    hide Value, Base;
    ValueJoins(lo, hi);
    ValueJoins(l, h);
    ValueJoins(qlo, qhi);
    BaseJoins(|lo|, |hi|);
    Carried(Value(lo), Value(hi), Value(l), Value(h), Value(qlo), Value(qhi), Base(|lo|), Base(|hi|),
            carryIn, c, carry);
  }

  lemma Carried(lo: int, hi: int, l: int, h: int, ql: int, qh: int, b: int, b': int, carryIn: int, c: int, carry: int)
    requires lo + c * b == l + ql + carryIn && hi + carry * b' == h + qh + c
    ensures (lo + b * hi) + carry * (b * b') == (l + b * h) + (ql + b * qh) + carryIn
  {
    Combine(b, hi, carry, b', h, qh, c);
  }

  lemma Combine(b: int, v: int, carry: int, b': int, h: int, q: int, c: int)
    requires v + carry * b' == h + q + c
    ensures b * v + carry * (b * b') == b * h + b * q + c * b
  {
    Distribute(b, v, carry, b');
    assert b * (h + q + c) == b * h + b * q + c * b;
  }

  /** Digits and carry are determined by the sum, so a chained run and a single one agree. */
  lemma SumDetermines(p: seq<Bigit>, c: int, q: seq<Bigit>, d: int)
    requires |p| == |q| && 0 <= c <= 1 && 0 <= d <= 1
    requires Value(p) + c * Base(|p|) == Value(q) + d * Base(|q|)
    ensures c == d && p == q
  {
    ValueSmall(p);
    ValueSmall(q);
    ValueInjective(p, q);
  }

  lemma {:induction false} ValueInjective(p: seq<Bigit>, q: seq<Bigit>)
    requires |p| == |q|
    ensures Value(p) == Value(q) ==> p == q
  {
    if p != [] && Value(p) == Value(q) {
      var x, y := p[..|p| - 1], q[..|q| - 1];
      var b := Base(|x|);
      ValueSmall(x);
      ValueSmall(y);
      DigitSame(Value(x), p[|p| - 1], Value(y), q[|q| - 1], b);
      ValueInjective(x, y);
      assert p == x + [p[|p| - 1]] && q == y + [q[|q| - 1]];
    }
  }

  lemma DigitSame(x: int, m: int, y: int, n: int, b: int)
    requires 0 <= x < b && 0 <= y < b && x + m * b == y + n * b
    ensures m == n && x == y
  {
    assert x - y == (n - m) * b;
    Grows(n - m, b);
  }

  lemma Grows(k: int, b: int)
    requires b >= 0
    ensures (k >= 1 ==> k * b >= b) && (k <= -1 ==> k * b <= -b)
  {
    assert k * b == (k - 1) * b + b && k * b == (k + 1) * b - b;
    if k >= 1 { assert (k - 1) * b >= 0; }
    if k <= -1 { assert (k + 1) * b <= 0; }
  }

  // ----- the words on 64-bit cells -----

  const HALF: int := 0x1_0000_0000
  const FULL: int := 0x1_0000_0000_0000_0000

  /** Two digits are added; the upper half of a is left as it was. */
  function HalfSum(a: nat, b: nat, carry: nat): nat { a / HALF * HALF + (a % HALF + b % HALF + carry) % HALF }

  function HalfCarry(a: nat, b: nat, carry: nat): nat { (a % HALF + b % HALF + carry) / HALF }

  /** The same for the complement of a. */
  function HalfNegated(a: nat, carry: nat): nat { a / HALF * HALF + (HALF - 1 - a % HALF + carry) % HALF }

  function NegatedCarry(a: nat, carry: nat): nat { (HALF - 1 - a % HALF + carry) / HALF }

  lemma TwoDigits(p: seq<Bigit>)
    requires |p| == 4
    ensures Base(2) == HALF && Value(p) < FULL
    ensures Value(p) % HALF == Value(p[..2]) && Value(p) / HALF == Value(p[2..])
  {
    assert Base(2) == HALF && Base(4) == FULL by { assert Base(1) == BASE && Base(3) == BASE * Base(2); }
    ValueSmall(p);
    ValueSmall(p[..2]);
    ValueJoins(p[..2], p[2..]);
    assert p == p[..2] + p[2..];
    hide Value, Base;
    Divided(Value(p), Value(p[2..]), Value(p[..2]));
  }

  lemma Divided(x: int, q: int, r: int)
    requires x == r + HALF * q && 0 <= r < HALF
    ensures x % HALF == r && x / HALF == q
  {}

  lemma HalfReplaced(was: seq<Bigit>, now: seq<Bigit>, low: int, carry: int)
    requires |was| == |now| == 4 && was[2..] == now[2..] && 0 <= carry
    requires Value(now[..2]) + carry * HALF == low
    ensures Value(now) == Value(was) / HALF * HALF + low % HALF && carry == low / HALF
  {
    hide Value, Base;
    TwoDigits(was);
    TwoDigits(now);
    assert Value(now) == Value(now) / HALF * HALF + Value(now) % HALF;
    Divided(low, carry, Value(now[..2]));
  }

  /** d+  ( alo ahi blo bhi - sumlo sumhi)  on the cells where they stand. */
  method DPlus(alo: array<Bigit>, ahi: array<Bigit>, blo: seq<Bigit>, bhi: seq<Bigit>)
    requires alo.Length == ahi.Length == 4 && alo != ahi && |blo| == |bhi| == 4
    modifies alo, ahi
    ensures var (l, h) := (old(Value(alo[..])), old(Value(ahi[..])));
            Value(alo[..]) == HalfSum(l, Value(blo), 0)
            && Value(ahi[..]) == HalfSum(h, Value(bhi), HalfCarry(l, Value(blo), 0))
  {
    hide Value, Base;
    ghost var l, h := alo[..], ahi[..];
    TwoDigits(l);
    TwoDigits(h);
    TwoDigits(blo);
    TwoDigits(bhi);
    var carry := Add(0, alo, blo, 2);
    HalfReplaced(l, alo[..], Value(l) % HALF + Value(blo) % HALF, carry) by {
      assert alo[..][..2] == alo[..2] && l[..2] == old(alo[..2]) && alo[..][2..] == alo[2..] && l[2..] == old(alo[2..]);
    }
    assert h == ahi[..];
    var c := carry;
    carry := Add(c, ahi, bhi, 2);
    HalfReplaced(h, ahi[..], Value(h) % HALF + Value(bhi) % HALF + c, carry) by {
      assert ahi[..][..2] == ahi[..2] && ahi[..][2..] == ahi[2..];
    }
  }

  /** dnegate  ( lo hi - -lo ~hi+carry)  on the cells where they stand. */
  method DNegate(lo: array<Bigit>, hi: array<Bigit>)
    requires lo.Length == hi.Length == 4 && lo != hi
    modifies lo, hi
    ensures var (l, h) := (old(Value(lo[..])), old(Value(hi[..])));
            Value(lo[..]) == HalfNegated(l, 1) && Value(hi[..]) == HalfNegated(h, NegatedCarry(l, 1))
  {
    hide Value, Base;
    ghost var l, h := lo[..], hi[..];
    TwoDigits(l);
    TwoDigits(h);
    var carry := Negate(1, lo, 2);
    HalfReplaced(l, lo[..], HALF - 1 - Value(l) % HALF + 1, carry) by {
      assert lo[..][..2] == lo[..2] && lo[..][2..] == lo[2..];
    }
    assert h == hi[..];
    var c := carry;
    carry := Negate(c, hi, 2);
    HalfReplaced(h, hi[..], HALF - 1 - Value(h) % HALF + c, carry) by {
      assert hi[..][..2] == hi[..2] && hi[..][2..] == hi[2..];
    }
  }

  /** In one cell, the upper half of the sum is right if and only if what d+ leaves out adds
      nothing to it: the addend's upper half is zero and nothing is carried into it, or it
      is all ones and something is. Then the carry is right as well. */
  predicate UpperIdle(a: nat, b: nat, carry: nat) { b / HALF + HalfCarry(a, b, carry) in {0, HALF} }

  lemma HalfSumExact(a: nat, b: nat, carry: nat)
    requires a < FULL && b < FULL && carry <= 1
    ensures HalfSum(a, b, carry) < FULL && HalfCarry(a, b, carry) <= 1
    ensures HalfSum(a, b, carry) == (a + b + carry) % FULL <==> UpperIdle(a, b, carry)
    ensures UpperIdle(a, b, carry) ==> HalfCarry(a, b, carry) == (a + b + carry) / FULL
  {
    var x, y, u, v := a / HALF, b / HALF, a % HALF, b % HALF;
    var c, s := HalfCarry(a, b, carry), (u + v + carry) % HALF;
    assert u + v + carry == c * HALF + s;
    assert a + b + carry == (x + y + c) * HALF + s;
  }

  /** d+ gives the 128-bit sum if and only if in each cell the upper half has nothing to do. */
  lemma DPlusExact(al: nat, ah: nat, bl: nat, bh: nat)
    requires al < FULL && ah < FULL && bl < FULL && bh < FULL
    ensures var c := HalfCarry(al, bl, 0);
            HalfSum(al, bl, 0) + FULL * HalfSum(ah, bh, c) == (al + FULL * ah + (bl + FULL * bh)) % (FULL * FULL)
            <==> UpperIdle(al, bl, 0) && UpperIdle(ah, bh, c)
  {
    hide HalfSum, HalfCarry, UpperIdle;
    var c := HalfCarry(al, bl, 0);
    HalfSumExact(al, bl, 0);
    HalfSumExact(ah, bh, c);
    TwoCells(al + bl, ah + bh);
    SameCells(HalfSum(al, bl, 0), HalfSum(ah, bh, c), (al + bl) % FULL, (ah + bh + (al + bl) / FULL) % FULL);
  }

  /** A sum over two cells, the carry of the lower one going into the upper one. */
  lemma TwoCells(lo: nat, hi: nat)
    ensures (lo + FULL * hi) % (FULL * FULL) == lo % FULL + FULL * ((hi + lo / FULL) % FULL)
  {
    var k, r := (hi + lo / FULL) / FULL, (hi + lo / FULL) % FULL;
    assert lo + FULL * hi == k * (FULL * FULL) + (lo % FULL + FULL * r);
  }

  lemma SameCells(a: nat, b: nat, x: nat, y: nat)
    requires a < FULL && x < FULL
    ensures a + FULL * b == x + FULL * y <==> a == x && b == y
  {}

  /** dnegate gives the negative if and only if the number is its own negative: zero, or the
      least 128-bit number. */
  lemma DNegateExact(lo: nat, hi: nat)
    requires lo < FULL && hi < FULL
    ensures var c := NegatedCarry(lo, 1);
            HalfNegated(lo, 1) + FULL * HalfNegated(hi, c) == (FULL * FULL - (lo + FULL * hi)) % (FULL * FULL)
            <==> lo == 0 && hi in {0, FULL / 2}
  {
    hide HalfNegated, NegatedCarry;
    var c := NegatedCarry(lo, 1);
    HalfNegatedExact(lo, 1);
    HalfNegatedExact(hi, c);
    CarryMatters(hi);
    TwoCells(FULL - lo, FULL - 1 - hi);
    assert FULL * FULL - (lo + FULL * hi) == FULL - lo + FULL * (FULL - 1 - hi);
    SameCells(HalfNegated(lo, 1), HalfNegated(hi, c), (FULL - lo) % FULL,
              (FULL - 1 - hi + (FULL - lo) / FULL) % FULL);
  }

  /** A carry that should not be there shows in the lowest bit. */
  lemma CarryMatters(a: nat)
    requires a < FULL
    ensures HalfNegated(a, 1) != FULL - 1 - a
  {
    var x, u := a / HALF, a % HALF;
    assert a == x * HALF + u;
    Divided(FULL - 1 - a, HALF - 1 - x, HALF - 1 - u);
    Divided(HalfNegated(a, 1), x, (HALF - u) % HALF);
  }

  lemma HalfNegatedExact(a: nat, carry: nat)
    requires a < FULL && carry <= 1
    ensures HalfNegated(a, carry) < FULL && NegatedCarry(a, carry) == if carry == 1 && a % HALF == 0 then 1 else 0
    ensures HalfNegated(a, carry) == (FULL - 1 - a + carry) % FULL <==> carry == 1 && a in {0, FULL / 2}
  {
    var x, u := a / HALF, a % HALF;
    assert a == x * HALF + u && FULL - 1 - a + carry == (HALF - 1 - x) * HALF + (HALF - 1 - u + carry);
  }
}
