/** All three forms of the CRC compute the remainder of long division by
    x^16 + x^12 + x^5 + 1, and what follows from that. */
module CrcTheorems {
  import opened Polynomials
  import opened Words
  import opened CrcCode

  /** The polynomial whose coefficients are the bits of a. */
  function Poly(a: Bits): set<nat> { set i: nat | i < |a| && On(a, i) }

  predicate On(a: Bits, i: nat) { i < |a| && a[i] }

  lemma PolyXor(a: Bits, b: Bits)
    requires |a| == |b|
    ensures Poly(Xor(a, b)) == Sum(Poly(a), Poly(b))
  {}

  lemma PolySame(a: Bits, b: Bits)
    requires |a| == |b| && Poly(a) == Poly(b)
    ensures a == b
  {
    forall i | 0 <= i < |a| ensures a[i] == b[i] { assert a[i] <==> i in Poly(a); assert b[i] <==> i in Poly(b); }
  }

  /** The message, first byte first and each byte highest bit first, as one polynomial. */
  function Message(p: seq<Octet>): set<nat>
  {
    if p == [] then {} else Sum(Shift(Message(p[..|p| - 1]), 8), Poly(p[|p| - 1]))
  }

  /** init x^(8n) + M x^16 */
  function Dividend(init: Word, p: seq<Octet>): set<nat>
  {
    Sum(Shift(Poly(init), 8 * |p|), Shift(Message(p), 16))
  }

  // ----- one bit, one byte -----

  /** x^16 is congruent to x^12 + x^5 + 1. */
  lemma TopCongruent(k: nat)
    ensures Congruent({k + 16}, {k, k + 5, k + 12})
  {
    ShiftG(k);
    assert Sum({k + 16}, {k, k + 5, k + 12}) == Shift(G, k);
    assert [k][..0] == [];
    assert Multiple([k]) == Shift(G, k);
  }

  lemma RoundCongruent(c: Word)
    ensures Congruent(Shift(Poly(c), 1), Poly(Round(c)))
  {
    var s := Shift(Poly(c), 1);
    forall j: nat ensures j in s <==> 1 <= j <= 16 && c[j - 1] { ShiftIn(Poly(c), 1, j); }
    if c[15] {
      assert Poly(Round(c)) == Sum(s - {16}, {0, 5, 12});
      TopCongruent(0);
      CongruentSum({16}, {0, 5, 12}, s - {16});
      assert Sum({16}, s - {16}) == s;
      assert Sum({0, 5, 12}, s - {16}) == Poly(Round(c));
    } else {
      assert Poly(Round(c)) == s;
      CongruentSelf(s);
    }
  }

  lemma {:induction false} RoundsCongruent(c: Word, n: nat)
    ensures Congruent(Shift(Poly(c), n), Poly(Rounds(c, n)))
  {
    if n == 0 {
      assert Shift(Poly(c), 0) == Poly(c) by {
        forall j: nat ensures j in Shift(Poly(c), 0) <==> j in Poly(c) { ShiftIn(Poly(c), 0, j); }
      }
      CongruentSelf(Poly(c));
    } else {
      var r := Rounds(c, n - 1);
      RoundsCongruent(c, n - 1);
      CongruentShift(Shift(Poly(c), n - 1), Poly(r), 1);
      ShiftShift(Poly(c), n - 1, 1);
      RoundCongruent(r);
      CongruentTrans(Shift(Poly(c), n), Shift(Poly(r), 1), Poly(Round(r)));
    }
  }

  /** The polynomial that a step with byte b should be congruent to. */
  function Stepped(c: Word, b: Octet): set<nat> { Sum(Shift(Poly(c), 8), Shift(Poly(b), 16)) }

  lemma XmodemCongruent(c: Word, b: Octet)
    ensures Congruent(Stepped(c, b), Poly(Xmodem(c, b)))
  {
    var s := Left(Fit(b, 16), 8);
    RoundsCongruent(Xor(c, s), 8);
    PolyXor(c, s);
    forall j: nat ensures j in Poly(s) <==> j in Shift(Poly(b), 8) { ShiftIn(Poly(b), 8, j); }
    assert Poly(s) == Shift(Poly(b), 8);
    ShiftSum(Poly(c), Poly(s), 8);
    ShiftShift(Poly(b), 8, 8);
  }

  /** x^16 times anything is congruent to x^12 + x^5 + 1 times it. */
  lemma {:induction false} FoldCongruent(a: set<nat>, n: nat)
    requires Below(a, n)
    ensures Congruent(Shift(a, 16), Folded(a))
  {
    if n == 0 {
      assert a == {} && Shift(a, 16) == {} && Folded(a) == {};
      CongruentSelf({});
    } else {
      var k := n - 1;
      var r := a - {k};
      FoldCongruent(r, k);
      if k in a {
        TopCongruent(k);
        SplitOne(a, k);
        CongruentSum(Shift(r, 16), Folded(r), {k + 16});
        CongruentSum({k + 16}, {k, k + 5, k + 12}, Folded(r));
        assert Sum({k + 16}, Folded(r)) == Sum(Folded(r), {k + 16});
        assert Sum({k, k + 5, k + 12}, Folded(r)) == Sum(Folded(r), {k, k + 5, k + 12});
        CongruentTrans(Shift(a, 16), Sum(Folded(r), {k + 16}), Folded(a));
      } else {
        assert r == a;
      }
    }
  }

  function Folded(a: set<nat>): set<nat> { Sum(Sum(Shift(a, 12), Shift(a, 5)), a) }

  lemma FoldedSum(a: set<nat>, b: set<nat>)
    ensures Folded(Sum(a, b)) == Sum(Folded(a), Folded(b))
  {
    ShiftSum(a, b, 12);
    ShiftSum(a, b, 5);
    SumsSwap(Shift(a, 12), Shift(b, 12), Shift(a, 5), Shift(b, 5), a, b);
  }

  lemma SumsSwap(a: set<nat>, a': set<nat>, b: set<nat>, b': set<nat>, c: set<nat>, c': set<nat>)
    ensures Sum(Sum(Sum(a, a'), Sum(b, b')), Sum(c, c')) == Sum(Sum(Sum(a, b), c), Sum(Sum(a', b'), c'))
  {}

  lemma ShiftOne(k: nat, m: nat)
    ensures Shift({k}, m) == {k + m}
  {}

  lemma SplitOne(a: set<nat>, k: nat)
    requires k in a
    ensures Shift(a, 16) == Sum(Shift(a - {k}, 16), {k + 16})
    ensures Folded(a) == Sum(Folded(a - {k}), {k, k + 5, k + 12})
  {
    hide Shift;
    var r := a - {k};
    assert a == Sum(r, {k});
    ShiftSum(r, {k}, 16);
    FoldedSum(r, {k});
    ShiftOne(k, 16);
    ShiftOne(k, 12);
    ShiftOne(k, 5);
    assert Folded({k}) == {k, k + 5, k + 12};
  }

  // ----- the fast form -----

  /** The low n exponents of a. */
  function Lows(a: set<nat>, n: nat): set<nat> { set i | i in a && i < n }

  lemma PolyLeft(a: Bits, k: nat)
    requires k <= |a|
    ensures Poly(Left(a, k)) == Shift(Lows(Poly(a), |a| - k), k)
  {
    forall j: nat ensures j in Poly(Left(a, k)) <==> j in Shift(Lows(Poly(a), |a| - k), k) {
      ShiftIn(Lows(Poly(a), |a| - k), k, j);
    }
  }

  /** A number is its low bits and its high bits, shifted up. */
  lemma PolyRight(a: Bits, k: nat)
    ensures Poly(a) == Sum(Lows(Poly(a), k), Shift(Poly(Right(a, k)), k))
    ensures Below(Poly(a), k + 4) ==> Below(Poly(Right(a, k)), 4)
  {
    forall j: nat ensures j in Poly(a) <==> j in Sum(Lows(Poly(a), k), Shift(Poly(Right(a, k)), k)) {
      ShiftIn(Poly(Right(a, k)), k, j);
    }
    if Below(Poly(a), k + 4) {
      forall i | i in Poly(Right(a, k)) ensures i < 4 { assert i + k in Poly(a); }
    }
  }

  lemma LowsSum(a: set<nat>, b: set<nat>, n: nat)
    ensures Lows(Sum(a, b), n) == Sum(Lows(a, n), Lows(b, n))
  {}

  lemma LowsAll(a: set<nat>, n: nat)
    requires Below(a, n)
    ensures Lows(a, n) == a
  {}

  /** The byte that is folded in: the high byte of the CRC and the new byte. */
  function Mixed(c: Word, b: Octet): Word { Low(Xor(Right(c, 8), Fit(b, 16)), 8) }

  lemma MixedPoly(c: Word, b: Octet)
    ensures Poly(Mixed(c, b)) == Sum(Poly(Right(c, 8)), Poly(b)) && Below(Poly(Mixed(c, b)), 8)
    ensures Stepped(c, b) == Sum(Shift(Lows(Poly(c), 8), 8), Shift(Poly(Mixed(c, b)), 16))
  {
    assert Poly(Mixed(c, b)) == Sum(Poly(Right(c, 8)), Poly(b));
    var hi := Poly(Right(c, 8));
    PolyRight(c, 8);
    ShiftSum(Lows(Poly(c), 8), Shift(hi, 8), 8);
    ShiftShift(hi, 8, 8);
    ShiftSum(hi, Poly(b), 16);
    SumAssoc(Shift(Lows(Poly(c), 8), 8), Shift(hi, 16), Shift(Poly(b), 16));
  }

  lemma SumAssoc(a: set<nat>, b: set<nat>, c: set<nat>)
    ensures Sum(Sum(a, b), c) == Sum(a, Sum(b, c))
  {}

  /** What the shifts and xors come to, as polynomials: x is the byte folded in, h its high
      four bits, and lo the low byte of the CRC. */
  lemma ThierryPoly(c: Word, b: Octet)
    ensures var x := Poly(Mixed(c, b));
            var h := Poly(Right(Mixed(c, b), 4));
            Poly(Thierry(c, b)) ==
            Sum(Sum(Sum(Shift(Lows(Poly(c), 8), 8), Shift(Sum(Lows(x, 4), h), 12)), Shift(Sum(x, h), 5)), Sum(x, h))
  {
    hide Left, Right, Xor, Poly, Shift, Lows, Mixed;
    var w := Mixed(c, b);
    var r := Right(w, 4);
    var y := Xor(w, r);
    var x, h := Poly(w), Poly(r);
    MixedPoly(c, b);
    PolyRight(w, 4);
    PolyXor(w, r);
    assert Below(Sum(x, h), 8) && Below(h, 4);
    PolyLeft(c, 8);
    PolyLeft(y, 12);
    PolyLeft(y, 5);
    LowsSum(x, h, 4);
    LowsAll(h, 4);
    LowsAll(Sum(x, h), 11);
    PolyXor(Left(c, 8), Left(y, 12));
    PolyXor(Xor(Left(c, 8), Left(y, 12)), Left(y, 5));
    PolyXor(Xor(Xor(Left(c, 8), Left(y, 12)), Left(y, 5)), y);
    assert Thierry(c, b) == Xor(Xor(Xor(Left(c, 8), Left(y, 12)), Left(y, 5)), y) by { ThierryIs(c, b); }
  }

  lemma ThierryIs(c: Word, b: Octet)
    ensures var w := Mixed(c, b);
            var y := Xor(w, Right(w, 4));
            Thierry(c, b) == Xor(Xor(Xor(Left(c, 8), Left(y, 12)), Left(y, 5)), y)
  {}

  lemma ThierryCongruent(c: Word, b: Octet)
    ensures Congruent(Stepped(c, b), Poly(Thierry(c, b)))
  {
    hide Left, Right, Xor, Poly, Shift, Lows, Mixed, Stepped, Thierry;
    var w := Mixed(c, b);
    var x, h, lo := Poly(w), Poly(Right(w, 4)), Shift(Lows(Poly(c), 8), 8);
    MixedPoly(c, b);
    ThierryPoly(c, b);
    PolyRight(w, 4);
    // x^16 x is folded, and then the x^16 h in it once more
    FoldCongruent(x, 8);
    CongruentSum(Shift(x, 16), Folded(x), lo);
    SumSwap(Shift(x, 16), lo);
    SumSwap(Folded(x), lo);
    var xl := Lows(x, 4);
    ShiftSum(xl, Shift(h, 4), 12);
    ShiftShift(h, 4, 12);
    var rest := Sum(Sum(Sum(lo, Shift(xl, 12)), Shift(x, 5)), x);
    Rearrange(lo, Shift(xl, 12), Shift(h, 16), Shift(x, 5), x);
    FoldCongruent(h, 4);
    CongruentSum(Shift(h, 16), Folded(h), rest);
    ShiftSum(xl, h, 12);
    ShiftSum(x, h, 5);
    Gather(lo, Shift(xl, 12), Shift(h, 12), Shift(x, 5), Shift(h, 5), x, h);
    CongruentTrans(Stepped(c, b), Sum(Shift(h, 16), rest), Poly(Thierry(c, b)));
  }

  lemma SumSwap(a: set<nat>, b: set<nat>)
    ensures Sum(a, b) == Sum(b, a)
  {}

  lemma Rearrange(lo: set<nat>, l: set<nat>, h: set<nat>, f: set<nat>, x: set<nat>)
    ensures Sum(lo, Sum(Sum(Sum(l, h), f), x)) == Sum(h, Sum(Sum(Sum(lo, l), f), x))
  {}

  lemma Gather(lo: set<nat>, l: set<nat>, h12: set<nat>, x5: set<nat>, h5: set<nat>, x: set<nat>, h: set<nat>)
    ensures Sum(Sum(Sum(h12, h5), h), Sum(Sum(Sum(lo, l), x5), x)) ==
            Sum(Sum(Sum(lo, Sum(l, h12)), Sum(x5, h5)), Sum(x, h))
  {}

  // ----- whole buffers -----

  lemma ByteCongruent(form: Form, c: Word, b: Octet)
    ensures Congruent(Stepped(c, b), Poly(CrcByte(form, c, b)))
  {
    if form == ThierryForm { ThierryCongruent(c, b); } else { XmodemCongruent(c, b); }
  }

  /** The two forms are the same function. */
  lemma FormsAgree(c: Word, b: Octet)
    ensures Thierry(c, b) == Xmodem(c, b)
  {
    hide Poly, Thierry, Xmodem, Stepped;
    ThierryCongruent(c, b);
    XmodemCongruent(c, b);
    WordBelow(Thierry(c, b));
    WordBelow(Xmodem(c, b));
    SteppedBelow(c, b);
    RemainderUnique(Stepped(c, b), Poly(Thierry(c, b)), 24);
    RemainderUnique(Stepped(c, b), Poly(Xmodem(c, b)), 24);
    PolySame(Thierry(c, b), Xmodem(c, b));
  }

  lemma WordBelow(a: Bits)
    ensures Below(Poly(a), |a|)
  {}

  lemma ShiftBelow(a: set<nat>, n: nat, k: nat)
    requires Below(a, n)
    ensures Below(Shift(a, k), n + k)
  {}

  lemma SumBelow(a: set<nat>, b: set<nat>, n: nat)
    requires Below(a, n) && Below(b, n)
    ensures Below(Sum(a, b), n)
  {}

  lemma SteppedBelow(c: Word, b: Octet)
    ensures Below(Stepped(c, b), 24)
  {
    WordBelow(c);
    WordBelow(b);
    ShiftBelow(Poly(c), 16, 8);
    ShiftBelow(Poly(b), 8, 16);
    SumBelow(Shift(Poly(c), 8), Shift(Poly(b), 16), 24);
  }

  lemma {:induction false} MessageBelow(p: seq<Octet>)
    ensures Below(Message(p), 8 * |p|)
  {
    if p != [] {
      MessageBelow(p[..|p| - 1]);
      WordBelow(p[|p| - 1]);
      ShiftBelow(Message(p[..|p| - 1]), 8 * |p| - 8, 8);
    }
  }

  lemma {:induction false} CrcCongruent(form: Form, init: Word, p: seq<Octet>)
    ensures Congruent(Dividend(init, p), Poly(CrcOf(form, init, p)))
  {
    hide Poly, CrcByte, Shift;
    if p == [] {
      ShiftNothing(Poly(init));
      ShiftEmpty(16);
      assert Dividend(init, p) == Poly(init);
      CongruentSelf(Poly(init));
    } else {
      var q, b := p[..|p| - 1], p[|p| - 1];
      var c := CrcOf(form, init, q);
      CrcCongruent(form, init, q);
      CongruentShift(Dividend(init, q), Poly(c), 8);
      CongruentSum(Shift(Dividend(init, q), 8), Shift(Poly(c), 8), Shift(Poly(b), 16));
      // the dividend for one byte more
      ShiftSum(Shift(Poly(init), 8 * |q|), Shift(Message(q), 16), 8);
      ShiftShift(Poly(init), 8 * |q|, 8);
      ShiftShift(Message(q), 16, 8);
      ShiftShift(Message(q), 8, 16);
      ShiftSum(Shift(Message(q), 8), Poly(b), 16);
      SumAssoc(Shift(Poly(init), 8 * |p|), Shift(Message(q), 24), Shift(Poly(b), 16));
      ByteCongruent(form, c, b);
      CongruentTrans(Dividend(init, p), Stepped(c, b), Poly(CrcByte(form, c, b)));
    }
  }

  lemma ShiftNothing(a: set<nat>)
    ensures Shift(a, 0) == a
  {
    forall j: nat ensures j in Shift(a, 0) <==> j in a { ShiftIn(a, 0, j); }
  }

  lemma ShiftEmpty(k: nat)
    ensures Shift({}, k) == {}
  {}

  /** The CRC of a buffer, by either form, is the remainder of init x^(8n) + M x^16. */
  lemma CrcIsRemainder(form: Form, init: Word, p: seq<Octet>)
    ensures Poly(CrcOf(form, init, p)) == Reduce(Dividend(init, p), 8 * |p| + 16)
  {
    hide Poly, CrcOf, Shift, Message;
    CrcCongruent(form, init, p);
    WordBelow(init);
    MessageBelow(p);
    ShiftBelow(Poly(init), 16, 8 * |p|);
    ShiftBelow(Message(p), 8 * |p|, 16);
    SumBelow(Shift(Poly(init), 8 * |p|), Shift(Message(p), 16), 8 * |p| + 16);
    WordBelow(CrcOf(form, init, p));
    RemainderUnique(Dividend(init, p), Poly(CrcOf(form, init, p)), 8 * |p| + 16);
  }

  // ----- consequences -----

  function XorBuf(p: seq<Octet>, q: seq<Octet>): (r: seq<Octet>)
    requires |p| == |q|
    ensures |r| == |p|
  {
    seq(|p|, i requires 0 <= i < |p| => Xor(p[i], q[i]))
  }

  lemma {:induction false} MessageXor(p: seq<Octet>, q: seq<Octet>)
    requires |p| == |q|
    ensures Message(XorBuf(p, q)) == Sum(Message(p), Message(q))
  {
    hide Poly, Shift, Xor;
    if p != [] {
      var p', q' := p[..|p| - 1], q[..|q| - 1];
      MessageXor(p', q');
      assert XorBuf(p, q)[..|p| - 1] == XorBuf(p', q');
      ShiftSum(Message(p'), Message(q'), 8);
      PolyXor(p[|p| - 1], q[|q| - 1]);
    }
  }

  /** The CRC is linear: the CRC of the xor of two buffers is the xor of their CRCs. */
  lemma CrcIsLinear(form: Form, i: Word, j: Word, p: seq<Octet>, q: seq<Octet>)
    requires |p| == |q|
    ensures CrcOf(form, Xor(i, j), XorBuf(p, q)) == Xor(CrcOf(form, i, p), CrcOf(form, j, q))
  {
    hide Poly, Shift, Xor, CrcOf, Message, Reduce;
    CrcIsRemainder(form, i, p);
    CrcIsRemainder(form, j, q);
    CrcIsRemainder(form, Xor(i, j), XorBuf(p, q));
    MessageXor(p, q);
    PolyXor(i, j);
    ShiftSum(Poly(i), Poly(j), 8 * |p|);
    ShiftSum(Message(p), Message(q), 16);
    SumsCross(Shift(Poly(i), 8 * |p|), Shift(Poly(j), 8 * |p|), Shift(Message(p), 16), Shift(Message(q), 16));
    ReduceSum(Dividend(i, p), Dividend(j, q), 8 * |p| + 16);
    PolyXor(CrcOf(form, i, p), CrcOf(form, j, q));
    PolySame(CrcOf(form, Xor(i, j), XorBuf(p, q)), Xor(CrcOf(form, i, p), CrcOf(form, j, q)));
  }

  lemma SumsCross(a: set<nat>, b: set<nat>, c: set<nat>, d: set<nat>)
    ensures Sum(Sum(a, b), Sum(c, d)) == Sum(Sum(a, c), Sum(b, d))
  {}

  /** The CRC of two buffers in a row. */
  lemma {:induction false} CrcJoins(form: Form, init: Word, p: seq<Octet>, q: seq<Octet>)
    ensures CrcOf(form, init, p + q) == CrcOf(form, CrcOf(form, init, p), q)
    decreases |q|
  {
    hide CrcByte;
    if q == [] {
      assert p + q == p;
    } else {
      CrcJoins(form, init, p, q[..|q| - 1]);
      assert (p + q)[..|p + q| - 1] == p + q[..|q| - 1];
    }
  }

  const ZERO: Word := [false, false, false, false, false, false, false, false,
                       false, false, false, false, false, false, false, false]

  lemma RoundInjective(c: Word, d: Word)
    requires Round(c) == Round(d)
    ensures c == d
  {
    assert Round(c)[0] == c[15] && Round(d)[0] == d[15];
    forall i | 0 <= i < 15 ensures c[i] == d[i] {
      assert Round(c)[i + 1] == (c[i] != (c[15] && Taps()[i + 1]));
      assert Round(d)[i + 1] == (d[i] != (d[15] && Taps()[i + 1]));
    }
  }

  lemma {:induction false} RoundsInjective(c: Word, d: Word, n: nat)
    requires Rounds(c, n) == Rounds(d, n)
    ensures c == d
  {
    hide Round;
    if n > 0 {
      RoundInjective(Rounds(c, n - 1), Rounds(d, n - 1));
      RoundsInjective(c, d, n - 1);
    }
  }

  /** As long as no bit gets to the top, rounds only shift. */
  lemma {:induction false} RoundsShift(b: Octet, n: nat)
    requires n <= 8
    ensures Rounds(Fit(b, 16), n) == Left(Fit(b, 16), n)
  {
    if n == 0 {
      assert Left(Fit(b, 16), 0) == Fit(b, 16);
    } else {
      RoundsShift(b, n - 1);
      var w := Left(Fit(b, 16), n - 1);
      assert !w[15];
      assert Left(w, 1) == Left(Fit(b, 16), n);
    }
  }

  /** A byte leads to zero exactly when it is what is in the high byte and the low byte is
      zero; and to a word with an empty low byte exactly when it is in the high byte. */
  lemma ByteToShifted(c: Word, a: Octet, b: Octet)
    ensures Xmodem(c, a) == Left(Fit(b, 16), 8) <==> c == Xor(Left(Fit(a, 16), 8), Fit(b, 16))
  {
    hide Rounds, Xor, Left, Fit;
    var s := Xor(c, Left(Fit(a, 16), 8));
    RoundsShift(b, 8);
    if Xmodem(c, a) == Left(Fit(b, 16), 8) { RoundsInjective(s, Fit(b, 16), 8); }
    XorMoves(c, Left(Fit(a, 16), 8), Fit(b, 16));
  }

  lemma XorMoves(a: Word, b: Word, c: Word)
    ensures Xor(a, b) == c <==> a == Xor(b, c)
  {
    if Xor(a, b) == c { forall i | 0 <= i < 16 ensures a[i] == Xor(b, c)[i] { assert Xor(a, b)[i] == c[i]; } }
    if a == Xor(b, c) { forall i | 0 <= i < 16 ensures Xor(a, b)[i] == c[i] { assert a[i] == Xor(b, c)[i]; } }
  }

  /** A buffer followed by its own CRC, high byte first, has a CRC of zero; followed by any
      other two bytes it has not. */
  lemma OwnCrcIsZero(form: Form, init: Word, p: seq<Octet>, hi: Octet, lo: Octet)
    ensures CrcOf(form, init, p + [hi, lo]) == ZERO <==>
            CrcOf(form, init, p) == Xor(Left(Fit(hi, 16), 8), Fit(lo, 16))
  {
    hide CrcOf, Xor, Left, Fit, Xmodem, Thierry;
    var c := CrcOf(form, init, p);
    CrcJoins(form, init, p, [hi, lo]);
    assert CrcOf(form, c, [hi, lo]) == CrcByte(form, CrcByte(form, c, hi), lo) by { TwoBytes(form, c, hi, lo); }
    FormsAgree(c, hi);
    FormsAgree(CrcByte(form, c, hi), lo);
    var none: Octet := [false, false, false, false, false, false, false, false];
    ByteToShifted(Xmodem(c, hi), lo, none);
    assert Left(Fit(none, 16), 8) == ZERO &&
           Xor(Left(Fit(lo, 16), 8), Fit(none, 16)) == Left(Fit(lo, 16), 8) by { NoneIsZero(lo); }
    ByteToShifted(c, hi, lo);
  }

  lemma TwoBytes(form: Form, c: Word, hi: Octet, lo: Octet)
    ensures CrcOf(form, c, [hi, lo]) == CrcByte(form, CrcByte(form, c, hi), lo)
  {
    hide CrcByte;
    var p, q: seq<Octet> := [hi, lo], [hi];
    assert p[..|p| - 1] == q && q[..|q| - 1] == [];
    assert CrcOf(form, c, q) == CrcByte(form, c, hi);
  }

  lemma NoneIsZero(lo: Octet)
    ensures var none: Octet := [false, false, false, false, false, false, false, false];
            Left(Fit(none, 16), 8) == ZERO && Xor(Left(Fit(lo, 16), 8), Fit(none, 16)) == Left(Fit(lo, 16), 8)
  {}

  // ----- the Forth form -----

  lemma ForthByteIs(c: Word, b: Octet)
    ensures ForthByte(Fit(c, 64), Fit(b, 64)) == Fit(Thierry(c, b), 64)
  {
    var w := Fit(c, 64);
    var x := Xor(SignedRight(w, 8), Fit(b, 64));
    var m := Low(Xor(Right(c, 8), Fit(b, 16)), 8);
    assert x == Fit(m, 64);
    var y, n := Xor(x, SignedRight(x, 4)), Xor(m, Right(m, 4));
    assert y == Fit(n, 64);
    assert Low(Left(w, 8), 16) == Fit(Left(c, 8), 64);
    assert Low(Left(y, 12), 16) == Fit(Left(n, 12), 64) && Low(Left(y, 5), 16) == Fit(Left(n, 5), 64);
  }

  /** The Forth form, started with a 16-bit value, is the same CRC. */
  lemma {:induction false} ForthAgrees(init: Word, p: seq<Octet>)
    ensures ForthOf(Fit(init, 64), p) == Fit(CrcOf(ThierryForm, init, p), 64)
  {
    hide ForthByte, Thierry, Fit;
    if p != [] {
      ForthAgrees(init, p[..|p| - 1]);
      ForthByteIs(CrcOf(ThierryForm, init, p[..|p| - 1]), p[|p| - 1]);
    }
  }

  // ----- the Forth form on whole cells -----

  predicate Clear(w: WideCell, lo: nat, hi: nat)
    requires hi <= 64
  {
    forall i :: lo <= i < hi ==> !w[i]
  }

  /** Bit i of what crc16-byte shifts and adds up. */
  predicate Folds(w: WideCell, b: WideCell, i: nat)
    requires i < 52
  {
    (w[i + 8] != b[i]) != (w[i + 12] != b[i + 4])
  }

  lemma ForthBit(w: WideCell, b: WideCell, i: nat)
    requires i < 64
    ensures i >= 16 ==> !ForthByte(w, b)[i]
    ensures i < 16 ==> ForthByte(w, b)[i] ==
                       (((i >= 8 && w[i - 8]) != (i >= 12 && Folds(w, b, i - 12)))
                        != ((i >= 5 && Folds(w, b, i - 5)) != Folds(w, b, i)))
  {
    var x := Xor(SignedRight(w, 8), b);
    var y := Xor(x, SignedRight(x, 4));
    assert forall j :: 0 <= j < 52 ==> y[j] == Folds(w, b, j);
  }

  /** Cells with the same 16 low bits and the same CRC have the same bits folded in. */
  lemma {:induction false} SameFolds(v: WideCell, w: WideCell, b: WideCell, i: nat)
    requires ForthByte(v, b) == ForthByte(w, b) && Fit(v, 16) == Fit(w, 16) && i < 16
    ensures Folds(v, b, i) == Folds(w, b, i)
    decreases i
  {
    hide ForthByte, Folds;
    ForthBit(v, b, i);
    ForthBit(w, b, i);
    if i >= 5 { SameFolds(v, w, b, i - 5); }
    if i >= 8 { assert v[i - 8] == Fit(v, 16)[i - 8] && w[i - 8] == Fit(w, 16)[i - 8]; }
    if i >= 12 { SameFolds(v, w, b, i - 12); }
  }

  lemma {:induction false} SameHighBit(v: WideCell, w: WideCell, b: WideCell, i: nat)
    requires ForthByte(v, b) == ForthByte(w, b) && Fit(v, 16) == Fit(w, 16) && i < 28
    ensures v[i] == w[i]
  {
    hide ForthByte;
    if i < 16 {
      assert v[i] == Fit(v, 16)[i] && w[i] == Fit(w, 16)[i];
    } else {
      SameFolds(v, w, b, i - 12);
      SameHighBit(v, w, b, i - 4);
    }
  }

  /** The C code cuts the value it starts from down to 16 bits; the Forth code lets the
      twelve bits above them into the result, and no others. */
  lemma ForthByteExact(init: WideCell, b: Octet)
    ensures ForthByte(init, Fit(b, 64)) == Fit(Thierry(Fit(init, 16), b), 64) <==> Clear(init, 16, 28)
  {
    hide ForthByte, Thierry;
    var low, c := Fit(Fit(init, 16), 64), Fit(b, 64);
    ForthByteIs(Fit(init, 16), b);
    assert Fit(low, 16) == Fit(init, 16);
    if ForthByte(init, c) == ForthByte(low, c) {
      forall i | 16 <= i < 28 ensures !init[i] { SameHighBit(init, low, c, i); }
    }
    if Clear(init, 16, 28) {
      var f, g := ForthByte(init, c), ForthByte(low, c);
      forall i | 0 <= i < 64 ensures f[i] == g[i] {
        ForthBit(init, c, i);
        ForthBit(low, c, i);
      }
    }
  }

  lemma ForthIsShort(w: WideCell, b: WideCell)
    ensures ForthByte(w, b) == Fit(Fit(ForthByte(w, b), 16), 64)
  {
    hide ForthByte;
    forall i | 16 <= i < 64 ensures !ForthByte(w, b)[i] { ForthBit(w, b, i); }
  }

  /** The byte step does not lose anything. */
  lemma ThierryInjective(c: Word, d: Word, b: Octet)
    ensures Thierry(c, b) == Thierry(d, b) <==> c == d
  {
    hide Thierry, Rounds;
    FormsAgree(c, b);
    FormsAgree(d, b);
    var s := Left(Fit(b, 16), 8);
    if Xmodem(c, b) == Xmodem(d, b) {
      RoundsInjective(Xor(c, s), Xor(d, s), 8);
      XorMoves(c, s, Xor(c, s));
      XorMoves(d, s, Xor(c, s));
    }
  }

  /** Started with any cell, the Forth form computes the CRC that the C form computes from the
      cell's low 16 bits if and only if the next twelve are clear; over an empty buffer, if
      and only if all the others are. */
  lemma {:induction false} ForthExact(init: WideCell, p: seq<Octet>)
    ensures ForthOf(init, p) == Fit(CrcOf(ThierryForm, Fit(init, 16), p), 64) <==>
            Clear(init, 16, if p == [] then 64 else 28)
  {
    hide ForthByte, Thierry;
    if p == [] {
      if init == Fit(Fit(init, 16), 64) { assert forall i :: 16 <= i < 64 ==> !init[i]; }
      if Clear(init, 16, 64) { assert init == Fit(Fit(init, 16), 64); }
    } else if |p| == 1 {
      assert p[..0] == [];
      ForthByteExact(init, p[0]);
    } else {
      var q, b := p[..|p| - 1], p[|p| - 1];
      ForthExact(init, q);
      var v := ForthOf(init, q);
      ForthIsShort(ForthOf(init, q[..|q| - 1]), Fit(q[|q| - 1], 64));
      var c, d := Fit(v, 16), CrcOf(ThierryForm, Fit(init, 16), q);
      ForthByteIs(c, b);
      ThierryInjective(c, d, b);
      FitExact(c, d);
      FitExact(Thierry(c, b), Thierry(d, b));
    }
  }

  lemma FitExact(c: Word, d: Word)
    ensures Fit(c, 64) == Fit(d, 64) <==> c == d
  {
    if Fit(c, 64) == Fit(d, 64) {
      forall i | 0 <= i < 16 ensures c[i] == d[i] { assert Fit(c, 64)[i] == c[i]; }
    }
  }
}
