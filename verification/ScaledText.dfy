/** Reading and printing fixed-point numbers: the words from scale to (sc.) in
    mu/lib/scaled.mu4, with number? before them and pictured output behind. */
module ScaledText {
  import opened Bytes
  import opened Cells
  import opened Numbers
  import opened NumberText
  import opened NumberWords
  import opened Scaled

  /** The last f digits of u. */
  function Fraction(u: nat, f: nat, radix: nat): seq<Byte>
    requires radix >= 2
  {
    if f == 0 then [] else Fraction(Quotient(u, radix), f - 1, radix) + [Digit(Remainder(u, radix))]
  }

  /** What is in front of them. */
  function Whole(u: nat, f: nat, radix: nat): nat
    requires radix >= 2
  {
    if f == 0 then u else Whole(Quotient(u, radix), f - 1, radix)
  }

  /** n.f  The text of n with a dot before its last f digits. */
  function PointText(n: Cell, f: nat, radix: nat): seq<Byte>
    requires radix >= 2
  {
    var u := Unsigned(Abs(n));
    (if n < 0 then [MINUS] else []) + Digits(Whole(u, f, radix), radix, false, f + 1) + [DOT] + Fraction(u, f, radix)
  }

  // ----- reading it back -----

  lemma {:induction false} PointScanned(u: nat, f: nat, radix: nat, count: nat)
    requires 2 <= radix <= 36 && f < TWO63
    ensures Scanned(START, Digits(Whole(u, f, radix), radix, false, count) + [DOT] + Fraction(u, f, radix), radix) ==
            Scanning(Wrap(u), f, f == 0)
  {
    hide Scanned, Wrap, Digits, Digit, Quotient, Remainder, Step;
    var front := Digits(Whole(u, f, radix), radix, false, count) + [DOT];
    if f == 0 {
      DigitsRead(u, radix, false, count);
      DotScanned(Digits(u, radix, false, count), u, radix);
      assert front + [] == front;
    } else {
      var q, d := Quotient(u, radix), Remainder(u, radix);
      PointScanned(q, f - 1, radix, count);
      var t := front + Fraction(q, f - 1, radix);
      assert front + (Fraction(q, f - 1, radix) + [Digit(d)]) == t + [Digit(d)];
      FractionDigit(t, q, f - 1, d, radix);
    }
  }

  lemma DotScanned(t: seq<Byte>, v: int, radix: nat)
    requires 2 <= radix <= 36 && Scanned(START, t, radix) == Scanning(Wrap(v), -1, false)
    ensures Scanned(START, t + [DOT], radix) == Scanning(Wrap(v), 0, true)
  {
    hide Wrap;
    assert (t + [DOT])[..|t|] == t;
    DigitsTaken(DOT, radix);
  }

  lemma FractionDigit(t: seq<Byte>, v: int, f: nat, d: nat, radix: nat)
    requires d < radix <= 36 && f + 1 < TWO63
    requires Scanned(START, t, radix) == Scanning(Wrap(v), f, f == 0)
    ensures Scanned(START, t + [Digit(d)], radix) == Scanning(Wrap(v * radix + d), f + 1, false)
  {
    hide Wrap, DigitOf, TakenAsDigit, Digit;
    assert (t + [Digit(d)])[..|t|] == t;
    DigitRead(d, radix);
    WrapMul(v, radix);
    assert Wrap(d) == d && Wrap(f + 1) == f + 1;
    WrapAdd(d, v * radix);
  }

  /** number? reads what n.f prints back as the same number with the same decimal places,
      if and only if there are any: with none the text ends in a dot, which is refused. */
  lemma PointReadsBack(n: Cell, f: nat, radix: nat)
    requires 2 <= radix <= 36 && f < TWO63
    ensures Accepts(PointText(n, f, radix), radix) <==> f > 0
    ensures f > 0 ==> Result(PointText(n, f, radix), radix) == n && BodyScan(PointText(n, f, radix), radix).dpl == f
  {
    hide Digits, Fraction, Whole, Scanned, PrefixRadix, UsedRadix, Negated, BodyAt;
    var u := Unsigned(Abs(n));
    var whole := Digits(Whole(u, f, radix), radix, false, f + 1);
    var body := whole + [DOT] + Fraction(u, f, radix);
    PointScanned(u, f, radix, f + 1);
    DigitsRead(Whole(u, f, radix), radix, false, f + 1);
    assert body[0] == whole[0];
    SignParts(n < 0, body, radix);
    assert PointText(n, f, radix) == (if n < 0 then [MINUS] else []) + body;
    assert n < 0 ==> Sub(0, Wrap(u)) == n;
  }

  // ----- the words -----

  /** scale and >sc  ( n - scaled)  dpl is read once. */
  method ToScaled(r: Reader, n: Cell) returns (sc: Cell)
    requires r.dpl < 64
    modifies r`dpl
    ensures r.dpl == if old(r.dpl) < 0 then old(r.dpl) else -1
    ensures var f := if old(r.dpl) < 0 then 0 else old(r.dpl); Power(f) != 0 && sc == ScDivide(n, Power(f))
  {
    var d: Cell := 1;
    if r.dpl >= 0 {
      PowerZero(r.dpl);
      d := Exp10(r.dpl);
      r.dpl := -1;
    }
    sc := ScDivide(n, d);
  }

  lemma FractionUnfold(u: nat, f: nat, radix: nat, held: seq<Byte>)
    requires radix >= 2 && f > 0
    ensures Whole(u, f, radix) == Whole(Quotient(u, radix), f - 1, radix)
    ensures Fraction(u, f, radix) + held ==
            Fraction(Quotient(u, radix), f - 1, radix) + ([Digit(Remainder(u, radix))] + held)
  {
    hide Digit, Quotient, Remainder;
  }

  lemma NoFraction(u: nat, radix: nat, held: seq<Byte>)
    requires radix >= 2
    ensures Fraction(u, 0, radix) + held == held && Whole(u, 0, radix) == u
  {}

  /** The loop of n.f: the last f digits of u, lowest first. */
  method FractionDigits(w: Writer, f: nat, u: nat) returns (rest: nat)
    requires w.Ok() && Unsigned(w.radix) >= 2 && f <= w.hld && u < TWO64
    modifies w`hld, w.pad
    ensures w.Ok() && w.hld == old(w.hld) - f && rest <= u && rest == Whole(u, f, Unsigned(w.radix))
    ensures w.Held() == Fraction(u, f, Unsigned(w.radix)) + old(w.Held())
  {
    hide Digit, Quotient, Remainder, Fraction, Whole, Unsigned;
    ghost var radix, was := Unsigned(w.radix), w.Held();
    rest := u;
    for k := 0 to f
      invariant w.Ok() && w.hld == old(w.hld) - k && 0 <= rest <= u
      invariant Fraction(rest, f - k, radix) + w.Held() == Fraction(u, f, radix) + was
      invariant Whole(rest, f - k, radix) == Whole(u, f, radix)
    {
      FractionUnfold(rest, f - k, radix, w.Held());
      rest := w.Sharp(rest);
    }
    NoFraction(rest, radix, w.Held());
  }

  /** n.f  ( f n - a #) */
  method PointDot(w: Writer, f: nat, n: Cell) returns (text: seq<Byte>)
    requires w.Ok() && Unsigned(w.radix) >= 2 && f < 800
    modifies w`hld, w`num, w.pad
    ensures w.Ok() && text == PointText(n, f, Unsigned(w.radix))
  {
    hide Digits, Fraction, Whole, Abs, PointText, Unsigned;
    w.Start();
    var u := FractionDigits(w, f, Unsigned(Abs(n)));
    w.Hold(DOT);
    w.SharpS(u);
    PointJoined(n, f, Unsigned(w.radix), w.Held());
    if n < 0 { w.Hold(MINUS); }
    text := w.pad[w.hld..];
  }

  lemma PointJoined(n: Cell, f: nat, radix: nat, body: seq<Byte>)
    requires radix >= 2
    requires var u := Unsigned(Abs(n));
             body == Digits(Whole(u, f, radix), radix, false, f + 1) + ([DOT] + (Fraction(u, f, radix) + []))
    ensures PointText(n, f, radix) == if n < 0 then [MINUS] + body else body
  {
    hide Digits, Fraction, Whole;
  }

  /** (sc.)  ( sc f - a #) */
  method ScaledDot(w: Writer, sc: Cell, f: nat) returns (text: seq<Byte>)
    requires w.Ok() && Unsigned(w.radix) >= 2 && f < 800
    modifies w`hld, w`num, w.pad
    ensures w.Ok() && text == PointText(ScTimes(sc, Power(f)), f, Unsigned(w.radix))
  {
    var d := Exp10(f);
    text := PointDot(w, f, ScTimes(sc, d));
  }

  /** A number with one to eight decimal places, read, converted to fixed point, converted
      back and printed with as many places, is printed as the same number if and only if it
      has 28 bits to spare. */
  method ReadScalePrint(t: seq<Byte>, radix: Cell) returns (printed: seq<Byte>)
    requires 2 <= radix <= 36 && Accepts(t, radix)
    requires 1 <= BodyScan(t, radix).dpl <= 8
    ensures Accepts(printed, radix) && (Result(printed, radix) == Result(t, radix) <==> InRange(Result(t, radix)))
    ensures BodyScan(printed, radix).dpl == BodyScan(t, radix).dpl
  {
    hide Accepts, Result, BodyScan, PointText, ScTimes, ScDivide, Power;
    var r := new Reader(radix);
    var good, n, at := r.Number(t);
    var f: nat := r.dpl;
    ExactToEightPlaces(n, f, f);
    var sc := ToScaled(r, n);
    var w := new Writer(radix, false);
    printed := ScaledDot(w, sc, f);
    PointReadsBack(ScTimes(sc, Power(f)), f, radix);
  }
}
