/** The text of a number, as # #s #sep and sign build it, and what reading it gives back. */
module NumberText {
  import opened Bytes
  import opened Cells
  import opened Numbers

  /** Where reading cannot go on, the text is not accepted. */
  lemma Refused(t: seq<Byte>, b: nat, i: nat, radix: Cell)
    requires b <= i <= |t|
    requires Scanned(START, t[b..i], radix).Scanning?
    requires if i == |t| then Scanned(START, t[b..i], radix).due
             else Step(Scanned(START, t[b..i], radix), t[i], radix).Bad?
    ensures var s := Scanned(START, t[b..], radix); s.Bad? || s.due
    ensures i < |t| ==> Scanned(START, t[b..i + 1], radix).Bad?
  {
    hide Scanned, Step;
    if i == |t| {
      assert t[b..i] == t[b..];
    } else {
      OneMore(START, t, b, i, radix);
      ScanJoin(START, t[b..i + 1], t[i + 1..], radix);
      assert t[b..i + 1] + t[i + 1..] == t[b..];
      BadStays(t[i + 1..], radix);
    }
  }

  lemma OneMore(s: Scan, t: seq<Byte>, b: nat, i: nat, radix: Cell)
    requires b <= i < |t|
    ensures Scanned(s, t[b..i + 1], radix) == Step(Scanned(s, t[b..i], radix), t[i], radix)
  {
    hide Step;
    assert t[b..i + 1][..i - b] == t[b..i];
  }

  lemma PunctStep(t: seq<Byte>, b: nat, i: nat, accum: Cell, dpl: Cell, radix: Cell)
    requires b <= i < |t| && Scanned(START, t[b..i], radix) == Scanning(accum, dpl, false)
    requires IsPunct(t[i]) && !TakenAsDigit(t[i], radix)
    ensures Scanned(START, t[b..i + 1], radix) == Scanning(accum, if t[i] == DOT then 0 else dpl, true)
  {
    hide Scanned, TakenAsDigit, IsPunct;
    OneMore(START, t, b, i, radix);
  }

  lemma NoStep(t: seq<Byte>, b: nat, i: nat, radix: Cell)
    requires b <= i < |t| && Scanned(START, t[b..i], radix).Scanning? && !TakenAsDigit(t[i], radix)
    requires Scanned(START, t[b..i], radix).due || !IsPunct(t[i])
    ensures Step(Scanned(START, t[b..i], radix), t[i], radix).Bad?
  {}

  lemma Through(t: seq<Byte>, b: nat, i: nat, j: nat, radix: Cell)
    requires b <= i <= j <= |t|
    ensures Scanned(START, t[b..j], radix) == Scanned(Scanned(START, t[b..i], radix), t[i..j], radix)
  {
    hide Scanned, Step;
    ScanJoin(START, t[b..i], t[i..j], radix);
    assert t[b..i] + t[i..j] == t[b..j];
  }

  lemma AllScanned(t: seq<Byte>, radix: Cell, accum: Cell, dpl: Cell)
    requires Scanned(START, t[BodyAt(t)..|t|], UsedRadix(t, radix)) == Scanning(accum, dpl, false)
    ensures Accepts(t, radix) && Result(t, radix) == (if Negated(t) then Sub(0, accum) else accum)
    ensures BodyScan(t, radix).dpl == dpl
  {
    hide Scanned, BodyAt, UsedRadix;
    assert t[BodyAt(t)..|t|] == t[BodyAt(t)..];
  }

  lemma NothingScanned(s: Scan, t: seq<Byte>, i: nat, radix: Cell)
    requires i <= |t|
    ensures Scanned(s, t[i..i], radix) == s
  {}

  // ----- writing -----

  /** >digit, and c! keeping the low byte. */
  function Digit(d: nat): Byte { (d + (if d > 9 then 39 else 0) + 48) % 256 }

  predicate SepDue(radix: nat, on: bool, count: nat)
  {
    on && if radix == 10 then count % 4 == 3 else count % 5 == 4
  }

  /** ?sep  A comma or an underline when count characters are already there. */
  function Separator(radix: nat, on: bool, count: nat): (s: seq<Byte>)
    ensures |s| <= 1
  {
    if SepDue(radix, on, count) then [if radix == 10 then 44 else 95] else []
  }

  /** u/mod */
  function Quotient(u: nat, radix: nat): (q: nat)
    requires radix >= 2
    ensures u > 0 ==> q < u && q <= u / 2
    ensures u == 0 ==> q == 0
  {
    if u > 0 then QuotientLess(u, radix); u / radix else 0
  }

  function Remainder(u: nat, radix: nat): (m: nat)
    requires radix >= 2
    ensures m < radix && u == Quotient(u, radix) * radix + m
  {
    u % radix
  }

  lemma QuotientLess(u: nat, radix: nat)
    requires radix >= 2 && u > 0
    ensures u / radix < u && u / radix <= u / 2
  {
    Division(u, radix);
    Doubled(u / radix, radix);
  }

  lemma Division(u: nat, radix: nat)
    requires radix > 0
    ensures u == (u / radix) * radix + u % radix && u / radix >= 0
  {}

  lemma Doubled(q: nat, radix: nat)
    requires radix >= 2
    ensures q * radix >= q * 2
  {
    assert q * radix == q * (radix - 2) + q * 2;
    assert q * (radix - 2) >= 0;
  }

  /** #sep  The digits of u, and separators, in front of count characters. */
  function Digits(u: nat, radix: nat, on: bool, count: nat): (t: seq<Byte>)
    requires radix >= 2
    ensures t != []
    decreases u
  {
    var q, d := Quotient(u, radix), [Digit(Remainder(u, radix))];
    if q == 0 then d
    else
      var s := Separator(radix, on, count + 1);
      Digits(q, radix, on, count + 1 + |s|) + s + d
  }

  lemma DigitsUnfold(u: nat, radix: nat, on: bool, count: nat, held: seq<Byte>)
    requires radix >= 2
    ensures var q, d := Quotient(u, radix), [Digit(Remainder(u, radix))];
            var s := Separator(radix, on, count + 1);
            Digits(u, radix, on, count) + held ==
            if q == 0 then d + held else Digits(q, radix, on, count + 1 + |s|) + (s + (d + held))
  {
    hide Quotient, Remainder, Digit, Separator;
  }

  lemma HalfBelow(u: nat, q: nat, k: nat)
    requires 0 < q <= u / 2 && u < Pow2(k) && k > 0
    ensures k > 1 && q < Pow2(k - 1)
  {}

  /** abs: the most negative cell is its own absolute value. */
  function Abs(n: Cell): Cell { if n < 0 then Sub(0, n) else n }

  /** (u.) */
  function UnsignedText(u: nat, radix: nat, on: bool): seq<Byte>
    requires radix >= 2
  {
    Digits(u, radix, on, 0)
  }

  /** (.) */
  function SignedText(n: Cell, radix: nat, on: bool): seq<Byte>
    requires radix >= 2
  {
    (if n < 0 then [MINUS] else []) + Digits(Unsigned(Abs(n)), radix, on, 0)
  }

  /** Counting from the right, every fourth place is a comma in radix 10, or every fifth
      an underline in any other, and all other places are digits. */
  lemma {:induction false} SeparatorPlaces(u: nat, radix: nat, on: bool, count: nat, k: nat)
    requires 2 <= radix <= 36 && !SepDue(radix, on, count) && k < |Digits(u, radix, on, count)|
    ensures var t := Digits(u, radix, on, count);
            if SepDue(radix, on, count + k) then t[|t| - 1 - k] == (if radix == 10 then 44 else 95)
            else 0 <= DigitValue(t[|t| - 1 - k]) < radix
    decreases u
  {
    hide Remainder, Quotient, Digit, DigitValue;
    var q, s := Quotient(u, radix), Separator(radix, on, count + 1);
    DigitRead(Remainder(u, radix), radix);
    if q != 0 && k > |s| {
      SeparatorPlaces(q, radix, on, count + 1 + |s|, k - 1 - |s|);
    }
  }

  // ----- reading back what was written -----

  lemma DigitRead(d: nat, radix: nat)
    requires d < radix <= 36
    ensures DigitValue(Digit(d)) == d && DigitOf(Digit(d)) == d && TakenAsDigit(Digit(d), radix)
    ensures PrefixRadix(Digit(d)) == 0 && Digit(d) != MINUS
  {}

  lemma {:induction false} DigitsRead(u: nat, radix: nat, on: bool, count: nat)
    requires 2 <= radix <= 36
    ensures Scanned(START, Digits(u, radix, on, count), radix) == Scanning(Wrap(u), -1, false)
    ensures PrefixRadix(Digits(u, radix, on, count)[0]) == 0 && Digits(u, radix, on, count)[0] != MINUS
    decreases u
  {
    hide TakenAsDigit, Digit, DigitOf, Wrap, Remainder, Quotient, Scanned, Separator, PrefixRadix;
    var q, d := Quotient(u, radix), Remainder(u, radix);
    DigitRead(d, radix);
    if q == 0 {
      FirstDigit(u, radix);
    } else {
      var s := Separator(radix, on, count + 1);
      DigitsRead(q, radix, on, count + 1 + |s|);
      var t := Digits(q, radix, on, count + 1 + |s|);
      SeparatorRead(t, q, radix, on, count + 1);
      LastDigit(START, t + s, q, -1, d, radix);
    }
  }

  lemma FirstDigit(d: nat, radix: nat)
    requires d < radix <= 36
    ensures Scanned(START, [Digit(d)], radix) == Scanning(Wrap(d), -1, false)
  {
    assert [Digit(d)] == [] + [Digit(d)];
    LastDigit(START, [], 0, -1, d, radix);
  }

  lemma LastDigit(s: Scan, t: seq<Byte>, v: int, dpl: Cell, d: nat, radix: nat)
    requires d < radix <= 36 && dpl == -1
    requires Scanned(s, t, radix).Scanning? && Scanned(s, t, radix).accum == Wrap(v) && Scanned(s, t, radix).dpl == dpl
    ensures Scanned(s, t + [Digit(d)], radix) == Scanning(Wrap(v * radix + d), dpl, false)
  {
    hide Wrap, DigitOf, TakenAsDigit, Digit;
    assert (t + [Digit(d)])[..|t|] == t;
    DigitRead(d, radix);
    WrapMul(v, radix);
    assert Wrap(d) == d;
    WrapAdd(d, v * radix);
  }

  lemma SeparatorRead(t: seq<Byte>, v: int, radix: nat, on: bool, count: nat)
    requires 2 <= radix <= 36 && Scanned(START, t, radix) == Scanning(Wrap(v), -1, false)
    ensures var r := Scanned(START, t + Separator(radix, on, count), radix);
            r.Scanning? && r.accum == Wrap(v) && r.dpl == -1
  {
    hide Wrap;
    var s := Separator(radix, on, count);
    if s == [] {
      assert t + s == t;
    } else {
      assert (t + s)[..|t|] == t;
      DigitsTaken(s[0], radix);
    }
  }

  /** A text that starts with a digit, perhaps behind a minus sign, has no prefix. */
  lemma SignParts(negative: bool, d: seq<Byte>, radix: Cell)
    requires d != [] && PrefixRadix(d[0]) == 0 && d[0] != MINUS
    ensures var t := (if negative then [MINUS] else []) + d;
            UsedRadix(t, radix) == radix && Negated(t) == negative && t[BodyAt(t)..] == d
  {
    var t := (if negative then [MINUS] else []) + d;
    assert t[0] == if negative then MINUS else d[0];
    assert SkipPrefix(t) == 0;
    assert t[0..] == t;
    if negative { assert t[1..] == d; }
  }

  /** number? of the text of (u.) in the same radix gives back the same cell. */
  lemma UnsignedRoundTrip(u: nat, radix: nat, on: bool)
    requires 2 <= radix <= 36 && u < TWO64
    ensures var t := UnsignedText(u, radix, on);
            Accepts(t, radix) && Result(t, radix) == Wrap(u) && BodyScan(t, radix).dpl == -1
  {
    hide Digits, Scanned, PrefixRadix, UsedRadix, Negated, BodyAt;
    var d := Digits(u, radix, on, 0);
    var none: seq<Byte> := [];
    assert none + d == d;
    DigitsRead(u, radix, on, 0);
    SignParts(false, d, radix);
  }

  /** number? of the text of (.) gives back n, for every cell n, the most negative too. */
  lemma SignedRoundTrip(n: Cell, radix: nat, on: bool)
    requires 2 <= radix <= 36
    ensures var t := SignedText(n, radix, on);
            Accepts(t, radix) && Result(t, radix) == n && BodyScan(t, radix).dpl == -1
  {
    hide Digits, Scanned, PrefixRadix, UsedRadix, Negated, BodyAt;
    var u := Unsigned(Abs(n));
    DigitsRead(u, radix, on, 0);
    SignParts(n < 0, Digits(u, radix, on, 0), radix);
    assert n < 0 ==> Sub(0, Wrap(u)) == n;
  }
}
