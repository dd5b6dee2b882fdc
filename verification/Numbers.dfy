/** Reading numbers: the words from punct to number? in startup.mu4, and the notation
    they accept. */
module Numbers {
  import opened Bytes
  import opened Cells

  // ----- characters -----

  const DOT: Byte := 46
  const MINUS: Byte := 45

  /** What dot? lets through between digits:  . , - / : _ */
  predicate IsPunct(ch: Byte) { ch in [46, 44, 45, 47, 58, 95] }

  /** digit>  The value of a character as a digit, or junk. */
  function DigitOf(ch: Byte): Cell
  {
    var d := ch - 48;
    if Unsigned(d) <= 9 then d
    else if Unsigned(d - 17) <= 25 then d - 17 + 10
    else if Unsigned(d - 49) <= 25 then d - 49 + 10
    else d - 49
  }

  /** digit? */
  predicate TakenAsDigit(ch: Byte, radix: Cell) { Unsigned(DigitOf(ch)) < Unsigned(radix) }

  /** What a digit is: 0 to 9, then letters of either case. */
  function DigitValue(ch: Byte): int
  {
    if 48 <= ch <= 57 then ch - 48
    else if 65 <= ch <= 90 then ch - 55
    else if 97 <= ch <= 122 then ch - 87
    else -1
  }

  predicate IsDigit(ch: Byte, radix: Cell) { 0 <= DigitValue(ch) < Unsigned(radix) }

  /** digit? takes digits, and the characters above z that are junk below the radix. */
  lemma DigitsTaken(ch: Byte, radix: Cell)
    requires 0 <= radix <= TWO63 - 1
    ensures TakenAsDigit(ch, radix) <==> IsDigit(ch, radix) || 123 <= ch < 97 + radix
    ensures IsDigit(ch, radix) ==> DigitOf(ch) == DigitValue(ch)
  {}

  // ----- one character after another -----

  /** Between digits while reading: the number so far, the count of digits after the last
      dot, and whether a digit is due next. */
  datatype Scan = Scanning(accum: Cell, dpl: Cell, due: bool) | Bad

  function Step(s: Scan, ch: Byte, radix: Cell): Scan
  {
    if s.Bad? then Bad
    else if TakenAsDigit(ch, radix) then
      Scanning(Add(DigitOf(ch), Mul(s.accum, radix)), Add(s.dpl, if s.dpl < 0 then 0 else 1), false)
    else if IsPunct(ch) && !s.due then Scanning(s.accum, if ch == DOT then 0 else s.dpl, true)
    else Bad
  }

  function Scanned(s: Scan, t: seq<Byte>, radix: Cell): Scan
  {
    if t == [] then s else Step(Scanned(s, t[..|t| - 1], radix), t[|t| - 1], radix)
  }

  const START: Scan := Scanning(0, -1, true)

  lemma {:induction false} ScanJoin(s: Scan, x: seq<Byte>, y: seq<Byte>, radix: Cell)
    ensures Scanned(s, x + y, radix) == Scanned(Scanned(s, x, radix), y, radix)
  {
    hide Step;
    if y == [] {
      assert x + y == x;
    } else {
      ScanJoin(s, x, y[..|y| - 1], radix);
      assert (x + y)[..|x + y| - 1] == x + y[..|y| - 1];
    }
  }

  lemma {:induction false} BadStays(t: seq<Byte>, radix: Cell)
    ensures Scanned(Bad, t, radix) == Bad
  {
    if t != [] { BadStays(t[..|t| - 1], radix); }
  }

  // ----- prefix and sign -----

  /** The radix a prefix character selects, or none. */
  function PrefixRadix(ch: Byte): Cell
  {
    if ch == 34 then 16 else if ch == 39 then 8 else if ch == 36 then 16
    else if ch == 35 then 10 else if ch == 37 then 2
    else 0
  }

  function SkipPrefix(t: seq<Byte>): (i: nat)
    ensures i <= |t|
  {
    if t != [] && PrefixRadix(t[0]) != 0 then 1 else 0
  }

  function UsedRadix(t: seq<Byte>, radix: Cell): Cell
  {
    if SkipPrefix(t) == 1 then PrefixRadix(t[0]) else radix
  }

  predicate HasSign(t: seq<Byte>) { t != [] && t[0] == MINUS }

  /** Where the digits start. */
  function BodyAt(t: seq<Byte>): (i: nat)
    ensures i <= |t|
  {
    var p := SkipPrefix(t);
    if HasSign(t[p..]) then p + 1 else p
  }

  function Negated(t: seq<Byte>): bool { BodyAt(t) > SkipPrefix(t) }

  function BodyScan(t: seq<Byte>, radix: Cell): Scan
  {
    Scanned(START, t[BodyAt(t)..], UsedRadix(t, radix))
  }

  predicate Accepts(t: seq<Byte>, radix: Cell)
  {
    var s := BodyScan(t, radix);
    s.Scanning? && !s.due
  }

  function Result(t: seq<Byte>, radix: Cell): Cell
    requires Accepts(t, radix)
  {
    var s := BodyScan(t, radix);
    if Negated(t) then Sub(0, s.accum) else s.accum
  }

  // ----- the notation -----

  datatype Group = Group(sep: Byte, digits: seq<Byte>)

  /** [radix prefix] [-] digits (punctuation digits)*  */
  datatype Numeral = Numeral(prefix: seq<Byte>, negative: bool, first: seq<Byte>, rest: seq<Group>)

  predicate AreDigits(ds: seq<Byte>, radix: Cell) { ds != [] && forall i :: 0 <= i < |ds| ==> IsDigit(ds[i], radix) }

  predicate GoodGroup(g: Group, radix: Cell) { IsPunct(g.sep) && AreDigits(g.digits, radix) }

  predicate GoodBody(first: seq<Byte>, rest: seq<Group>, radix: Cell)
  {
    AreDigits(first, radix) && forall i :: 0 <= i < |rest| ==> GoodGroup(rest[i], radix)
  }

  function RadixOf(n: Numeral, radix: Cell): Cell
  {
    if n.prefix != [] then PrefixRadix(n.prefix[0]) else radix
  }

  predicate WellFormed(n: Numeral, radix: Cell)
  {
    |n.prefix| <= 1 && (n.prefix != [] ==> PrefixRadix(n.prefix[0]) != 0)
    && GoodBody(n.first, n.rest, RadixOf(n, radix))
  }

  function Body(first: seq<Byte>, rest: seq<Group>): seq<Byte>
  {
    if rest == [] then first
    else Body(first, rest[..|rest| - 1]) + [rest[|rest| - 1].sep] + rest[|rest| - 1].digits
  }

  /** The text of a numeral. */
  function Text(n: Numeral): seq<Byte>
  {
    n.prefix + (if n.negative then [MINUS] else []) + Body(n.first, n.rest)
  }

  /** Digits in positional notation. */
  function ValueOf(acc: int, ds: seq<Byte>, radix: int): int
  {
    if ds == [] then acc else ValueOf(acc, ds[..|ds| - 1], radix) * radix + DigitValue(ds[|ds| - 1])
  }

  function BodyValue(first: seq<Byte>, rest: seq<Group>, radix: int): int
  {
    if rest == [] then ValueOf(0, first, radix)
    else ValueOf(BodyValue(first, rest[..|rest| - 1], radix), rest[|rest| - 1].digits, radix)
  }

  /** The number a numeral stands for. */
  function Value(n: Numeral, radix: Cell): int
  {
    var v := BodyValue(n.first, n.rest, RadixOf(n, radix));
    if n.negative then -v else v
  }

  /** The count of digits after the last dot; -1 without a dot. */
  function Places(rest: seq<Group>): int
  {
    if rest == [] then -1
    else
      var g := rest[|rest| - 1];
      var before := Places(rest[..|rest| - 1]);
      if g.sep == DOT then |g.digits| else if before < 0 then -1 else before + |g.digits|
  }

  // ----- every numeral is accepted, with its value -----

  /** Digits read after acc. */
  lemma {:induction false} DigitsScan(acc: int, dpl: Cell, due: bool, ds: seq<Byte>, radix: Cell)
    requires 0 <= radix && AreDigits(ds, radix)
    requires dpl == -1 || (0 <= dpl && dpl + |ds| < TWO63)
    ensures Scanned(Scanning(Wrap(acc), dpl, due), ds, radix) ==
            Scanning(Wrap(ValueOf(acc, ds, radix)), if dpl < 0 then -1 else dpl + |ds|, false)
  {
    var init, ch := ds[..|ds| - 1], ds[|ds| - 1];
    assert IsDigit(ch, radix);
    DigitsTaken(ch, radix);
    var before := ValueOf(acc, init, radix);
    if init != [] { DigitsScan(acc, dpl, due, init, radix); }
    WrapMul(before, radix);
    WrapAdd(DigitValue(ch), before * radix);
  }

  lemma {:induction false} PlacesBound(first: seq<Byte>, rest: seq<Group>)
    ensures -1 <= Places(rest) <= |Body(first, rest)|
  {
    if rest != [] { PlacesBound(first, rest[..|rest| - 1]); }
  }

  predicate Reads(s: Scan, v: int, places: int) { s.Scanning? && s.accum == Wrap(v) && s.dpl == places && !s.due }

  lemma {:induction false} BodyScans(first: seq<Byte>, rest: seq<Group>, radix: Cell)
    requires 0 <= radix && GoodBody(first, rest, radix) && |Body(first, rest)| < TWO63
    ensures Reads(Scanned(START, Body(first, rest), radix), BodyValue(first, rest, radix), Places(rest))
  {
    hide TakenAsDigit, AreDigits, ValueOf;
    PlacesBound(first, rest);
    if rest == [] {
      DigitsScan(0, -1, true, first, radix);
    } else {
      var init, g := rest[..|rest| - 1], rest[|rest| - 1];
      assert GoodGroup(g, radix);
      assert GoodBody(first, init, radix) by { assert forall i :: 0 <= i < |init| ==> init[i] == rest[i]; }
      BodyScans(first, init, radix);
      PlacesBound(first, init);
      var v, p := BodyValue(first, init, radix), Places(init);
      PunctScan(first, init, g.sep, v, p, radix);
      ScanJoin(START, Body(first, init) + [g.sep], g.digits, radix);
      DigitsScan(v, if g.sep == DOT then 0 else p, true, g.digits, radix);
    }
  }

  lemma PunctScan(first: seq<Byte>, init: seq<Group>, sep: Byte, v: int, p: Cell, radix: Cell)
    requires 0 <= radix && IsPunct(sep)
    requires Scanned(START, Body(first, init), radix) == Scanning(Wrap(v), p, false)
    ensures Scanned(START, Body(first, init) + [sep], radix) == Scanning(Wrap(v), if sep == DOT then 0 else p, true)
  {
    var t := Body(first, init) + [sep];
    assert t[..|t| - 1] == Body(first, init);
    DigitsTaken(sep, radix);
  }

  /** A digit or a numeral's first character is neither a prefix nor a sign. */
  lemma {:induction false} BodyStart(first: seq<Byte>, rest: seq<Group>, radix: Cell)
    requires AreDigits(first, radix)
    ensures Body(first, rest) != [] && Body(first, rest)[0] == first[0] && DigitValue(first[0]) >= 0
  {
    assert IsDigit(first[0], radix);
    if rest != [] { BodyStart(first, rest[..|rest| - 1], radix); }
  }

  lemma TextParts(n: Numeral, radix: Cell)
    requires WellFormed(n, radix)
    ensures var t := Text(n);
            SkipPrefix(t) == |n.prefix| && UsedRadix(t, radix) == RadixOf(n, radix)
            && Negated(t) == n.negative && t[BodyAt(t)..] == Body(n.first, n.rest)
  {
    BodyStart(n.first, n.rest, RadixOf(n, radix));
    var t, b := Text(n), Body(n.first, n.rest);
    var sign := if n.negative then [MINUS] else [];
    assert t[|n.prefix|..] == sign + b;
    if n.prefix != [] { assert t[0] == n.prefix[0]; }
    assert (sign + b)[|sign|..] == b;
    assert t[|n.prefix| + |sign|..] == b;
  }

  lemma BodyShorter(n: Numeral, radix: Cell)
    requires WellFormed(n, radix)
    ensures |Body(n.first, n.rest)| <= |Text(n)| && GoodBody(n.first, n.rest, RadixOf(n, radix))
    ensures 0 <= radix ==> 0 <= RadixOf(n, radix)
  {}

  /** number? accepts every numeral, with its value modulo 2^64 and its decimal places. */
  lemma NumeralAccepted(n: Numeral, radix: Cell)
    requires 0 <= radix && WellFormed(n, radix) && |Text(n)| < TWO63
    ensures Accepts(Text(n), radix) && Result(Text(n), radix) == Wrap(Value(n, radix))
    ensures BodyScan(Text(n), radix).dpl == Places(n.rest)
  {
    hide BodyValue, Places, Scanned, Body, WellFormed, Text;
    TextParts(n, radix);
    BodyShorter(n, radix);
    BodyScans(n.first, n.rest, RadixOf(n, radix));
    var v := BodyValue(n.first, n.rest, RadixOf(n, radix));
    WrapAdd(0, v);
  }

  // ----- and nothing else is, up to radix 26 -----

  /** The groups a body that scans is made of. */
  lemma {:induction false} BodyFound(t: seq<Byte>, radix: Cell) returns (first: seq<Byte>, rest: seq<Group>)
    requires 0 <= radix <= 26
    requires Scanned(START, t, radix).Scanning? && !Scanned(START, t, radix).due
    ensures GoodBody(first, rest, radix) && Body(first, rest) == t
  {
    hide TakenAsDigit, AreDigits;
    var init, ch := t[..|t| - 1], t[|t| - 1];
    assert t == init + [ch];
    DigitsTaken(ch, radix);
    if init == [] {
      first, rest := [ch], [];
      OneDigit(ch, radix);
    } else if !Scanned(START, init, radix).due {
      first, rest := BodyFound(init, radix);
      first, rest := MoreDigits(first, rest, ch, radix);
    } else {
      var body, sep := init[..|init| - 1], init[|init| - 1];
      assert init == body + [sep];
      first, rest := BodyFound(body, radix);
      var g := Group(sep, [ch]);
      OneDigit(ch, radix);
      assert (rest + [g])[..|rest|] == rest;
      rest := rest + [g];
      assert t == body + [sep] + [ch];
    }
  }

  lemma OneDigit(ch: Byte, radix: Cell)
    requires IsDigit(ch, radix)
    ensures AreDigits([ch], radix)
  {}

  lemma MoreDigits(first: seq<Byte>, rest: seq<Group>, ch: Byte, radix: Cell) returns (f: seq<Byte>, r: seq<Group>)
    requires GoodBody(first, rest, radix) && IsDigit(ch, radix)
    ensures GoodBody(f, r, radix) && Body(f, r) == Body(first, rest) + [ch]
  {
    if rest == [] {
      f, r := first + [ch], [];
    } else {
      var init, g := rest[..|rest| - 1], rest[|rest| - 1];
      assert GoodGroup(g, radix);
      f, r := first, init + [Group(g.sep, g.digits + [ch])];
      assert r[..|r| - 1] == init;
      assert GoodGroup(r[|r| - 1], radix);
    }
  }

  /** A text that number? accepts is the text of a numeral. */
  lemma NumeralFound(t: seq<Byte>, radix: Cell) returns (n: Numeral)
    requires 0 <= radix <= 26 && Accepts(t, radix)
    ensures WellFormed(n, radix) && Text(n) == t
  {
    hide TakenAsDigit, Scanned, Step, Body, IsDigit;
    var r := UsedRadix(t, radix);
    assert 0 <= r <= 26;
    var first, rest := BodyFound(t[BodyAt(t)..], r);
    var p := SkipPrefix(t);
    n := Numeral(t[..p], Negated(t), first, rest);
    if Negated(t) { assert t[p..] == [MINUS] + t[p + 1..]; }
    assert t == t[..p] + t[p..];
  }

  ghost predicate InNotation(t: seq<Byte>, radix: Cell)
  {
    exists n: Numeral :: WellFormed(n, radix) && Text(n) == t
  }

  /** number? accepts exactly the notation, for every text, if and only if the radix is at
      most 26: from 27 on, an open brace is taken for a digit. */
  lemma ExactUpToRadix26(radix: Cell)
    ensures (forall t: seq<Byte> :: |t| < TWO63 ==> (Accepts(t, radix) <==> InNotation(t, radix))) <==> 0 <= radix <= 26
  {
    hide Accepts, InNotation;
    if 0 <= radix <= 26 {
      forall t: seq<Byte> | |t| < TWO63 ensures Accepts(t, radix) <==> InNotation(t, radix) { ExactHere(t, radix); }
    } else {
      var brace: seq<Byte> := [123];
      BraceAccepted(radix);
      BraceNotInNotation(radix);
      assert |brace| < TWO63;
    }
  }

  lemma ExactHere(t: seq<Byte>, radix: Cell)
    requires |t| < TWO63 && 0 <= radix <= 26
    ensures Accepts(t, radix) <==> InNotation(t, radix)
  {
    hide Accepts, WellFormed, Text;
    if Accepts(t, radix) { var n := NumeralFound(t, radix); }
    if InNotation(t, radix) {
      var n: Numeral :| WellFormed(n, radix) && Text(n) == t;
      NumeralAccepted(n, radix);
    }
  }

  lemma BraceNotInNotation(radix: Cell)
    ensures !InNotation([123], radix)
  {
    var brace: seq<Byte> := [123];
    if InNotation(brace, radix) {
      var n: Numeral :| WellFormed(n, radix) && Text(n) == brace;
      TextHasDigit(n, radix);
    }
  }

  lemma TextHasDigit(n: Numeral, radix: Cell)
    requires WellFormed(n, radix)
    ensures exists i :: 0 <= i < |Text(n)| && DigitValue(Text(n)[i]) >= 0
  {
    hide Body;
    BodyStart(n.first, n.rest, RadixOf(n, radix));
    var i := |n.prefix| + if n.negative then 1 else 0;
    assert Text(n)[i] == Body(n.first, n.rest)[0];
  }

  lemma BraceAccepted(radix: Cell)
    requires !(0 <= radix <= 26)
    ensures Accepts([123], radix)
  {
    var t: seq<Byte> := [123];
    assert t[0..] == t && t[..0] == [];
    assert DigitOf(123) == 26;
    assert Scanned(START, t, radix) == Step(START, 123, radix);
  }
}
