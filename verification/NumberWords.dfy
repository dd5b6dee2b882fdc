/** The words of startup.mu4 that read and write numbers, working as they do on the
    variables radix, dpl, hld and num| and on the bytes of the text. */
module NumberWords {
  import opened Bytes
  import opened Cells
  import opened Numbers
  import opened NumberText

  class Reader {
    var radix: Cell
    var dpl: Cell

    constructor (radix: Cell)
      ensures this.radix == radix && dpl == -1
    {
      this.radix, dpl := radix, -1;
    }

    /** punct  ( a u ch - a' u' matched)  Here i is how much of the text is behind us. */
    method Punct(t: seq<Byte>, i: nat, ch: Byte) returns (j: nat, matched: bool)
      requires i <= |t|
      ensures matched == (i < |t| && t[i] == ch) && j == if matched then i + 1 else i
    {
      if i < |t| {
        if t[i] != ch { return i, false; }
        return i + 1, true;
      }
      return i, false;
    }

    /** ?sign */
    method Sign(t: seq<Byte>, i: nat) returns (j: nat, negative: bool)
      requires i <= |t|
      ensures negative == HasSign(t[i..]) && j == if negative then i + 1 else i
    {
      j, negative := Punct(t, i, MINUS);
    }

    /** ?radix */
    method Prefix(t: seq<Byte>) returns (i: nat)
      modifies `radix
      ensures i == SkipPrefix(t) && radix == UsedRadix(t, old(radix))
    {
      var matched;
      i, matched := Punct(t, 0, 34);
      if matched { radix := 16; return; }
      i, matched := Punct(t, i, 39);
      if matched { radix := 8; return; }
      i, matched := Punct(t, i, 36);
      if matched { radix := 16; return; }
      i, matched := Punct(t, i, 35);
      if matched { radix := 10; return; }
      i, matched := Punct(t, i, 37);
      if matched { radix := 2; return; }
    }

    /** dot? */
    method Dot(t: seq<Byte>, i: nat) returns (j: nat, matched: bool)
      requires i <= |t|
      modifies `dpl
      ensures matched == (i < |t| && IsPunct(t[i])) && j == if matched then i + 1 else i
      ensures dpl == if matched && t[i] == DOT then 0 else old(dpl)
    {
      j, matched := Punct(t, i, DOT);
      if matched { dpl := 0; return; }
      j, matched := Punct(t, i, 44);
      if matched { return; }
      j, matched := Punct(t, i, 45);
      if matched { return; }
      j, matched := Punct(t, i, 47);
      if matched { return; }
      j, matched := Punct(t, i, 58);
      if matched { return; }
      j, matched := Punct(t, i, 95);
    }

    /** *digit */
    method TimesDigit(accum: Cell, digit: Cell) returns (r: Cell)
      modifies `dpl
      ensures r == Add(digit, Mul(accum, radix)) && dpl == Add(old(dpl), if old(dpl) < 0 then 0 else 1)
    {
      r := Add(digit, Mul(accum, radix));
      dpl := Add(dpl, Add(Flag(dpl < 0), 1));
    }

    /** >number  converts digits until something else, or the end. */
    method ToNumber(start: Cell, t: seq<Byte>, i: nat, ghost s: Scan) returns (accum: Cell, j: nat)
      requires i <= |t|
      requires s.Scanning? && s.accum == start && s.dpl == dpl
      modifies `dpl
      ensures i <= j <= |t| && (j < |t| ==> !TakenAsDigit(t[j], radix))
      ensures Scanned(s, t[i..j], radix) == Scanning(accum, dpl, j == i && s.due)
    {
      hide TakenAsDigit, DigitOf, Add, Mul, Scanned;
      accum, j := start, i;
      assert Scanned(s, t[i..i], radix) == s by { NothingScanned(s, t, i, radix); }
      while j < |t|
        invariant i <= j <= |t|
        invariant Scanned(s, t[i..j], radix) == Scanning(accum, dpl, j == i && s.due)
      {
        if !TakenAsDigit(t[j], radix) { return; }
        OneMore(s, t, i, j, radix);
        accum := TimesDigit(accum, DigitOf(t[j]));
        j := j + 1;
      }
    }

    /** number?  ( a u - n -1 | a' u' 0)  Refused texts stop at the first character that
        cannot go on, or at the end when a digit is due there. */
    method Number(t: seq<Byte>) returns (good: bool, n: Cell, at: nat)
      modifies this
      ensures radix == old(radix)
      ensures good == Accepts(t, radix)
      ensures good ==> n == Result(t, radix) && dpl == BodyScan(t, radix).dpl
      ensures !good ==> BodyAt(t) <= at <= |t| && Scanned(START, t[BodyAt(t)..at], UsedRadix(t, radix)).Scanning?
      ensures !good && at < |t| ==> Scanned(START, t[BodyAt(t)..at + 1], UsedRadix(t, radix)).Bad?
    {
      hide Scanned, Step, TakenAsDigit, IsPunct;
      var saved := radix;               // radix preserve
      var i := Prefix(t);
      var negative;
      i, negative := Sign(t, i);
      ghost var b := i;
      dpl := -1;
      var accum := 0;
      assert Scanned(START, t[b..i], radix) == START by { NothingScanned(START, t, i, radix); }
      while true
        invariant b == BodyAt(t) <= i <= |t| && radix == UsedRadix(t, saved) && negative == Negated(t)
        invariant Scanned(START, t[b..i], radix) == Scanning(accum, dpl, true)
        decreases |t| - i
      {
        ghost var s := Scanned(START, t[b..i], radix);
        var j;
        accum, j := ToNumber(accum, t, i, s);
        Through(t, b, i, j, radix);
        if j == i {
          if i < |t| { NoStep(t, b, i, radix); }
          Refused(t, b, i, radix);
          at, radix := i, saved;
          return false, 0, at;
        }
        i := j;
        if i == |t| { break; }
        var matched;
        ghost var was := dpl;
        j, matched := Dot(t, i);
        if !matched {
          NoStep(t, b, i, radix);
          Refused(t, b, i, radix);
          at, radix := i, saved;
          return false, 0, at;
        }
        PunctStep(t, b, i, accum, was, radix);
        i := j;
      }
      AllScanned(t, saved, accum, dpl);
      n := if negative then Sub(0, accum) else accum;
      radix := saved;
      good, at := true, i;
    }
  }

  /** Numbers are written backwards, down from the pad. */
  class Writer {
    var radix: Cell
    var separators: bool     // +sep or -sep
    var pad: array<Byte>     // the bytes below the pad
    var hld: nat             // where the first character is
    var num: nat             // just beyond the least significant digit

    constructor (radix: Cell, separators: bool)
      ensures Ok() && this.radix == radix && this.separators == separators && fresh(pad)
    {
      this.radix, this.separators := radix, separators;
      pad := new Byte[1024];
      hld, num := 1024, 1024;
    }

    ghost predicate Ok()
      reads this
    {
      pad.Length == 1024 && hld <= num <= 1024
    }

    ghost function Held(): seq<Byte>
      reads this, pad
      requires Ok()
    {
      pad[hld..]
    }

    /** <# */
    method Start()
      requires Ok()
      modifies `hld, `num
      ensures Ok() && Held() == [] && hld == num == 1024
    {
      hld := 1024;
      num := hld;
    }

    method Hold(ch: Byte)
      requires Ok() && hld > 0
      modifies `hld, pad
      ensures Ok() && hld == old(hld) - 1 && Held() == [ch] + old(Held())
    {
      hld := hld - 1;
      pad[hld] := ch;
    }

    /** #  ( u - u') */
    method Sharp(u: nat) returns (q: nat)
      requires Ok() && hld > 0 && Unsigned(radix) >= 2
      modifies `hld, pad
      ensures Ok() && q == Quotient(u, Unsigned(radix)) && hld == old(hld) - 1
      ensures Held() == [Digit(Remainder(u, Unsigned(radix)))] + old(Held())
    {
      hide Quotient, Remainder, Digit;
      var r := Unsigned(radix);
      q := Quotient(u, r);
      Hold(Digit(Remainder(u, r)));
    }

    /** ?sep */
    method Sep()
      requires Ok() && hld > 0
      modifies `hld, pad
      ensures Ok() && Held() == Separator(Unsigned(radix), separators, num - old(hld)) + old(Held())
      ensures hld == old(hld) - |Separator(Unsigned(radix), separators, num - old(hld))|
    {
      if separators {
        if radix == 10 {
          if (num - hld) % 4 == 3 { Hold(44); }
          return;
        }
        if (num - hld) % 5 == 4 { Hold(95); }
      }
    }

    /** #sep  ( u - 0) */
    method SharpSep(u: nat)
      requires Ok() && hld > 128 && Unsigned(radix) >= 2 && u < TWO64
      modifies `hld, pad
      ensures Ok() && hld >= old(hld) - 128
      ensures Held() == Digits(u, Unsigned(radix), separators, num - old(hld)) + old(Held())
    {
      hide Digit, Digits, Separator, Quotient, Remainder, Pow2, Unsigned;
      ghost var r, was := Unsigned(radix), Held();
      ghost var k := 64;
      Pow2Is64();
      var v: nat := u;
      while true
        invariant Ok() && num == old(num) && 0 < k <= 64 && v < Pow2(k) && hld >= old(hld) - 128 + 2 * k && hld > 2 * k
        invariant Digits(v, r, separators, num - hld) + Held() == Digits(u, r, separators, num - old(hld)) + was
        decreases v
      {
        ghost var held, v0, count := Held(), v, num - hld;
        v := Sharp(v);
        DigitsUnfold(v0, r, separators, count, held);
        if v == 0 { break; }
        HalfBelow(v0, v, k);
        Sep();
        k := k - 1;
      }
    }

    /** #s  ( u - 0)  The same, never with separators. */
    method SharpS(u: nat)
      requires Ok() && hld > 128 && Unsigned(radix) >= 2 && u < TWO64
      modifies `hld, pad
      ensures Ok() && hld >= old(hld) - 128
      ensures Held() == Digits(u, Unsigned(radix), false, num - old(hld)) + old(Held())
    {
      hide Digit, Digits, Quotient, Remainder, Pow2, Unsigned;
      ghost var r, was := Unsigned(radix), Held();
      ghost var k := 64;
      Pow2Is64();
      var v: nat := u;
      while true
        invariant Ok() && num == old(num) && 0 < k <= 64 && v < Pow2(k) && hld >= old(hld) - 128 + 2 * k && hld > 2 * k
        invariant Digits(v, r, false, num - hld) + Held() == Digits(u, r, false, num - old(hld)) + was
        decreases v
      {
        ghost var held, v0, count := Held(), v, num - hld;
        v := Sharp(v);
        DigitsUnfold(v0, r, false, count, held);
        if v == 0 { break; }
        HalfBelow(v0, v, k);
        k := k - 1;
      }
    }

    /** (u.)  What is left held is the text. */
    method UnsignedDot(u: Cell) returns (text: seq<Byte>)
      requires Ok() && Unsigned(radix) >= 2
      modifies `hld, `num, pad
      ensures Ok() && text == UnsignedText(Unsigned(u), Unsigned(radix), separators)
    {
      Start();
      SharpSep(Unsigned(u));
      text := pad[hld..];
    }

    /** (.)  #signed converts the absolute value, then puts the sign in front. */
    method Dot(n: Cell) returns (text: seq<Byte>)
      requires Ok() && Unsigned(radix) >= 2
      modifies `hld, `num, pad
      ensures Ok() && text == SignedText(n, Unsigned(radix), separators)
    {
      Start();
      SharpSep(Unsigned(Abs(n)));
      if n < 0 { Hold(MINUS); }
      text := pad[hld..];
    }
  }

  /** Writing a number and reading it back, through the words themselves. */
  method WriteThenRead(n: Cell, radix: Cell, separators: bool) returns (good: bool, m: Cell, dpl: Cell)
    requires 2 <= radix <= 36
    ensures good && m == n && dpl == -1
  {
    var w := new Writer(radix, separators);
    var text := w.Dot(n);
    var r := new Reader(radix);
    var at;
    SignedRoundTrip(n, radix, separators);
    good, m, at := r.Number(text);
    dpl := r.dpl;
  }

  /** The same for an unsigned number, with (u.) */
  method WriteThenReadUnsigned(u: Cell, radix: Cell, separators: bool) returns (good: bool, m: Cell, dpl: Cell)
    requires 2 <= radix <= 36
    ensures good && m == u && dpl == -1
  {
    var w := new Writer(radix, separators);
    var text := w.UnsignedDot(u);
    var r := new Reader(radix);
    var at;
    UnsignedRoundTrip(Unsigned(u), radix, separators);
    good, m, at := r.Number(text);
    dpl := r.dpl;
  }
}
