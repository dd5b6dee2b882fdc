/** One line of a terminal that understands the control functions of ECMA-48 that the line
    editor uses, fed byte by byte. */
module Terminal {
  import opened Bytes
  import opened NumberText
  import opened Numbers

  datatype Mode = Ground | Escape | Control(digits: nat, given: bool)

  /** The characters of the line, and the column of the cursor, from zero. */
  datatype Line = Line(cells: seq<Byte>, col: nat, mode: Mode)

  const BLANK: Byte := 32
  const CR: Byte := 13
  const ESC: Byte := 27

  predicate Fits(t: Line) { t.col < |t.cells| }

  function Blanks(n: nat): (s: seq<Byte>)
    ensures |s| == n && forall i :: 0 <= i < n ==> s[i] == BLANK
  {
    seq(n, i => BLANK)
  }

  /** A graphic character: it stands where the cursor was, which moves on unless it is in
      the last column. */
  function Put1(t: Line, ch: Byte): (u: Line)
    requires Fits(t)
    ensures Fits(u)
  {
    t.(cells := t.cells[t.col := ch], col := if t.col + 1 < |t.cells| then t.col + 1 else t.col)
  }

  /** Section 8.3.64, ICH: one blank put in at the cursor; the last character is lost. */
  function InsertBlank(t: Line): (u: Line)
    requires Fits(t)
    ensures Fits(u)
  {
    t.(cells := t.cells[..t.col] + [BLANK] + t.cells[t.col..|t.cells| - 1])
  }

  /** Section 8.3.26, DCH: the character at the cursor taken out; a blank comes in at the end. */
  function DeleteChar(t: Line): (u: Line)
    requires Fits(t)
    ensures Fits(u)
  {
    t.(cells := t.cells[..t.col] + t.cells[t.col + 1..] + [BLANK])
  }

  /** Section 8.3.41, EL: blanks from the cursor to the end. */
  function EraseRest(t: Line): (u: Line)
    requires Fits(t)
    ensures Fits(u)
  {
    t.(cells := t.cells[..t.col] + Blanks(|t.cells| - t.col))
  }

  /** The final byte of a control sequence. */
  function Final(t: Line, n: nat, ch: Byte): (u: Line)
    requires Fits(t)
    ensures Fits(u)
  {
    if ch == 64 && n == 1 then InsertBlank(t)
    else if ch == 80 && n == 1 then DeleteChar(t)
    else if ch == 67 then t.(col := if t.col + n < |t.cells| then t.col + n else |t.cells| - 1)
    else if ch == 68 then t.(col := if n <= t.col then t.col - n else 0)
    else if ch == 71 then t.(col := if n == 0 then 0 else if n <= |t.cells| then n - 1 else |t.cells| - 1)
    else if ch == 75 then EraseRest(t)
    else t
  }

  function Feed1(t: Line, ch: Byte): (u: Line)
    requires Fits(t)
    ensures Fits(u)
  {
    match t.mode
    case Ground =>
      if ch == ESC then t.(mode := Escape)
      else if ch == CR then t.(col := 0)
      else if ch >= BLANK then Put1(t, ch) else t
    case Escape => t.(mode := if ch == 91 then Control(0, false) else Ground)
    case Control(d, given) =>
      if 48 <= ch <= 57 then t.(mode := Control(d * 10 + (ch - 48), true))
      else Final(t.(mode := Ground), if given then d else 1, ch)
  }

  function Feed(t: Line, s: seq<Byte>): (u: Line)
    requires Fits(t)
    ensures Fits(u)
    decreases |s|
  {
    if s == [] then t else Feed1(Feed(t, s[..|s| - 1]), s[|s| - 1])
  }

  lemma {:induction false} FeedJoins(t: Line, x: seq<Byte>, y: seq<Byte>)
    requires Fits(t)
    ensures Feed(t, x + y) == Feed(Feed(t, x), y)
    decreases |y|
  {
    hide Feed1;
    if y == [] {
      assert x + y == x;
    } else {
      FeedJoins(t, x, y[..|y| - 1]);
      assert (x + y)[..|x + y| - 1] == x + y[..|y| - 1];
    }
  }

  lemma FeedOne(t: Line, ch: Byte)
    requires Fits(t)
    ensures Feed(t, [ch]) == Feed1(t, ch)
  {
    assert [ch][..0] == [];
  }

  /** A control sequence without parameters. */
  lemma FeedControl(t: Line, ch: Byte)
    requires Fits(t) && t.mode == Ground && !(48 <= ch <= 57)
    ensures Feed(t, [ESC, 91, ch]) == Final(t, 1, ch)
  {
    hide Final;
    var s: seq<Byte> := [ESC, 91, ch];
    var s2: seq<Byte> := [ESC, 91];
    assert s[..2] == s2 && s2[..1] == [ESC];
    FeedOne(t, ESC);
  }

  // ----- a decimal parameter -----

  /** Decimal digits raise the parameter. */
  lemma FeedDigits(t: Line, n: nat, on: bool)
    requires Fits(t) && t.mode == Control(0, false) && n < 1000
    ensures Feed(t, UnsignedText(n, 10, on)) == t.(mode := Control(n, true))
  {
    hide Feed, Digit;
    var q, r := n / 10, n % 10;
    DigitByte(r);
    if q == 0 {
      OneDigit(n, on);
      FeedOne(t, Digit(n));
    } else {
      var q2, r2 := q / 10, q % 10;
      DigitByte(r2);
      if q2 == 0 {
        assert r2 == q;
        TwoDigits(n, on);
        FeedTwo(t, Digit(q), Digit(r));
      } else {
        DigitByte(q2);
        ThreeDigits(n, on);
        FeedTwo(t, Digit(q2), Digit(r2));
        FeedJoins(t, [Digit(q2), Digit(r2)], [Digit(r)]);
        FeedOne(t.(mode := Control(q, true)), Digit(r));
      }
    }
  }

  lemma DigitByte(d: nat)
    requires d < 10
    ensures Digit(d) == 48 + d
  {}

  lemma FeedTwo(t: Line, a: Byte, b: Byte)
    requires Fits(t) && t.mode == Control(0, false) && 48 <= a <= 57 && 48 <= b <= 57
    ensures Feed(t, [a, b]) == t.(mode := Control((a - 48) * 10 + (b - 48), true))
  {
    hide Feed, Final, Put1;
    assert [a] + [b] == [a, b];
    FeedJoins(t, [a], [b]);
    FeedOne(t, a);
    FeedOne(t.(mode := Control(a - 48, true)), b);
  }

  lemma OneDigit(n: nat, on: bool)
    requires n < 10
    ensures UnsignedText(n, 10, on) == [Digit(n)]
  {}

  lemma TwoDigits(n: nat, on: bool)
    requires 10 <= n < 100
    ensures UnsignedText(n, 10, on) == [Digit(n / 10), Digit(n % 10)]
  {
    hide Digit;
    assert Quotient(n, 10) == n / 10 && Remainder(n, 10) == n % 10;
    assert Separator(10, on, 1) == [];
    assert Digits(n / 10, 10, on, 1) == [Digit(n / 10)] by { assert Quotient(n / 10, 10) == 0 &&
           Remainder(n / 10, 10) == n / 10; }
  }

  lemma ThreeDigits(n: nat, on: bool)
    requires 100 <= n < 1000
    ensures UnsignedText(n, 10, on) == [Digit(n / 10 / 10), Digit(n / 10 % 10)] + [Digit(n % 10)]
  {
    hide Digit;
    var q := n / 10;
    assert Quotient(n, 10) == q && Remainder(n, 10) == n % 10;
    assert Quotient(q, 10) == q / 10 && Remainder(q, 10) == q % 10;
    assert Separator(10, on, 1) == [] && Separator(10, on, 2) == [];
    assert Digits(q / 10, 10, on, 2) == [Digit(q / 10)] by {
      assert Quotient(q / 10, 10) == 0 && Remainder(q / 10, 10) == q / 10;
    }
    assert Digits(q, 10, on, 1) == [Digit(q / 10)] + [] + [Digit(q % 10)];
  }

  /** ESC [ n G */
  lemma FeedColumn(t: Line, n: nat, on: bool)
    requires Fits(t) && t.mode == Ground && n < 1000
    ensures Feed(t, [ESC, 91] + UnsignedText(n, 10, on) + [71]) == Final(t, n, 71)
  {
    hide Feed, Final, UnsignedText;
    var text := UnsignedText(n, 10, on);
    var t2 := t.(mode := Control(0, false));
    assert Feed(t, [ESC, 91]) == t2 by { FeedStart(t); }
    FeedJoins(t, [ESC, 91], text);
    FeedDigits(t2, n, on);
    FeedJoins(t, [ESC, 91] + text, [71]);
    FeedOne(t2.(mode := Control(n, true)), 71);
  }

  lemma FeedStart(t: Line)
    requires Fits(t) && t.mode == Ground
    ensures Feed(t, [ESC, 91]) == t.(mode := Control(0, false))
  {
    assert [ESC] + [91] == [ESC, 91];
    FeedJoins(t, [ESC], [91]);
    FeedOne(t, ESC);
    FeedOne(t.(mode := Escape), 91);
  }
}
