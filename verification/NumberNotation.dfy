/** The characters of the number notation by themselves: what a prefix, a sign, a digit and
    a mark between digits are, and what they do. */
module NumberNotation {
  import opened Bytes
  import opened Cells
  import opened Numbers
  import opened NumberText

  // ----- prefixes -----

  /** " and $ stand for radix 16, ' for 8, # for 10 and % for 2. */
  predicate Selects(ch: Byte, radix: Cell)
  {
    if radix == 16 then ch == 34 || ch == 36 else if radix == 8 then ch == 39
    else if radix == 10 then ch == 35 else radix == 2 && ch == 37
  }

  /** Behind a prefix, the text of (.) in the radix of the prefix is read as its number,
      whatever the current radix. */
  lemma PrefixReads(ch: Byte, used: Cell, n: Cell, on: bool, radix: Cell)
    requires Selects(ch, used)
    ensures var t := [ch] + SignedText(n, used, on);
            Accepts(t, radix) && Result(t, radix) == n && BodyScan(t, radix).dpl == -1
  {
    hide Digits, Scanned;
    var u := Unsigned(Abs(n));
    var d := Digits(u, used, on, 0);
    DigitsRead(u, used, on, 0);
    PrefixParts(ch, used, n < 0, d, radix);
    assert n < 0 ==> Sub(0, Wrap(u)) == n;
  }

  /** So is the text of (u.) */
  lemma PrefixReadsUnsigned(ch: Byte, used: Cell, u: nat, on: bool, radix: Cell)
    requires Selects(ch, used) && u < TWO64
    ensures var t := [ch] + UnsignedText(u, used, on);
            Accepts(t, radix) && Result(t, radix) == Wrap(u) && BodyScan(t, radix).dpl == -1
  {
    hide Digits, Scanned;
    var d := Digits(u, used, on, 0);
    DigitsRead(u, used, on, 0);
    PrefixParts(ch, used, false, d, radix);
    var none: seq<Byte> := [];
    assert none + d == d;
  }

  lemma PrefixParts(ch: Byte, used: Cell, negative: bool, d: seq<Byte>, radix: Cell)
    requires Selects(ch, used) && d != [] && d[0] != MINUS
    ensures var t := [ch] + ((if negative then [MINUS] else []) + d);
            UsedRadix(t, radix) == used && Negated(t) == negative && t[BodyAt(t)..] == d
  {
    var s := (if negative then [MINUS] else []) + d;
    var t := [ch] + s;
    assert t[1..] == s;
    assert s[0] == if negative then MINUS else d[0];
    if negative { assert t[2..] == d; }
  }

  /** Any other first character leaves the radix alone. */
  lemma NoPrefix(t: seq<Byte>, radix: Cell)
    requires t != [] ==> t[0] !in {34, 35, 36, 37, 39}
    ensures SkipPrefix(t) == 0 && UsedRadix(t, radix) == radix
  {}

  // ----- signs, digits and marks -----

  /** A hyphen negates. */
  lemma HyphenNegates(u: nat, radix: nat, on: bool)
    requires 2 <= radix <= 36 && u < TWO64
    ensures var t := [45] + UnsignedText(u, radix, on);
            Accepts(t, radix) && Result(t, radix) == Wrap(-(u as int))
  {
    hide Digits, Scanned, PrefixRadix, UsedRadix, Negated, BodyAt, Wrap, Sub;
    var d := Digits(u, radix, on, 0);
    DigitsRead(u, radix, on, 0);
    SignParts(true, d, radix);
    var t := [MINUS] + d;
    assert t[BodyAt(t)..] == d && UsedRadix(t, radix) == radix && Negated(t);
    assert Sub(0, Wrap(u)) == Wrap(-(u as int)) by { NegativeIs(u); }
  }

  lemma NegativeIs(u: nat)
    ensures Sub(0, Wrap(u)) == Wrap(-(u as int))
  {
    hide Wrap, Sub;
    assert Wrap(0) == 0;
    WrapAdd(0, u);
  }

  /** Digits are printed as 0 to 9 and then in lower case. */
  lemma DigitLooks(d: nat)
    requires d < 36
    ensures Digit(d) == if d < 10 then 48 + d else 97 + (d - 10)
  {}

  /** What (u.) prints, counting from the right: in radix 10 with separators on, a comma in
      every fourth place; in another radix, an underline in every fifth; digits elsewhere. */
  lemma PrintedPlaces(u: nat, radix: nat, on: bool, k: nat)
    requires 2 <= radix <= 36 && k < |UnsignedText(u, radix, on)|
    ensures var t := UnsignedText(u, radix, on);
            var ch := t[|t| - 1 - k];
            if on && radix == 10 && k % 4 == 3 then ch == 44
            else if on && radix != 10 && k % 5 == 4 then ch == 95
            else 0 <= DigitValue(ch) < radix
  {
    hide Digits, DigitValue;
    SeparatorPlaces(u, radix, on, 0, k);
  }

  /** Two groups of digits with one of  . , - / : _  between them are one number, and only
      the dot counts places. */
  lemma MarkJoins(x: seq<Byte>, ch: Byte, y: seq<Byte>, radix: Cell)
    requires 0 <= radix && AreDigits(x, radix) && AreDigits(y, radix) && |x| + |y| + 1 < TWO63
    requires ch in {46, 44, 45, 47, 58, 95}
    ensures var t := x + [ch] + y;
            Accepts(t, radix) && Result(t, radix) == Wrap(ValueOf(ValueOf(0, x, radix), y, radix))
            && BodyScan(t, radix).dpl == if ch == 46 then |y| else -1
  {
    hide Accepts, BodyScan, WellFormed, Text, Wrap, ValueOf, Value, Places;
    var n := Numeral([], false, x, [Group(ch, y)]);
    TwoGroups(x, ch, y, radix);
    NumeralAccepted(n, radix);
  }

  lemma TwoGroups(x: seq<Byte>, ch: Byte, y: seq<Byte>, radix: Cell)
    requires AreDigits(x, radix) && AreDigits(y, radix) && ch in {46, 44, 45, 47, 58, 95}
    ensures var n := Numeral([], false, x, [Group(ch, y)]);
            WellFormed(n, radix) && Text(n) == x + [ch] + y
            && Value(n, radix) == ValueOf(ValueOf(0, x, radix), y, radix)
            && Places(n.rest) == if ch == 46 then |y| else -1
  {
    hide AreDigits, ValueOf;
    var rest := [Group(ch, y)];
    assert rest[..0] == [];
    assert GoodGroup(rest[0], radix);
    assert Body(x, []) == x && Body(x, rest) == x + [ch] + y;
    assert BodyValue(x, [], radix) == ValueOf(0, x, radix);
  }

  /** Any other character that is not a digit is refused between them, up to radix 26. */
  lemma MarkRefused(x: seq<Byte>, ch: Byte, y: seq<Byte>, radix: Cell)
    requires 0 <= radix <= 26 && AreDigits(x, radix) && |x| + |y| + 1 < TWO63
    requires ch !in {46, 44, 45, 47, 58, 95} && !IsDigit(ch, radix)
    ensures !Accepts(x + [ch] + y, radix)
  {
    hide AreDigits, ValueOf, Scanned, Step;
    var t := x + [ch] + y;
    var none: seq<Byte> := [];
    assert Body(x, []) == x;
    BodyScans(x, [], radix);
    BodyStart(x, [], radix);
    assert t[0] == x[0];
    NotSigns(x[0]);
    assert t[0..] == t && t[0..|x|] == x && t[|x|] == ch;
    NotTaken(Scanned(START, x, radix), ch, radix);
    Refused(t, 0, |x|, radix);
  }

  lemma NotSigns(ch: Byte)
    requires DigitValue(ch) >= 0
    ensures PrefixRadix(ch) == 0 && ch != MINUS
  {}

  lemma NotTaken(s: Scan, ch: Byte, radix: Cell)
    requires 0 <= radix <= 26 && ch !in {46, 44, 45, 47, 58, 95} && !IsDigit(ch, radix)
    ensures Step(s, ch, radix).Bad?
  {
    DigitsTaken(ch, radix);
  }
}
