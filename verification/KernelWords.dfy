/** What the data-stack words of src/kernel.c compute, in terms of numbers and bits. */
module KernelWords {
  import opened Cells
  import opened Machine

  // ----- bits -----

  /** Bit i of a natural number, the lowest being bit 0. */
  predicate NatBit(n: nat, i: nat) { if i == 0 then n % 2 == 1 else NatBit(n / 2, i - 1) }

  /** Bit i of a cell. */
  predicate Bit(c: Cell, i: nat) { NatBit(Unsigned(c), i) }

  lemma {:induction false} AndNatBit(a: nat, b: nat, i: nat)
    ensures NatBit(AndNat(a, b), i) <==> NatBit(a, i) && NatBit(b, i)
    decreases i
  {
    if a == 0 || b == 0 {
      NoBits(i);
    } else {
      var x := (a % 2) * (b % 2);
      assert x == if a % 2 == 1 && b % 2 == 1 then 1 else 0;
      assert AndNat(a, b) % 2 == x && AndNat(a, b) / 2 == AndNat(a / 2, b / 2);
      if i > 0 { AndNatBit(a / 2, b / 2, i - 1); }
    }
  }

  lemma {:induction false} NoBits(i: nat)
    ensures !NatBit(0, i)
  {
    if i > 0 { NoBits(i - 1); }
  }

  lemma {:induction false} XorNatBit(a: nat, b: nat, i: nat)
    ensures NatBit(XorNat(a, b), i) <==> NatBit(a, i) != NatBit(b, i)
    decreases i
  {
    if a == 0 && b == 0 {
      NoBits(i);
    } else {
      assert XorNat(a, b) % 2 == (if a % 2 == b % 2 then 0 else 1) && XorNat(a, b) / 2 == XorNat(a / 2, b / 2);
      if i > 0 { XorNatBit(a / 2, b / 2, i - 1); }
    }
  }

  lemma {:induction false} XorNatBelow(a: nat, b: nat, n: nat)
    requires a < Pow2(n) && b < Pow2(n)
    ensures XorNat(a, b) < Pow2(n)
    decreases n
  {
    if n > 0 { XorNatBelow(a / 2, b / 2, n - 1); }
  }

  /** A natural number below 2^64 is the unsigned value of its cell. */
  lemma CellOf(x: nat)
    requires x < TWO64
    ensures Unsigned(Wrap(x)) == x
  {}

  lemma {:induction false} InvertNatBit(u: nat, n: nat, i: nat)
    requires u < Pow2(n) && i < n
    ensures NatBit(Pow2(n) - 1 - u, i) <==> !NatBit(u, i)
    decreases i
  {
    assert Pow2(n) == 2 * Pow2(n - 1);
    assert (Pow2(n) - 1 - u) % 2 == 1 - u % 2 && (Pow2(n) - 1 - u) / 2 == Pow2(n - 1) - 1 - u / 2;
    if i > 0 { InvertNatBit(u / 2, n - 1, i - 1); }
  }

  /** and, or, xor and invert work on each of the 64 bits by itself. */
  lemma BitWords(a: Cell, b: Cell, i: nat)
    requires i < 64
    ensures Bit(And(a, b), i) <==> Bit(a, i) && Bit(b, i)
    ensures Bit(Xor(a, b), i) <==> Bit(a, i) != Bit(b, i)
    ensures Bit(Or(a, b), i) <==> Bit(a, i) || Bit(b, i)
    ensures Bit(Invert(a), i) <==> !Bit(a, i)
  {
    hide NatBit, AndNat, XorNat, Pow2;
    AndBit(a, b, i);
    XorBit(a, b, i);
    XorBit(Xor(a, b), And(a, b), i);
    Pow2Is64();
    InvertNatBit(Unsigned(a), 64, i);
    assert Unsigned(Invert(a)) == TWO64 - 1 - Unsigned(a);
  }

  lemma AndBit(a: Cell, b: Cell, i: nat)
    ensures Bit(And(a, b), i) <==> Bit(a, i) && Bit(b, i)
  {
    hide NatBit, AndNat;
    CellOf(AndNat(Unsigned(a), Unsigned(b)));
    AndNatBit(Unsigned(a), Unsigned(b), i);
  }

  lemma XorBit(a: Cell, b: Cell, i: nat)
    ensures Bit(Cells.Xor(a, b), i) <==> Bit(a, i) != Bit(b, i)
  {
    hide NatBit, XorNat, Pow2;
    Pow2Is64();
    XorNatBelow(Unsigned(a), Unsigned(b), 64);
    CellOf(XorNat(Unsigned(a), Unsigned(b)));
    XorNatBit(Unsigned(a), Unsigned(b), i);
  }

  lemma {:induction false} NatBitsDetermine(a: nat, b: nat, n: nat)
    requires a < Pow2(n) && b < Pow2(n) && forall i :: 0 <= i < n ==> NatBit(a, i) == NatBit(b, i)
    ensures a == b
    decreases n
  {
    if n > 0 {
      assert NatBit(a, 0) == NatBit(b, 0);
      forall i | 0 <= i < n - 1 ensures NatBit(a / 2, i) == NatBit(b / 2, i) {
        assert NatBit(a, i + 1) == NatBit(b, i + 1);
      }
      NatBitsDetermine(a / 2, b / 2, n - 1);
    }
  }

  /** The 64 bits of a cell are all there is to it. */
  lemma BitsDetermine(a: Cell, b: Cell)
    requires forall i :: 0 <= i < 64 ==> Bit(a, i) == Bit(b, i)
    ensures a == b
  {
    hide NatBit, Pow2;
    Pow2Is64();
    forall i | 0 <= i < 64 ensures NatBit(Unsigned(a), i) == NatBit(Unsigned(b), i) {
      assert Bit(a, i) == Bit(b, i);
    }
    NatBitsDetermine(Unsigned(a), Unsigned(b), 64);
  }

  // ----- the words, with the stack as their comments in the source show it -----

  /** y on top of x on top of d, and one result in their place. */
  ghost predicate Leaves(p: Prim, x: Cell, y: Cell, d: seq<Cell>, z: Cell)
    requires IsAlu(p)
  {
    Alu(p, [y, x] + d) == Some([z] + d)
  }

  ghost predicate Turns(p: Prim, x: Cell, d: seq<Cell>, z: Cell)
    requires IsAlu(p)
  {
    Alu(p, [x] + d) == Some([z] + d)
  }

  lemma Top2(x: Cell, y: Cell, d: seq<Cell>)
    ensures ([y, x] + d)[2..] == d && ([y, x] + d)[1..] == [x] + d && ([x] + d)[1..] == d
  {}

  /** dup  over  swap  drop  2drop  nope */
  lemma StackWords(x: Cell, y: Cell, d: seq<Cell>)
    ensures Alu(Dup, [x] + d) == Some([x, x] + d)
    ensures Alu(Over, [y, x] + d) == Some([x, y, x] + d)
    ensures Alu(Swap, [y, x] + d) == Some([x, y] + d)
    ensures Alu(Drop, [x] + d) == Some(d)
    ensures Alu(TwoDrop, [y, x] + d) == Some(d)
    ensures Alu(Nope, d) == Some(d)
  {
    Top2(x, y, d);
    assert [x] + ([x] + d) == [x, x] + d && [x] + ([y, x] + d) == [x, y, x] + d;
  }

  /** +  *  negate  2*  : the number is right modulo 2^64. */
  lemma SumWords(x: Cell, y: Cell, d: seq<Cell>) returns (sum: Cell, product: Cell, negative: Cell, double: Cell)
    ensures Leaves(Plus, x, y, d, sum) && (sum as int - (x as int + y as int)) % 0x1_0000_0000_0000_0000 == 0
    ensures Leaves(Star, x, y, d, product) && (product as int - x as int * y as int) % 0x1_0000_0000_0000_0000 == 0
    ensures Turns(Negate, x, d, negative) && (negative as int + x as int) % 0x1_0000_0000_0000_0000 == 0
    ensures Turns(TwoStar, x, d, double) && (double as int - 2 * (x as int)) % 0x1_0000_0000_0000_0000 == 0
  {
    hide Wrap;
    Top2(x, y, d);
    sum, product, negative, double := Add(x, y), Mul(x, y), Sub(0, x), Mul(x, 2);
  }

  /** 2/ halves, rounding down; negative numbers too. */
  lemma HalfWord(x: Cell, d: seq<Cell>) returns (z: Cell)
    ensures Turns(TwoSlash, x, d, z) && 2 * (z as int) <= x < 2 * (z as int) + 2
  {
    Top2(x, x, d);
    z := x / 2;
  }

  /** One star serves signed and unsigned numbers alike. */
  lemma StarIsUnsigned(x: Cell, y: Cell)
    ensures Unsigned(Mul(x, y)) == Unsigned(x) * Unsigned(y) % TWO64
  {
    hide Wrap, Unsigned, Mul;
    var u, v := Unsigned(x), Unsigned(y);
    NotNegative(u, v);
    ProductModulo(x, y, u, v, u * v);
  }

  lemma NotNegative(u: nat, v: nat)
    ensures u * v >= 0
  {}

  lemma ProductModulo(x: Cell, y: Cell, u: nat, v: nat, p: nat)
    requires u == Unsigned(x) && v == Unsigned(y) && p == u * v
    ensures Unsigned(Mul(x, y)) == p % TWO64
  {
    ProductCell(x, y, u, v, p);
    hide Wrap, Unsigned, Mul;
    UnsignedOf(p);
  }

  /** Read as unsigned numbers or not, the factors have the same product in a cell. */
  lemma ProductCell(x: Cell, y: Cell, u: nat, v: nat, p: nat)
    requires u == Unsigned(x) && v == Unsigned(y) && p == u * v
    ensures Wrap(p) == Mul(x, y)
  {
    var k := if y < 0 then 1 else 0;
    assert v == y + k * TWO64 && Wrap(u) == x;
    hide Wrap, Unsigned, Mul;
    Spread(u, v, y, k);
    WrapMul(u, y);
    WrapShift(u * y, u * k);
  }

  lemma Spread(u: int, v: int, y: int, k: int)
    requires v == y + k * TWO64
    ensures u * v == u * y + (u * k) * TWO64
  {
    assert u * (y + k * TWO64) == u * y + (u * k) * TWO64;
  }

  lemma UnsignedOf(n: nat)
    ensures Unsigned(Wrap(n)) == n % TWO64
  {
    WrapShift(n % TWO64, n / TWO64);
    assert n == n % TWO64 + n / TWO64 * TWO64;
    CellOf(n % TWO64);
  }

  /** <  u<  0<  0=  : -1 for true, 0 for false, and x is the number that was pushed first. */
  lemma CompareWords(x: Cell, y: Cell, d: seq<Cell>)
    ensures Leaves(Less, x, y, d, if x < y then -1 else 0)
    ensures Leaves(ULess, x, y, d, if Unsigned(x) < Unsigned(y) then -1 else 0)
    ensures Turns(ZeroLess, x, d, if x < 0 then -1 else 0)
    ensures Turns(ZeroEqual, x, d, if x == 0 then -1 else 0)
  {
    hide Unsigned;
    Top2(x, y, d);
  }

  /** < is u< of the numbers with their sign bits flipped. */
  lemma LessIsFlippedULess(x: Cell, y: Cell)
    ensures x < y <==> Unsigned(Add(x, -TWO63)) < Unsigned(Add(y, -TWO63))
    ensures forall i :: 0 <= i < 64 ==> (Bit(Add(x, -TWO63), i) <==> (if i == 63 then !Bit(x, 63) else Bit(x, i)))
  {
    Flipped(x);
    Flipped(y);
    forall i | 0 <= i < 64 ensures Bit(Add(x, -TWO63), i) <==> (if i == 63 then !Bit(x, 63) else Bit(x, i)) {
      TopBit(Unsigned(x), i);
      TopBit(x as int + TWO63, i);
    }
  }

  lemma Flipped(x: Cell)
    ensures Unsigned(Add(x, -TWO63)) == x as int + TWO63
    ensures Unsigned(Add(x, -TWO63)) == if x < 0 then Unsigned(x) - TWO63 else Unsigned(x) + TWO63
  {}

  /** The top bit says whether the number is at least 2^63; the others do not change with it. */
  lemma TopBit(u: nat, i: nat)
    requires u < TWO64 && i < 64
    ensures i == 63 ==> (NatBit(u, 63) <==> u >= TWO63)
    ensures i < 63 && u >= TWO63 ==> NatBit(u, i) == NatBit(u - TWO63, i)
  {
    hide NatBit, Pow2;
    Pow2Is64();
    assert Pow2(63) == TWO63 by { assert Pow2(64) == 2 * Pow2(63) by { Pow2Step(63); } }
    if i == 63 {
      HighBit(u, 63);
    } else if u >= TWO63 {
      LowBits(u - TWO63, 63, i);
    }
  }

  lemma Pow2Step(n: nat)
    ensures Pow2(n + 1) == 2 * Pow2(n)
  {}

  lemma {:induction false} HighBit(u: nat, n: nat)
    requires u < Pow2(n + 1)
    ensures NatBit(u, n) <==> u >= Pow2(n)
    decreases n
  {
    if n > 0 { HighBit(u / 2, n - 1); }
  }

  lemma {:induction false} LowBits(u: nat, n: nat, i: nat)
    requires i < n
    ensures NatBit(u + Pow2(n), i) == NatBit(u, i)
    decreases i
  {
    assert Pow2(n) == 2 * Pow2(n - 1);
    assert (u + Pow2(n)) % 2 == u % 2 && (u + Pow2(n)) / 2 == u / 2 + Pow2(n - 1);
    if i > 0 { LowBits(u / 2, n - 1, i - 1); }
  }

  /** and  or  xor  invert  : every bit of what they leave. */
  lemma LogicWords(x: Cell, y: Cell, d: seq<Cell>, i: nat) returns (both: Cell, either: Cell, one: Cell, none: Cell)
    requires i < 64
    ensures Leaves(AndWord, x, y, d, both) && (Bit(both, i) <==> Bit(x, i) && Bit(y, i))
    ensures Leaves(OrWord, x, y, d, either) && (Bit(either, i) <==> Bit(x, i) || Bit(y, i))
    ensures Leaves(XorWord, x, y, d, one) && (Bit(one, i) <==> Bit(x, i) != Bit(y, i))
    ensures Turns(InvertWord, x, d, none) && (Bit(none, i) <==> !Bit(x, i))
  {
    hide NatBit, And, Or, Cells.Xor, Invert;
    Top2(x, y, d);
    BitWords(x, y, i);
    both, either, one, none := And(x, y), Or(x, y), Cells.Xor(x, y), Invert(x);
  }

  // ----- the return stack -----

  /** The state in which a routine of the return stack leaves the machine. */
  ghost predicate Gives(p: Prim, s: State, t: State)
    requires !p.Execute?
  {
    Routine(p, 0, s) == Some(t)
  }

  lemma Puts(s: State, x: Cell, y: Cell, d: seq<Cell>)
    ensures s.ds == [x] + d ==> Gives(ToR, s, s.(ds := d, rs := [x] + s.rs))
    ensures s.ds == [x, y] + d ==> Gives(TwoToR, s, s.(ds := d, rs := [x, y] + s.rs))
  {
    assert ([x] + d)[1..] == d && ([x, y] + d)[2..] == d;
  }

  lemma Takes(s: State, x: Cell, r: seq<Cell>)
    requires s.rs == [x] + r
    ensures Gives(RFrom, s, s.(ds := [x] + s.ds, rs := r))
    ensures Gives(RFetch, s, s.(ds := [x] + s.ds))
    ensures Gives(RDrop, s, s.(rs := r))
  {
    assert s.rs[1..] == r;
  }

  lemma TakesTwo(s: State, x: Cell, y: Cell, r: seq<Cell>)
    requires s.rs == [x, y] + r
    ensures Gives(TwoRFrom, s, s.(ds := [x, y] + s.ds, rs := r))
    ensures Gives(TwoRFetch, s, s.(ds := [x, y] + s.ds))
    ensures Gives(TwoRDrop, s, s.(rs := r))
  {
    assert s.rs[2..] == r;
  }

  /** What >r puts away r> brings back, r@ copies and rdrop throws away. */
  lemma OneCellAway(s: State) returns (t: State)
    requires |s.ds| >= 1
    ensures Gives(ToR, s, t) && t.ds == s.ds[1..] && |t.rs| == |s.rs| + 1
    ensures Gives(RFrom, t, s) && Gives(RFetch, t, t.(ds := s.ds)) && Gives(RDrop, t, s.(ds := s.ds[1..]))
  {
    hide Gives;
    var x, d := s.ds[0], s.ds[1..];
    assert s.ds == [x] + d;
    t := s.(ds := d, rs := [x] + s.rs);
    Puts(s, x, x, d);
    Takes(t, x, s.rs);
  }

  /** What 2>r puts away 2r> brings back, 2r@ copies and 2rdrop throws away; taken off one by
      one, the cell that was on top comes first. */
  lemma TwoCellsAway(s: State) returns (t: State, u: State)
    requires |s.ds| >= 2
    ensures Gives(TwoToR, s, t) && t.ds == s.ds[2..] && |t.rs| == |s.rs| + 2
    ensures Gives(TwoRFrom, t, s) && Gives(TwoRFetch, t, t.(ds := s.ds)) && Gives(TwoRDrop, t, s.(ds := s.ds[2..]))
    ensures Gives(RFrom, t, u) && u.ds == [s.ds[0]] + s.ds[2..]
    ensures Gives(RFrom, u, s.(ds := [s.ds[1], s.ds[0]] + s.ds[2..]))
  {
    hide Gives;
    var x, y, d := s.ds[0], s.ds[1], s.ds[2..];
    assert s.ds == [x, y] + d;
    t := s.(ds := d, rs := [x, y] + s.rs);
    u := s.(ds := [x] + d, rs := [y] + s.rs);
    Puts(s, x, y, d);
    TakesTwo(t, x, y, s.rs);
    assert [x, y] + s.rs == [x] + ([y] + s.rs) && [y] + ([x] + d) == [y, x] + d;
    Takes(t, x, [y] + s.rs);
    Takes(u, y, s.rs);
  }

  /** With too few cells a word has no meaning, and with enough it has one. */
  lemma Underflow(p: Prim, d: seq<Cell>)
    requires IsAlu(p)
    ensures Alu(p, d).Some? <==>
            |d| >= (if p.Nope? then 0
                    else if p in {Negate, InvertWord, TwoStar, TwoSlash, ZeroLess, ZeroEqual, Dup, Drop} then 1 else 2)
  {
    hide And, Or, Cells.Xor, Add, Mul, Sub, Unsigned;
  }
}
