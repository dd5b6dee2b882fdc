/** The 64-bit cell of the virtual machine (src/muforth.h) and the bitwise
    operations of src/kernel.c. Cells are signed; every arithmetic result wraps
    modulo 2^64, and the unsigned words read the same bits as a natural number. */
module Cells {
  const TWO63: int := 0x8000_0000_0000_0000
  const TWO64: int := 0x1_0000_0000_0000_0000

  type Cell = x: int | -TWO63 <= x < TWO63

  /** The cell congruent to x modulo 2^64. */
  function Wrap(x: int): (c: Cell)
    ensures -TWO63 <= x < TWO63 ==> c == x
    ensures (c - x) % TWO64 == 0
  {
    (x + TWO63) % TWO64 - TWO63
  }

  /** The bits of a cell read as an unsigned number. */
  function Unsigned(c: Cell): (u: nat)
    ensures u < TWO64 && Wrap(u) == c
  {
    if c < 0 then c + TWO64 else c
  }

  // Wrapping arithmetic

  function Add(a: Cell, b: Cell): Cell { Wrap(a as int + b as int) }

  function Sub(a: Cell, b: Cell): Cell { Wrap(a as int - b as int) }

  function Mul(a: Cell, b: Cell): Cell { Wrap(a as int * b as int) }

  /** Wrapping commutes with addition and subtraction. */
  lemma WrapAdd(x: int, y: int)
    ensures Add(Wrap(x), Wrap(y)) == Wrap(x + y)
    ensures Sub(Wrap(x), Wrap(y)) == Wrap(x - y)
  {
    var i, j := (x + TWO63) / TWO64, (y + TWO63) / TWO64;
    assert Wrap(x) == x - i * TWO64 && Wrap(y) == y - j * TWO64;
    WrapShift(x + y, -(i + j));
    WrapShift(x - y, j - i);
    assert Wrap(x) as int + Wrap(y) as int == (x + y) + -(i + j) * TWO64;
    assert Wrap(x) as int - Wrap(y) as int == (x - y) + (j - i) * TWO64;
  }

  lemma WrapShift(x: int, k: int)
    ensures Wrap(x + k * TWO64) == Wrap(x)
  {
    var q, r := (x + TWO63) / TWO64, (x + TWO63) % TWO64;
    assert x + k * TWO64 + TWO63 == (q + k) * TWO64 + r;
    RemainderUnique(x + k * TWO64 + TWO63, q + k, r);
  }

  lemma WrapMul(x: int, r: Cell)
    ensures Mul(Wrap(x), r) == Wrap(x * r)
  {
    var i := (x + TWO63) / TWO64;
    assert Wrap(x) == x - i * TWO64;
    WrapShift(x * r, -(i * r));
    assert (x - i * TWO64) * r == x * r + -(i * r) * TWO64;
  }

  lemma WrapZero(x: int)
    requires -TWO64 < x < TWO64
    ensures Wrap(x) == 0 <==> x == 0
  {}

  lemma RemainderUnique(a: int, q: int, r: int)
    requires a == q * TWO64 + r && 0 <= r < TWO64
    ensures a % TWO64 == r && a / TWO64 == q
  {}

  /** Forth truth values: all ones for true. */
  function Flag(b: bool): Cell { if b then -1 else 0 }

  // Bitwise operations on natural numbers, lowest bit first.

  function AndNat(a: nat, b: nat): (r: nat)
    ensures r <= a && r <= b
  {
    if a == 0 || b == 0 then 0 else (a % 2) * (b % 2) + 2 * AndNat(a / 2, b / 2)
  }

  function XorNat(a: nat, b: nat): nat
    decreases a + b
  {
    if a == 0 && b == 0 then 0
    else (if a % 2 == b % 2 then 0 else 1) + 2 * XorNat(a / 2, b / 2)
  }

  function And(a: Cell, b: Cell): Cell { Wrap(AndNat(Unsigned(a), Unsigned(b))) }

  function Xor(a: Cell, b: Cell): Cell { Wrap(XorNat(Unsigned(a), Unsigned(b))) }

  /** a or b == (a xor b) xor (a and b): the two operands of the outer xor share no bit. */
  function Or(a: Cell, b: Cell): Cell { Xor(Xor(a, b), And(a, b)) }

  function Invert(a: Cell): Cell { -1 - a }

  function Pow2(n: nat): (p: nat)
    ensures p >= 1
  {
    if n == 0 then 1 else 2 * Pow2(n - 1)
  }

  lemma {:induction false} AndOnes(a: nat, n: nat)
    requires a < Pow2(n)
    ensures AndNat(a, Pow2(n) - 1) == a
  {
    if n > 0 {
      AndOnes(a / 2, n - 1);
      assert (Pow2(n) - 1) / 2 == Pow2(n - 1) - 1;
    }
  }

  lemma {:induction false} Pow2Add(m: nat, n: nat)
    ensures Pow2(m + n) == Pow2(m) * Pow2(n)
  {
    if m > 0 {
      Pow2Add(m - 1, n);
      calc {
        Pow2(m + n);
        2 * Pow2(m - 1 + n);
        2 * (Pow2(m - 1) * Pow2(n));
        Pow2(m) * Pow2(n);
      }
    }
  }

  lemma Pow2Is64()
    ensures Pow2(64) == TWO64
  {
    assert Pow2(8) == 256 by { assert Pow2(4) == 16; assert Pow2(6) == 64; }
    Pow2Add(8, 8);
    Pow2Add(16, 16);
    Pow2Add(32, 32);
  }

  /** `and` with a truth value keeps or clears the other operand. */
  lemma AndFlag(c: Cell, b: bool)
    ensures And(c, Flag(b)) == if b then c else 0
  {
    Pow2Is64();
    AndOnes(Unsigned(c), 64);
  }
}
