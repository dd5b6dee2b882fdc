/** Bytes of memory and 64-bit little-endian cells laid out in them. */
module Bytes {
  type Byte = x: int | 0 <= x < 256

  const MAX64: nat := 0x1_0000_0000_0000_0000

  /** h with the bytes b stored from address a on. */
  function Put(h: seq<Byte>, a: nat, b: seq<Byte>): (r: seq<Byte>)
    requires a + |b| <= |h|
    ensures |r| == |h|
  {
    h[..a] + b + h[a + |b|..]
  }

  lemma PutAt(h: seq<Byte>, a: nat, b: seq<Byte>)
    requires a + |b| <= |h|
    ensures Put(h, a, b)[a..a + |b|] == b
  {}

  lemma PutSlice(h: seq<Byte>, a: nat, b: seq<Byte>, i: nat, j: nat)
    requires a + |b| <= |h| && i <= j <= |b|
    ensures Put(h, a, b)[a + i..a + j] == b[i..j]
  {}

  /** Bytes outside the range stored are as they were. */
  lemma PutElsewhere(h: seq<Byte>, a: nat, b: seq<Byte>, lo: nat, hi: nat)
    requires a + |b| <= |h| && lo <= hi <= |h| && (hi <= a || a + |b| <= lo)
    ensures Put(h, a, b)[lo..hi] == h[lo..hi]
  {}

  function ToBytes(v: nat, n: nat): (b: seq<Byte>)
    ensures |b| == n
  {
    if n == 0 then [] else [v % 256] + ToBytes(v / 256, n - 1)
  }

  function FromBytes(b: seq<Byte>): nat
  {
    if b == [] then 0 else b[0] + 256 * FromBytes(b[1..])
  }

  function Power256(n: nat): nat { if n == 0 then 1 else 256 * Power256(n - 1) }

  lemma {:induction false} FromTo(v: nat, n: nat)
    requires v < Power256(n)
    ensures FromBytes(ToBytes(v, n)) == v
  {
    if n > 0 {
      FromTo(v / 256, n - 1);
      assert ToBytes(v, n)[1..] == ToBytes(v / 256, n - 1);
    }
  }

  function CellBytes(v: nat): (b: seq<Byte>)
    ensures |b| == 8
  {
    ToBytes(v, 8)
  }

  /** The cell at address a. */
  function CellAt(h: seq<Byte>, a: nat): nat
    requires a + 8 <= |h|
  {
    FromBytes(h[a..a + 8])
  }

  lemma CellRoundTrip(v: nat)
    requires v < MAX64
    ensures FromBytes(CellBytes(v)) == v
  {
    assert Power256(4) == 0x1_0000_0000;
    assert Power256(8) == MAX64 by {
      assert Power256(5) == 0x100_0000_0000;
      assert Power256(6) == 0x1_0000_0000_0000;
      assert Power256(7) == 0x100_0000_0000_0000;
    }
    FromTo(v, 8);
  }

  lemma CellPut(h: seq<Byte>, a: nat, v: nat)
    requires a + 8 <= |h| && v < MAX64
    ensures CellAt(Put(h, a, CellBytes(v)), a) == v
  {
    PutAt(h, a, CellBytes(v));
    CellRoundTrip(v);
  }
}
