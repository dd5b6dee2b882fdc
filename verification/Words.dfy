/** Machine words as their bits, lowest first, and the shifts and xors of C and Forth. */
module Words {
  type Bits = seq<bool>
  type Word = w: seq<bool> | |w| == 16 witness seq(16, i => false)
  type Octet = w: seq<bool> | |w| == 8 witness seq(8, i => false)
  type WideCell = w: seq<bool> | |w| == 64 witness seq(64, i => false)

  function Xor(a: Bits, b: Bits): (r: Bits)
    requires |a| == |b|
    ensures |r| == |a|
  {
    seq(|a|, i requires 0 <= i < |a| => a[i] != b[i])
  }

  /** a << k, cut down to the width of a. */
  function Left(a: Bits, k: nat): (r: Bits)
    ensures |r| == |a|
  {
    seq(|a|, i requires 0 <= i < |a| => i >= k && a[i - k])
  }

  /** a >> k of an unsigned number. */
  function Right(a: Bits, k: nat): (r: Bits)
    ensures |r| == |a|
  {
    seq(|a|, i requires 0 <= i < |a| => i + k < |a| && a[i + k])
  }

  /** a >> k of a signed number: the sign bit fills. */
  function SignedRight(a: Bits, k: nat): (r: Bits)
    requires |a| > 0
    ensures |r| == |a|
  {
    seq(|a|, i requires 0 <= i < |a| => if i + k < |a| then a[i + k] else a[|a| - 1])
  }

  /** The low n bits. */
  function Low(a: Bits, n: nat): (r: Bits)
    ensures |r| == |a|
  {
    seq(|a|, i requires 0 <= i < |a| => i < n && a[i])
  }

  /** a in a word of another width: cut off, or filled up with zeros. */
  function Fit(a: Bits, width: nat): (r: Bits)
    ensures |r| == width
  {
    seq(width, i requires 0 <= i < width => i < |a| && a[i])
  }
}
