/** The 16-bit CRC of src/crc16.c, in its fast and its bitwise form, and the Forth form of
    mu/lib/crc16.mu4, on words taken as their bits. */
module CrcCode {

  import opened Words

  /** crc16_byte_thierry */
  function Thierry(crc: Word, b: Octet): Word
  {
    var x := Low(Xor(Right(crc, 8), Fit(b, 16)), 8);
    var y := Xor(x, Right(x, 4));
    Xor(Xor(Xor(Left(crc, 8), Left(y, 12)), Left(y, 5)), y)
  }

  /** 0x1021 */
  function Taps(): Word { seq(16, i => i == 0 || i == 5 || i == 12) }

  /** One round of the loop in crc16_byte_xmodem. */
  function Round(crc: Word): Word { if crc[15] then Xor(Left(crc, 1), Taps()) else Left(crc, 1) }

  function Rounds(crc: Word, n: nat): Word { if n == 0 then crc else Round(Rounds(crc, n - 1)) }

  /** What crc16_byte_xmodem computes. */
  function Xmodem(crc: Word, b: Octet): Word { Rounds(Xor(crc, Left(Fit(b, 16), 8)), 8) }

  method XmodemByte(start: Word, b: Octet) returns (crc: Word)
    ensures crc == Xmodem(start, b)
  {
    crc := Xor(start, Left(Fit(b, 16), 8));
    for i := 0 to 8
      invariant crc == Rounds(Xor(start, Left(Fit(b, 16), 8)), i)
    {
      if crc[15] {
        crc := Xor(Left(crc, 1), Taps());
      } else {
        crc := Left(crc, 1);
      }
    }
  }

  /** Which function crc16_byte points to. */
  datatype Form = ThierryForm | XmodemForm

  function CrcByte(form: Form, crc: Word, b: Octet): Word
  {
    if form == ThierryForm then Thierry(crc, b) else Xmodem(crc, b)
  }

  function CrcOf(form: Form, crc: Word, p: seq<Octet>): Word
  {
    if p == [] then crc else CrcByte(form, CrcOf(form, crc, p[..|p| - 1]), p[|p| - 1])
  }

  /** crc16_buf */
  method CrcBuf(form: Form, start: Word, p: array<Octet>) returns (crc: Word)
    ensures crc == CrcOf(form, start, p[..])
  {
    crc := start;
    var i := 0;
    while i < p.Length
      invariant i <= p.Length && crc == CrcOf(form, start, p[..i])
    {
      assert p[..i + 1][..i] == p[..i];
      if form == ThierryForm {
        crc := Thierry(crc, p[i]);
      } else {
        crc := XmodemByte(crc, p[i]);
      }
      i := i + 1;
    }
    assert p[..i] == p[..];
  }

  /** crc16-byte  ( crc b - crc')  on cells. */
  function ForthByte(crc: WideCell, b: WideCell): WideCell
  {
    var x := Xor(SignedRight(crc, 8), b);
    var y := Xor(x, SignedRight(x, 4));
    Low(Xor(Xor(Xor(Left(crc, 8), Left(y, 12)), Left(y, 5)), y), 16)
  }

  function ForthOf(crc: WideCell, p: seq<Octet>): WideCell
  {
    if p == [] then crc else ForthByte(ForthOf(crc, p[..|p| - 1]), Fit(p[|p| - 1], 64))
  }

  /** crc16-buf  ( crc a u - crc') */
  method ForthBuf(start: WideCell, p: array<Octet>) returns (crc: WideCell)
    ensures crc == ForthOf(start, p[..])
  {
    crc := start;
    for i := 0 to p.Length
      invariant crc == ForthOf(start, p[..i])
    {
      assert p[..i + 1][..i] == p[..i];
      crc := ForthByte(crc, Fit(p[i], 64));
    }
    assert p[..p.Length] == p[..];
  }
}
