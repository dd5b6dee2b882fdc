/** Intel hex records, as mu/lib/intel-hex.mu4 writes and reads them, and why reading
    what was written puts the bytes back where they were. */
module IntelHex {
  import opened Bytes
  import opened Cells
  import opened Numbers

  // ----- writing -----

  /** >hex */
  function HexDigit(n: nat): Byte
    requires n < 16
  {
    n + (if n > 9 then 7 else 0) + 48
  }

  /** ihwb,  The low byte of x as two digits. */
  function Hex(x: int): (s: seq<Byte>)
    ensures |s| == 2
  {
    [HexDigit(x / 16 % 16), HexDigit(x % 16)]
  }

  function HexAll(bs: seq<Byte>): (s: seq<Byte>)
    ensures |s| == 2 * |bs|
  {
    if bs == [] then [] else HexAll(bs[..|bs| - 1]) + Hex(bs[|bs| - 1])
  }

  function Sum(bs: seq<Byte>): nat
  {
    if bs == [] then 0 else Sum(bs[..|bs| - 1]) + bs[|bs| - 1]
  }

  /** >hilo, cut down to the bytes that are written. */
  function Hi(ta: nat): Byte { ta / 256 % 256 }

  function Lo(ta: nat): Byte { ta % 256 }

  /** Everything a record says before its checksum. */
  function Said(ta: nat, tag: Byte, data: seq<Byte>): seq<Byte>
    requires |data| < 256
  {
    [|data|, Hi(ta), Lo(ta), tag] + data
  }

  /** The checksum byte that makes the sum of all bytes zero modulo 256. */
  function Check(bs: seq<Byte>): Byte { -(Sum(bs) as int) % 256 }

  function Payload(ta: nat, tag: Byte, data: seq<Byte>): seq<Byte>
    requires |data| < 256
  {
    Said(ta, tag, data) + [Check(Said(ta, tag, data))]
  }

  const COLON: Byte := 58
  const NEWLINE: Byte := 10

  /** A whole line:  :llaaaatt(dd...)cc  */
  function Line(ta: nat, tag: Byte, data: seq<Byte>): seq<Byte>
    requires |data| < 256
  {
    [COLON] + HexAll(Payload(ta, tag, data)) + [NEWLINE]
  }

  const CHUNK: nat := 16

  function Least(a: nat, b: nat): nat { if a < b then a else b }

  /** ihwchunks  Data records of 16 bytes, and one for what is left. */
  function Chunks(target: nat, image: seq<Byte>): seq<Byte>
    decreases |image|
  {
    if image == [] then []
    else
      var n := Least(CHUNK, |image|);
      Line(target, 0, image[..n]) + Chunks(target + n, image[n..])
  }

  function EndLine(): seq<Byte> { Line(0, 1, []) }

  /** ihwext: the high 16 bits of the addresses that follow. */
  function ExtLine(ext: nat): seq<Byte> { Line(0, 4, [Hi(ext), Lo(ext)]) }

  /** ihwseg: the addresses that follow are above 16 times this. */
  function SegLine(seg: nat): seq<Byte> { Line(0, 2, [Hi(seg), Lo(seg)]) }

  // ----- what the text looks like -----

  /** 0123456789ABCDEF */
  const DIGITS: seq<Byte> := [48, 49, 50, 51, 52, 53, 54, 55, 56, 57, 65, 66, 67, 68, 69, 70]

  lemma HexLooks(b: Byte)
    ensures Hex(b) == [DIGITS[b / 16], DIGITS[b % 16]]
  {
    assert b / 16 % 16 == b / 16;
    DigitLooks(b / 16);
    DigitLooks(b % 16);
  }

  lemma DigitLooks(n: nat)
    requires n < 16
    ensures HexDigit(n) == DIGITS[n]
  {}

  /** The k-th byte of a record. */
  function ByteOf(ta: nat, tag: Byte, data: seq<Byte>, check: Byte, k: nat): Byte
    requires |data| < 256 && k < 5 + |data|
  {
    if k == 0 then |data| else if k == 1 then ta / 256 % 256 else if k == 2 then ta % 256 else if k == 3 then tag
    else if k < 4 + |data| then data[k - 4] else check
  }

  /** A record is a line: a colon, two capital hex digits for each byte, and a newline. The
      bytes are the count, the address with its high byte first, the type, the data, and one
      that makes them all sum to zero. */
  lemma LineLooks(ta: nat, tag: Byte, data: seq<Byte>) returns (check: Byte)
    requires |data| < 256
    ensures (|data| + ta / 256 % 256 + ta % 256 + tag + Sum(data) + check) % 256 == 0
    ensures var line := Line(ta, tag, data);
            |line| == 12 + 2 * |data| && line[0] == 58 && line[|line| - 1] == 10
            && forall k :: 0 <= k < 5 + |data| ==>
                 line[2 * k + 1] == DIGITS[ByteOf(ta, tag, data, check, k) / 16]
                 && line[2 * k + 2] == DIGITS[ByteOf(ta, tag, data, check, k) % 16]
  {
    hide Hex, HexAll, Sum, Check;
    var bs, line := Payload(ta, tag, data), Line(ta, tag, data);
    check := Check(Said(ta, tag, data));
    assert Sum(Said(ta, tag, data)) == |data| + ta / 256 % 256 + ta % 256 + tag + Sum(data) by {
      SaidSum(ta, tag, data);
    }
    assert (Sum(Said(ta, tag, data)) + check) % 256 == 0 by { CheckIs(Said(ta, tag, data)); }
    forall k | 0 <= k < 5 + |data|
      ensures line[2 * k + 1] == DIGITS[ByteOf(ta, tag, data, check, k) / 16]
      ensures line[2 * k + 2] == DIGITS[ByteOf(ta, tag, data, check, k) % 16]
    {
      assert bs[k] == ByteOf(ta, tag, data, check, k);
      HexAllAt(bs, k);
      HexLooks(bs[k]);
    }
  }

  lemma CheckIs(bs: seq<Byte>)
    ensures (Sum(bs) + Check(bs)) % 256 == 0
  {}

  lemma {:induction false} SumJoins(x: seq<Byte>, y: seq<Byte>)
    ensures Sum(x + y) == Sum(x) + Sum(y)
    decreases |y|
  {
    if y == [] {
      assert x + y == x;
    } else {
      SumJoins(x, y[..|y| - 1]);
      assert (x + y)[..|x + y| - 1] == x + y[..|y| - 1];
    }
  }

  lemma SaidSum(ta: nat, tag: Byte, data: seq<Byte>)
    requires |data| < 256
    ensures Sum(Said(ta, tag, data)) == |data| + ta / 256 % 256 + ta % 256 + tag + Sum(data)
  {
    hide Sum;
    var head: seq<Byte> := [|data|, Hi(ta), Lo(ta), tag];
    SumJoins(head, data);
    HeadSum(|data|, Hi(ta), Lo(ta), tag);
  }

  lemma HeadSum(a: Byte, b: Byte, c: Byte, d: Byte)
    ensures Sum([a, b, c, d]) == a + b + c + d
  {
    var s: seq<Byte> := [a, b, c, d];
    var t: seq<Byte> := [a, b, c];
    var u: seq<Byte> := [a, b];
    assert s[..3] == t && t[..2] == u && u[..1] == [a];
    assert Sum([a]) == a by { assert [a][..0] == []; }
    assert Sum(u) == a + b;
  }

  /** :00000001FF  ends a file; :02000002  and  :02000004  start the records of ihwseg and
      ihwext. */
  lemma FixedLooks(v: nat)
    ensures EndLine() == [58, 48, 48, 48, 48, 48, 48, 48, 49, 70, 70, 10]
    ensures SegLine(v)[..9] == [58, 48, 50, 48, 48, 48, 48, 48, 50]
    ensures ExtLine(v)[..9] == [58, 48, 50, 48, 48, 48, 48, 48, 52]
  {
    hide HexAll, Hex, Sum, Line;
    var e := LineLooks(0, 1, []);
    assert Sum([]) == 0 by { SumNone(); }
    assert e == 255;
    LineSlots(EndLine(), 0, 1, [], e);
    var data: seq<Byte> := [Hi(v), Lo(v)];
    var c := LineLooks(0, 2, data);
    LineSlots(SegLine(v), 0, 2, data, c);
    var d := LineLooks(0, 4, data);
    LineSlots(ExtLine(v), 0, 4, data, d);
  }

  lemma SumNone()
    ensures Sum([]) == 0
  {}

  /** The first bytes of a line, digit by digit; all of them if there are no data. */
  lemma LineSlots(line: seq<Byte>, ta: nat, tag: Byte, data: seq<Byte>, check: Byte)
    requires |data| < 256 && |line| == 12 + 2 * |data| && line[0] == 58 && line[|line| - 1] == 10
    requires forall k :: 0 <= k < 5 + |data| ==>
               line[2 * k + 1] == DIGITS[ByteOf(ta, tag, data, check, k) / 16]
               && line[2 * k + 2] == DIGITS[ByteOf(ta, tag, data, check, k) % 16]
    ensures line[..9] == [58, DIGITS[|data| / 16], DIGITS[|data| % 16], DIGITS[ta / 256 % 256 / 16],
                          DIGITS[ta / 256 % 256 % 16], DIGITS[ta % 256 / 16], DIGITS[ta % 256 % 16],
                          DIGITS[tag / 16], DIGITS[tag % 16]]
    ensures data == [] ==> line == line[..9] + [DIGITS[check / 16], DIGITS[check % 16], 10]
  {
    var a, b, c, d := ByteOf(ta, tag, data, check, 0), ByteOf(ta, tag, data, check, 1),
                      ByteOf(ta, tag, data, check, 2), ByteOf(ta, tag, data, check, 3);
    assert line[2 * 0 + 1] == DIGITS[a / 16] && line[2 * 0 + 2] == DIGITS[a % 16];
    assert line[2 * 1 + 1] == DIGITS[b / 16] && line[2 * 1 + 2] == DIGITS[b % 16];
    assert line[2 * 2 + 1] == DIGITS[c / 16] && line[2 * 2 + 2] == DIGITS[c % 16];
    assert line[2 * 3 + 1] == DIGITS[d / 16] && line[2 * 3 + 2] == DIGITS[d % 16];
    if data == [] {
      var e := ByteOf(ta, tag, data, check, 4);
      assert line[2 * 4 + 1] == DIGITS[e / 16] && line[2 * 4 + 2] == DIGITS[e % 16];
    }
  }

  // ----- reading -----

  /** m*  Past the end of what is in memory there are zeros. */
  function CharAt(t: seq<Byte>, m: nat): Byte { if m < |t| then t[m] else 0 }

  /** hh*  Digits are taken on trust, so the radix does not matter. */
  function Pair(t: seq<Byte>, m: nat): int { DigitOf(CharAt(t, m)) * 16 + DigitOf(CharAt(t, m + 1)) }

  lemma PairSmall(t: seq<Byte>, m: nat)
    ensures -2000 < Pair(t, m) < 3000
  {}

  /** The sum hh* keeps, over n pairs. */
  function PairSum(t: seq<Byte>, m: nat, n: nat): int
  {
    if n == 0 then 0 else PairSum(t, m, n - 1) + Pair(t, m + 2 * (n - 1))
  }

  /** ihraddr */
  function PairAddress(t: seq<Byte>, m: nat): Cell
  {
    PairSmall(t, m);
    PairSmall(t, m + 2);
    Pair(t, m) * 256 + Pair(t, m + 2)
  }

  /** Target memory, and the variables ihrbase and ihrlast. */
  datatype Target = Target(bytes: map<Cell, Byte>, base: Cell, last: Cell)

  /** n bytes read from t and stored from address p on. */
  function Stored(t: seq<Byte>, m: nat, n: nat, p: Cell, bytes: map<Cell, Byte>): map<Cell, Byte>
  {
    if n == 0 then bytes else Stored(t, m, n - 1, p, bytes)[Wrap(p + n - 1) := Pair(t, m + 2 * (n - 1)) % 256]
  }

  /** Where a record ends up: the target, and how many pairs came before the checksum. */
  datatype Reading = Reading(target: Target, pairs: nat)

  /** ihrtype  The record whose first digit is at m. */
  function ReadRecord(t: seq<Byte>, m: nat, g: Target): Reading
  {
    PairSmall(t, m);
    var count := Pair(t, m);
    var n := Unsigned(count);
    var addr := PairAddress(t, m + 2);
    var tag := Pair(t, m + 6);
    if tag == 0 then
      Reading(Target(Stored(t, m + 8, n, Add(addr, g.base), g.bytes), g.base, Add(Add(count, addr), g.base)), 4 + n)
    else if tag == 1 then Reading(g, 4)
    else if tag == 2 then Reading(g.(base := Mul(PairAddress(t, m + 8), 16)), 6)
    else if tag == 4 then Reading(g.(base := Mul(PairAddress(t, m + 8), 65536)), 6)
    else Reading(g, 4 + n)
  }

  /** ihrscan  The next colon before the end, or the end. */
  function Colon(t: seq<Byte>, m: nat, end: nat): (c: nat)
    ensures m < end ==> m <= c
    decreases end - m
  {
    if m >= end then end else if CharAt(t, m) == COLON then m else Colon(t, m + 1, end)
  }

  datatype Outcome = Finished(target: Target) | BadChecksum(target: Target)

  /** parse-ihex */
  function Parse(t: seq<Byte>, m: nat, end: nat, g: Target): Outcome
    decreases if m < end then end - m else 0
  {
    var c := Colon(t, m, end);
    if m >= end || c >= end then Finished(g)
    else
      var r := ReadRecord(t, c + 1, g);
      if PairSum(t, c + 1, r.pairs + 1) % 256 != 0 then BadChecksum(r.target)
      else Parse(t, c + 1 + 2 * (r.pairs + 1), end, r.target)
  }

  // ----- reading what was written -----

  /** From m on, t has these bytes in hex. */
  ghost predicate HasPairs(t: seq<Byte>, m: nat, bs: seq<Byte>)
  {
    forall i :: 0 <= i < |bs| ==> PairIs(t, m, bs, i)
  }

  predicate PairIs(t: seq<Byte>, m: nat, bs: seq<Byte>, i: nat)
    requires i < |bs|
  {
    Pair(t, m + 2 * i) == bs[i]
  }

  lemma HexRead(b: Byte)
    ensures DigitOf(Hex(b)[0]) * 16 + DigitOf(Hex(b)[1]) == b
    ensures Hex(b)[0] != COLON && Hex(b)[1] != COLON
  {
    DigitsRead(b / 16 % 16);
    DigitsRead(b % 16);
  }

  lemma DigitsRead(n: nat)
    requires n < 16
    ensures DigitOf(HexDigit(n)) == n && HexDigit(n) != COLON
  {}

  lemma {:induction false} HexAllAt(bs: seq<Byte>, i: nat)
    requires i < |bs|
    ensures HexAll(bs)[2 * i] == Hex(bs[i])[0] && HexAll(bs)[2 * i + 1] == Hex(bs[i])[1]
    decreases |bs|
  {
    hide Hex;
    if i < |bs| - 1 { HexAllAt(bs[..|bs| - 1], i); }
  }

  /** Where the text of bytes stands, the bytes are read. */
  lemma HexPairs(t: seq<Byte>, m: nat, bs: seq<Byte>)
    requires m + 2 * |bs| <= |t| && t[m..m + 2 * |bs|] == HexAll(bs)
    ensures HasPairs(t, m, bs)
  {
    hide Hex, DigitOf, HexAll;
    forall i | 0 <= i < |bs| ensures PairIs(t, m, bs, i) {
      HexAllAt(bs, i);
      HexRead(bs[i]);
      assert t[m + 2 * i] == t[m..m + 2 * |bs|][2 * i];
      assert t[m + 2 * i + 1] == t[m..m + 2 * |bs|][2 * i + 1];
    }
  }

  lemma {:induction false} PairSums(t: seq<Byte>, m: nat, bs: seq<Byte>, n: nat)
    requires HasPairs(t, m, bs) && n <= |bs|
    ensures PairSum(t, m, n) == Sum(bs[..n])
  {
    hide Pair;
    if n > 0 {
      PairSums(t, m, bs, n - 1);
      assert PairIs(t, m, bs, n - 1);
      assert bs[..n][..n - 1] == bs[..n - 1];
    }
  }

  /** The checksum makes every record sum to zero. */
  lemma ChecksumZero(ta: nat, tag: Byte, data: seq<Byte>)
    requires |data| < 256
    ensures Sum(Payload(ta, tag, data)) % 256 == 0
  {
    var bs := Said(ta, tag, data);
    assert Payload(ta, tag, data)[..|bs|] == bs;
  }

  /** The bytes of data written at p and on. */
  function Placed(p: int, data: seq<Byte>, bytes: map<Cell, Byte>): map<Cell, Byte>
  {
    if data == [] then bytes
    else Placed(p, data[..|data| - 1], bytes)[Wrap(p + |data| - 1) := data[|data| - 1]]
  }

  lemma {:induction false} StoredIsPlaced(t: seq<Byte>, m: nat, n: nat, p: Cell, bytes: map<Cell, Byte>,
                                          data: seq<Byte>)
    requires HasPairs(t, m, data) && n <= |data|
    ensures Stored(t, m, n, p, bytes) == Placed(p, data[..n], bytes)
  {
    hide Pair, Wrap;
    if n > 0 {
      StoredIsPlaced(t, m, n - 1, p, bytes, data);
      assert PairIs(t, m, data, n - 1);
      assert data[..n][..n - 1] == data[..n - 1];
    }
  }

  /** What reading a record does. */
  function After(ta: nat, tag: Byte, data: seq<Byte>, g: Target): Target
    requires |data| < 256
  {
    if tag == 0 then
      Target(Placed(Add(ta % 65536, g.base), data, g.bytes), g.base, Add(Add(|data|, ta % 65536), g.base))
    else if tag in {2, 4} && |data| == 2 then
      g.(base := Wrap((data[0] as int * 256 + data[1]) * if tag == 2 then 16 else 65536))
    else g
  }

  /** The reader takes for granted how many bytes an end, segment or extension record has.
      Of other types it skips as many as there are. */
  predicate WellSized(tag: Byte, data: seq<Byte>)
  {
    |data| < 256 && (tag == 1 ==> data == []) && (tag in {2, 4} ==> |data| == 2)
  }

  lemma RecordRead(t: seq<Byte>, m: nat, ta: nat, tag: Byte, data: seq<Byte>, g: Target)
    requires WellSized(tag, data)
    requires HasPairs(t, m, Payload(ta, tag, data))
    ensures ReadRecord(t, m, g) == Reading(After(ta, tag, data, g), 4 + |data|)
    ensures PairSum(t, m, 5 + |data|) % 256 == 0
  {
    hide Pair, Wrap, Sum, Add, Stored, Placed, PairSum, HasPairs, Payload, PairAddress;
    RecordFields(t, m, ta, tag, data);
    if tag == 0 {
      StoredIsPlaced(t, m + 8, |data|, Add(ta % 65536, g.base), g.bytes, data);
      assert data[..|data|] == data;
    } else if tag in {2, 4} {
      ExtAddress(t, m + 8, data);
    }
  }

  lemma RecordFields(t: seq<Byte>, m: nat, ta: nat, tag: Byte, data: seq<Byte>)
    requires |data| < 256 && HasPairs(t, m, Payload(ta, tag, data))
    ensures Pair(t, m) == |data| && PairAddress(t, m + 2) == ta % 65536 && Pair(t, m + 6) == tag
    ensures HasPairs(t, m + 8, data)
    ensures PairSum(t, m, 5 + |data|) % 256 == 0
  {
    hide Pair, Sum, PairSum;
    var bs := Payload(ta, tag, data);
    PairSums(t, m, bs, |bs|);
    assert bs[..|bs|] == bs;
    ChecksumZero(ta, tag, data);
    assert PairIs(t, m, bs, 0) && PairIs(t, m, bs, 1) && PairIs(t, m, bs, 2) && PairIs(t, m, bs, 3);
    assert (ta / 256 % 256) * 256 + ta % 256 == ta % 65536;
    var m8 := m + 8;
    forall i | 0 <= i < |data| ensures PairIs(t, m8, data, i) { assert PairIs(t, m, bs, i + 4); }
  }

  lemma ExtAddress(t: seq<Byte>, m: nat, data: seq<Byte>)
    requires |data| == 2 && HasPairs(t, m, data)
    ensures PairAddress(t, m) == data[0] as int * 256 + data[1]
  {
    hide Pair;
    assert PairIs(t, m, data, 0) && PairIs(t, m, data, 1);
  }

  lemma SubSlice(t: seq<Byte>, m: nat, n: nat, i: nat, j: nat)
    requires m + n <= |t| && i <= j <= n
    ensures t[m..m + n][i..j] == t[m + i..m + j]
  {
    var a, b := t[m..m + n][i..j], t[m + i..m + j];
    assert |a| == |b| && forall k :: 0 <= k < |a| ==> a[k] == b[k];
  }

  /** A line at m, inside the text, is read as its record, and reading goes on after it. */
  lemma LineParsed(t: seq<Byte>, m: nat, end: nat, ta: nat, tag: Byte, data: seq<Byte>, g: Target)
    requires WellSized(tag, data)
    requires m + |Line(ta, tag, data)| <= end <= |t| && t[m..m + |Line(ta, tag, data)|] == Line(ta, tag, data)
    ensures Parse(t, m, end, g) == Parse(t, m + |Line(ta, tag, data)|, end, After(ta, tag, data, g))
  {
    hide HexAll, Payload, ReadRecord, PairSum, After, HasPairs, Parse;
    var bs, line := Payload(ta, tag, data), Line(ta, tag, data);
    var w := t[m..m + |line|];
    assert |bs| == 5 + |data| by { PayloadSize(ta, tag, data); }
    var k := 2 * |bs|;
    assert w[1..1 + k] == HexAll(bs);
    SubSlice(t, m, |line|, 1, 1 + k);
    assert t[m] == w[0] && t[m + 1 + 2 * |bs|] == w[1 + 2 * |bs|];
    HexPairs(t, m + 1, bs);
    RecordRead(t, m + 1, ta, tag, data, g);
    assert Colon(t, m, end) == m;
    ParseRecord(t, m, end, g);
    ParseSkips(t, m + 1 + 2 * |bs|, end, After(ta, tag, data, g));
  }

  lemma PayloadSize(ta: nat, tag: Byte, data: seq<Byte>)
    requires |data| < 256
    ensures |Payload(ta, tag, data)| == 5 + |data|
  {}

  lemma ParseRecord(t: seq<Byte>, m: nat, end: nat, g: Target)
    requires m < end && Colon(t, m, end) == m && PairSum(t, m + 1, ReadRecord(t, m + 1, g).pairs + 1) % 256 == 0
    ensures var r := ReadRecord(t, m + 1, g); Parse(t, m, end, g) == Parse(t, m + 1 + 2 * (r.pairs + 1), end, r.target)
  {
    hide ReadRecord, PairSum;
  }

  lemma ParseSkips(t: seq<Byte>, m: nat, end: nat, g: Target)
    requires m < end && CharAt(t, m) != COLON
    ensures Parse(t, m, end, g) == Parse(t, m + 1, end, g)
  {
    hide ReadRecord, PairSum;
    assert Colon(t, m, end) == Colon(t, m + 1, end);
    if m + 1 >= end { assert Colon(t, m + 1, end) == end; }
  }

  // ----- round trips -----

  /** Every record starts in the 64 KiB window that begins at base. */
  predicate InWindow(base: int, target: nat, length: nat)
  {
    base % 65536 == 0 && base <= target && target + length < TWO63
    && (length == 0 || target + (length - 1) / 16 * 16 < base + 65536)
  }

  /** Target memory after the data records of image have been read: a record has room for 16
      bits of its address, so each lands that far above the base. */
  function Landed(base: Cell, target: nat, image: seq<Byte>, bytes: map<Cell, Byte>): map<Cell, Byte>
    decreases |image|
  {
    if image == [] then bytes
    else
      var n := Least(CHUNK, |image|);
      Landed(base, target + n, image[n..], Placed(Add(target % 65536, base), image[..n], bytes))
  }

  /** ihrlast after them. */
  function LastOf(base: Cell, target: nat, image: seq<Byte>, last: Cell): Cell
    decreases |image|
  {
    if image == [] then last
    else
      var n := Least(CHUNK, |image|);
      LastOf(base, target + n, image[n..], Add(Add(n, target % 65536), base))
  }

  lemma AfterData(ta: nat, data: seq<Byte>, g: Target)
    requires |data| < 256
    ensures After(ta, 0, data, g) ==
            Target(Placed(Add(ta % 65536, g.base), data, g.bytes), g.base, Add(Add(|data|, ta % 65536), g.base))
  {}

  /** Data records are read without error, wherever their bytes land. */
  lemma {:induction false} ChunksLand(t: seq<Byte>, m: nat, end: nat, target: nat, image: seq<Byte>, g: Target)
    requires m + |Chunks(target, image)| <= end <= |t| && t[m..m + |Chunks(target, image)|] == Chunks(target, image)
    ensures Parse(t, m, end, g) ==
            Parse(t, m + |Chunks(target, image)|, end,
                  Target(Landed(g.base, target, image, g.bytes), g.base, LastOf(g.base, target, image, g.last)))
    decreases |image|
  {
    hide Line, Parse, Wrap, Placed, Add, After;
    if image != [] {
      var n := Least(CHUNK, |image|);
      var line, rest := Line(target, 0, image[..n]), Chunks(target + n, image[n..]);
      var w := t[m..m + |line| + |rest|];
      assert w == line + rest;
      assert t[m..m + |line|] == w[..|line|] == line;
      assert t[m + |line|..m + |line| + |rest|] == w[|line|..] == rest;
      LineParsed(t, m, end, target, 0, image[..n], g);
      var g' := After(target, 0, image[..n], g);
      assert g' == Target(Placed(Add(target % 65536, g.base), image[..n], g.bytes), g.base,
                          Add(Add(n, target % 65536), g.base)) by { AfterData(target, image[..n], g); }
      ChunksLand(t, m + |line|, end, target + n, image[n..], g');
    }
  }

  /** Inside the window they land where they were. */
  lemma {:induction false} LandedInWindow(base: Cell, target: nat, image: seq<Byte>, bytes: map<Cell, Byte>, last: Cell)
    requires 0 <= base && InWindow(base, target, |image|)
    ensures Landed(base, target, image, bytes) == Placed(target, image, bytes)
    ensures LastOf(base, target, image, last) == if image == [] then last else target + |image|
    decreases |image|
  {
    hide Wrap, Placed, Add;
    if image == [] {
      PlacedNothing(target, bytes);
    } else {
      var n := Least(CHUNK, |image|);
      WindowOffset(base, target, |image|);
      WrapSmall(n, target, base);
      LandedInWindow(base, target + n, image[n..], Placed(target, image[..n], bytes), target + n);
      PlacedJoins(target, image[..n], image[n..], bytes);
      assert image[..n] + image[n..] == image;
    }
  }

  /** Data records put their bytes back where they were. */
  lemma ChunksParsed(t: seq<Byte>, m: nat, end: nat, target: nat, image: seq<Byte>, g: Target)
    requires m + |Chunks(target, image)| <= end <= |t| && t[m..m + |Chunks(target, image)|] == Chunks(target, image)
    requires 0 <= g.base && InWindow(g.base, target, |image|)
    ensures Parse(t, m, end, g) ==
            Parse(t, m + |Chunks(target, image)|, end,
                  Target(Placed(target, image, g.bytes), g.base, if image == [] then g.last else target + |image|))
  {
    hide Chunks, Parse, Placed, Landed, LastOf;
    ChunksLand(t, m, end, target, image, g);
    LandedInWindow(g.base, target, image, g.bytes, g.last);
  }

  lemma WrapSmall(n: nat, target: nat, base: nat)
    requires base <= target && target + n < TWO63
    ensures Add(target - base, base) == target && Add(Add(n, target - base), base) == target + n
  {}

  lemma WindowOffset(base: nat, target: nat, length: nat)
    requires InWindow(base, target, length) && length > 0
    ensures target % 65536 == target - base
  {}

  lemma PlacedNothing(p: nat, bytes: map<Cell, Byte>)
    ensures Placed(p, [], bytes) == bytes
  {}

  lemma {:induction false} PlacedJoins(p: int, x: seq<Byte>, y: seq<Byte>, bytes: map<Cell, Byte>)
    ensures Placed(p + |x|, y, Placed(p, x, bytes)) == Placed(p, x + y, bytes)
    decreases |y|
  {
    hide Wrap;
    if y == [] {
      assert x + y == x;
    } else {
      PlacedJoins(p, x, y[..|y| - 1], bytes);
      assert (x + y)[..|x + y| - 1] == x + y[..|y| - 1];
    }
  }

  /** Placed rewrites exactly the addresses p and up, one per byte. */
  lemma {:induction false} PlacedIs(p: nat, data: seq<Byte>, bytes: map<Cell, Byte>)
    requires p + |data| < TWO63
    ensures forall a: Cell :: a in Placed(p, data, bytes) <==> a in bytes || p <= a < p + |data|
    ensures forall a: Cell :: a in Placed(p, data, bytes) ==>
              Placed(p, data, bytes)[a] == if p <= a < p + |data| then data[a - p] else bytes[a]
  {
    if data != [] { PlacedIs(p, data[..|data| - 1], bytes); }
  }

  /** What precedes the data: nothing, or the record that ihwseg or ihwext writes. */
  datatype Start = Plain | Segment(seg: nat) | Extended(ext: nat)

  function StartLine(s: Start): seq<Byte>
  {
    if s.Plain? then [] else if s.Segment? then SegLine(s.seg) else ExtLine(s.ext)
  }

  predicate Fits(s: Start) { (s.Segment? ==> s.seg < 65536) && (s.Extended? ==> s.ext < 65536) }

  /** The base in force when the data records come. */
  function BaseAfter(s: Start, base: Cell): int
  {
    if s.Plain? then base else if s.Segment? then s.seg * 16 else s.ext * 65536
  }

  lemma ExtRead(ext: nat, g: Target)
    requires ext < 65536
    ensures After(0, 4, [Hi(ext), Lo(ext)], g) == g.(base := ext * 65536)
    ensures After(0, 2, [Hi(ext), Lo(ext)], g) == g.(base := ext * 16)
  {
    assert (ext / 256 % 256) * 256 + ext % 256 == ext;
    assert Wrap(ext * 65536) == ext * 65536 && Wrap(ext * 16) == ext * 16;
  }

  lemma StartParsed(s: Start, t: seq<Byte>, g: Target)
    requires Fits(s) && StartLine(s) <= t
    ensures Parse(t, 0, |t|, g) == Parse(t, |StartLine(s)|, |t|, g.(base := BaseAfter(s, g.base)))
  {
    hide Line, Parse, After;
    if !s.Plain? {
      var tag, v := if s.Segment? then 2 else 4, if s.Segment? then s.seg else s.ext;
      var data: seq<Byte> := [Hi(v), Lo(v)];
      assert StartLine(s) == Line(0, tag, data);
      LineParsed(t, 0, |t|, 0, tag, data, g);
      ExtRead(v, g);
    }
  }

  /** Everything the writer writes for an image. */
  function File(s: Start, target: nat, image: seq<Byte>): seq<Byte> { StartLine(s) + Chunks(target, image) + EndLine() }

  /** What ihwchunks and ihwend write, perhaps after ihwseg or ihwext, is read without error,
      wherever the bytes land. */
  lemma FileReads(s: Start, target: nat, image: seq<Byte>, g: Target)
    requires Fits(s)
    ensures var text, base := File(s, target, image), BaseAfter(s, g.base);
            Parse(text, 0, |text|, g) ==
            Finished(Target(Landed(base, target, image, g.bytes), base, LastOf(base, target, image, g.last)))
  {
    hide Line, Parse, Landed, LastOf, Chunks;
    var start, chunks, last := StartLine(s), Chunks(target, image), EndLine();
    var text := start + chunks + last;
    var g0 := g.(base := BaseAfter(s, g.base));
    assert text[|start|..|start| + |chunks|] == chunks;
    assert text[|start| + |chunks|..|start| + |chunks| + |last|] == last;
    StartParsed(s, text, g);
    ChunksLand(text, |start|, |text|, target, image, g0);
    var g1 := Target(Landed(g0.base, target, image, g.bytes), g0.base, LastOf(g0.base, target, image, g.last));
    LineParsed(text, |start| + |chunks|, |text|, 0, 1, [], g1);
    assert After(0, 1, [], g1) == g1;
    ParseEnd(text, g1);
  }

  lemma ParseEnd(t: seq<Byte>, g: Target)
    ensures Parse(t, |t|, |t|, g) == Finished(g)
  {}

  /** Inside the window the image is where it came from, no other byte has changed, and
      ihrlast is its end. */
  lemma HexRoundTrip(s: Start, target: nat, image: seq<Byte>, g: Target)
    requires Fits(s)
    requires 0 <= BaseAfter(s, g.base) && InWindow(BaseAfter(s, g.base), target, |image|)
    ensures var text := File(s, target, image);
            Parse(text, 0, |text|, g) ==
            Finished(Target(Placed(target, image, g.bytes), BaseAfter(s, g.base),
                            if image == [] then g.last else target + |image|))
  {
    hide Parse, Placed, Landed, LastOf, File;
    FileReads(s, target, image, g);
    LandedInWindow(BaseAfter(s, g.base), target, image, g.bytes, g.last);
  }

  // ----- outside the window -----

  /** The file of the image, read into g, puts the bytes back where they were. */
  ghost predicate ComesBack(s: Start, target: nat, image: seq<Byte>, g: Target)
  {
    var text := File(s, target, image);
    var r := Parse(text, 0, |text|, g);
    r.Finished? && r.target.bytes == Placed(target, image, g.bytes)
  }

  /** With the base at a multiple of 64 KiB, a record lands in the window at the base, a
      multiple of 64 KiB from where it came. */
  lemma LandsInWindow(base: Cell, ta: nat)
    requires 0 <= base && base % 65536 == 0 && base + 65536 < TWO63
    ensures var p: int := Add(ta % 65536, base); base <= p < base + 65536 && (p - ta) % 65536 == 0
  {
    var q, b := ta / 65536, base as int / 65536;
    assert ta % 65536 + base - ta == (b - q) * 65536;
    MultipleOf(b - q);
  }

  lemma MultipleOf(k: int)
    ensures k * 65536 % 65536 == 0
  {}

  /** Outside the window some record lands elsewhere. */
  lemma Displaced(base: int, target: nat, length: nat) returns (k: nat)
    requires 0 < length && target + length < TWO63 && !InWindow(base, target, length)
    ensures 16 * k < length && (target + 16 * k) % 65536 + base != target + 16 * k
  {
    k := if target % 65536 + base != target then 0 else (length - 1) / 16;
  }

  lemma {:induction false} PlacedZero(p: Cell, data: seq<Byte>, bytes: map<Cell, Byte>, a: Cell)
    requires a in bytes ==> bytes[a] == 0
    requires forall j :: 0 <= j < |data| ==> data[j] == 0 || (j == 0 && p != a)
    ensures a in Placed(p, data, bytes) ==> Placed(p, data, bytes)[a] == 0
    decreases |data|
  {
    if data != [] { PlacedZero(p, data[..|data| - 1], bytes, a); }
  }

  /** All bytes are zero but perhaps the first of one record, and that does not land at a. */
  lemma {:induction false} LandedZero(base: Cell, target: nat, image: seq<Byte>, bytes: map<Cell, Byte>, a: Cell,
                                      k: int)
    requires a in bytes ==> bytes[a] == 0
    requires forall j :: 0 <= j < |image| && j != 16 * k ==> image[j] == 0
    requires 0 <= k ==> Add((target + 16 * k) % 65536, base) != a
    ensures a in Landed(base, target, image, bytes) ==> Landed(base, target, image, bytes)[a] == 0
    decreases |image|
  {
    hide Add, Placed;
    if image != [] {
      var n := Least(CHUNK, |image|);
      var rest := image[n..];
      PlacedZero(Add(target % 65536, base), image[..n], bytes, a);
      if rest != [] {
        forall j | 0 <= j < |rest| && j != 16 * (k - 1) ensures rest[j] == 0 { assert rest[j] == image[n + j]; }
        assert target + n + 16 * (k - 1) == target + 16 * k;
        LandedZero(base, target + n, rest, Placed(Add(target % 65536, base), image[..n], bytes), a, k - 1);
      }
    }
  }

  lemma ElsewhereIs(base: Cell, x: nat, a: Cell)
    requires x < 65536 && 0 <= a && x + base != a
    ensures Add(x, base) != a
  {}

  /** Every image of this length comes back, whatever memory held, if and only if every
      record starts in the 64 KiB window at the base. */
  lemma HexExact(s: Start, target: nat, length: nat, base: Cell)
    requires Fits(s) && 0 < length && target + length < TWO63
    ensures (forall image: seq<Byte>, g: Target | |image| == length && g.base == base :: ComesBack(s, target, image, g))
            <==> InWindow(BaseAfter(s, base), target, length)
  {
    hide Parse, Landed, Placed, File, LastOf;
    var b := BaseAfter(s, base);
    if InWindow(b, target, length) {
      forall image: seq<Byte>, g: Target | |image| == length && g.base == base ensures ComesBack(s, target, image, g) {
        HexRoundTrip(s, target, image, g);
      }
    } else {
      var k := Displaced(b, target, length);
      var image: seq<Byte> := seq(length, i => if i == 16 * k then 1 else 0);
      var a: Cell := target + 16 * k;
      var g := Target(map[], base, 0);
      FileReads(s, target, image, g);
      ElsewhereIs(b, (target + 16 * k) % 65536, a);
      LandedZero(b, target, image, map[], a, k);
      PlacedIs(target, image, map[]);
      assert !ComesBack(s, target, image, g);
    }
  }
}
