/** The words of mu/lib/intel-hex.mu4, building lines at the pad and storing into memory. */
module IntelHexWords {
  import opened Bytes
  import opened Cells
  import opened Numbers
  import opened IntelHex

  class HexWriter {
    var line: seq<Byte>     // from the pad up to m
    var out: seq<Byte>      // what has been typed

    constructor ()
      ensures line == [] && out == []
    {
      line, out := [], [];
    }

    /** ihwb, */
    method HexByte(x: int)
      modifies `line
      ensures line == old(line) + Hex(x)
    {
      line := line + [HexDigit(x / 16 % 16)];
      line := line + [HexDigit(x % 16)];
    }

    /** ihwbyte */
    method SumByte(sum: int, b: int) returns (sum': int)
      modifies `line
      ensures line == old(line) + Hex(b) && sum' == sum + b
    {
      HexByte(b);
      sum' := sum + b;
    }

    /** ihwheader */
    method Header(n: nat) returns (sum: int)
      modifies `line
      ensures line == [COLON] + Hex(n) && sum == n
    {
      line := [COLON];
      HexByte(n);
      sum := n;
    }

    /** ihwaddr: the high part is not cut down to a byte; only its low byte is written. */
    method Address(sum: int, ta: nat) returns (sum': int)
      modifies `line
      ensures line == old(line) + (Hex(ta / 256) + Hex(ta % 256)) && sum' == sum + ta / 256 + ta % 256
    {
      sum' := SumByte(sum, ta / 256);
      sum' := SumByte(sum', ta % 256);
    }

    /** ihwline */
    method Data(sum: int, data: seq<Byte>) returns (sum': int)
      modifies `line
      ensures line == old(line) + HexAll(data) && sum' == sum + Sum(data)
    {
      hide Hex;
      sum' := sum;
      for i := 0 to |data|
        invariant line == old(line) + HexAll(data[..i]) && sum' == sum + Sum(data[..i])
      {
        sum' := SumByte(sum', data[i]);
        assert data[..i + 1][..i] == data[..i];
      }
      assert data[..|data|] == data;
    }

    /** ihwcheck */
    method Checksum(sum: int)
      modifies this
      ensures out == old(out) + (old(line) + Hex(-sum) + [NEWLINE]) && line == []
    {
      HexByte(-sum);
      out := out + line;
      out := out + [NEWLINE];
      line := [];
    }

    /** ihwdata, and with another tag what ihwend, ihwseg and ihwext do. */
    method Record(ta: nat, tag: Byte, data: seq<Byte>)
      requires |data| < 256
      modifies this
      ensures out == old(out) + Line(ta, tag, data)
    {
      hide Hex, HexAll, Sum;
      var sum := Header(|data|);
      sum := Address(sum, ta);
      sum := SumByte(sum, tag);
      sum := Data(sum, data);
      LineMade(ta, tag, data, sum);
      Checksum(sum);
    }

    /** ihwchunks */
    method WriteChunks(image: seq<Byte>, target: nat)
      modifies this
      ensures out == old(out) + Chunks(target, image)
    {
      hide Line;
      var r, q := |image| % CHUNK, |image| / CHUNK;
      var host, ta := 0, target;
      for k := 0 to q
        invariant host == k * CHUNK <= |image| && ta == target + host
        invariant out + Chunks(ta, image[host..]) == old(out) + Chunks(target, image)
      {
        ChunkFirst(ta, image, host, CHUNK);
        Record(ta, 0, image[host..host + CHUNK]);
        host, ta := host + CHUNK, ta + CHUNK;
      }
      if r != 0 {
        ChunkFirst(ta, image, host, r);
        Record(ta, 0, image[host..host + r]);
        assert image[host + r..] == [];
      } else {
        assert image[host..] == [];
      }
    }

    /** ihwend */
    method End()
      modifies this
      ensures out == old(out) + EndLine()
    {
      Record(0, 1, []);
    }

    /** ihwseg */
    method Seg(seg: nat)
      modifies this
      ensures out == old(out) + SegLine(seg)
    {
      Record(0, 2, [Hi(seg), Lo(seg)]);
    }

    /** ihwext */
    method Ext(ext: nat)
      modifies this
      ensures out == old(out) + ExtLine(ext)
    {
      Record(0, 4, [Hi(ext), Lo(ext)]);
    }
  }

  lemma LineMade(ta: nat, tag: Byte, data: seq<Byte>, sum: int)
    requires |data| < 256 && sum == |data| + ta / 256 + ta % 256 + tag + Sum(data)
    ensures [COLON] + Hex(|data|) + (Hex(ta / 256) + Hex(ta % 256)) + Hex(tag) + HexAll(data) + Hex(-sum) + [NEWLINE] ==
            Line(ta, tag, data)
  {
    hide Hex, HexAll, Sum, Said, Payload, Check, Hi, Lo;
    HexLow(ta / 256);
    assert Hex(ta / 256) == Hex(Hi(ta)) && Hex(ta % 256) == Hex(Lo(ta)) by { HiLo(ta); }
    PayloadHex(ta, tag, data);
    CheckSame(ta, tag, data, sum);
    Assoc([COLON], Hex(|data|), Hex(Hi(ta)), Hex(Lo(ta)), Hex(tag), HexAll(data), Hex(-sum), [NEWLINE]);
  }

  lemma Assoc(s: seq<Byte>, a: seq<Byte>, b: seq<Byte>, c: seq<Byte>, d: seq<Byte>, e: seq<Byte>, f: seq<Byte>,
              g: seq<Byte>)
    ensures s + a + (b + c) + d + e + f + g == s + ((((a + b + c) + d) + e) + f) + g
  {}

  lemma HiLo(ta: nat)
    ensures Hi(ta) == ta / 256 % 256 && Lo(ta) == ta % 256
  {}

  lemma PayloadHex(ta: nat, tag: Byte, data: seq<Byte>)
    requires |data| < 256
    ensures HexAll(Payload(ta, tag, data)) ==
            (((Hex(|data|) + Hex(Hi(ta)) + Hex(Lo(ta))) + Hex(tag)) + HexAll(data)) + Hex(Check(Said(ta, tag, data)))
  {
    hide Hex, HexAll, Check, Hi, Lo;
    HexOne(Said(ta, tag, data), Check(Said(ta, tag, data)));
    HexJoins([|data|, Hi(ta), Lo(ta), tag], data);
    HexOfFour(|data|, Hi(ta), Lo(ta), tag);
  }

  lemma CheckSame(ta: nat, tag: Byte, data: seq<Byte>, sum: int)
    requires |data| < 256 && sum == |data| + ta / 256 + ta % 256 + tag + Sum(data)
    ensures Hex(-sum) == Hex(Check(Said(ta, tag, data)))
  {
    hide Hex, Sum, Said;
    SumSaid(ta, tag, data);
    HexLow(-sum);
    LowSame(sum, Sum(Said(ta, tag, data)), ta / 256);
  }

  lemma SumSaid(ta: nat, tag: Byte, data: seq<Byte>)
    requires |data| < 256
    ensures Sum(Said(ta, tag, data)) == |data| + ta / 256 % 256 + ta % 256 + tag + Sum(data)
  {
    hide Sum, Hi, Lo;
    HiLo(ta);
    SumJoins([|data|, Hi(ta), Lo(ta), tag], data);
    SumOfFour(|data|, Hi(ta), Lo(ta), tag);
  }

  lemma SumOne(x: seq<Byte>, b: Byte)
    ensures Sum(x + [b]) == Sum(x) + b
  {
    assert (x + [b])[..|x|] == x;
  }

  lemma HexOne(x: seq<Byte>, b: Byte)
    ensures HexAll(x + [b]) == HexAll(x) + Hex(b)
  {
    assert (x + [b])[..|x|] == x;
  }

  lemma {:induction false} SumJoins(x: seq<Byte>, y: seq<Byte>)
    ensures Sum(x + y) == Sum(x) + Sum(y)
    decreases |y|
  {
    if y == [] { assert x + y == x; } else {
      SumJoins(x, y[..|y| - 1]);
      assert (x + y)[..|x + y| - 1] == x + y[..|y| - 1];
    }
  }

  lemma {:induction false} HexJoins(x: seq<Byte>, y: seq<Byte>)
    ensures HexAll(x + y) == HexAll(x) + HexAll(y)
    decreases |y|
  {
    hide Hex;
    if y == [] { assert x + y == x; } else {
      HexJoins(x, y[..|y| - 1]);
      assert (x + y)[..|x + y| - 1] == x + y[..|y| - 1];
    }
  }

  lemma SumOfFour(a: Byte, b: Byte, c: Byte, d: Byte)
    ensures Sum([a, b, c, d]) == a as int + b + c + d
  {
    SumOne([], a);
    SumOne([a], b);
    SumOne([a, b], c);
    SumOne([a, b, c], d);
    assert [] + [a] == [a] && [a] + [b] == [a, b] && [a, b] + [c] == [a, b, c] && [a, b, c] + [d] == [a, b, c, d];
  }

  lemma HexOfFour(a: Byte, b: Byte, c: Byte, d: Byte)
    ensures HexAll([a, b, c, d]) == (Hex(a) + Hex(b) + Hex(c)) + Hex(d)
  {
    hide Hex;
    HexOne([], a);
    HexOne([a], b);
    HexOne([a, b], c);
    HexOne([a, b, c], d);
    assert [] + [a] == [a] && [a] + [b] == [a, b] && [a, b] + [c] == [a, b, c] && [a, b, c] + [d] == [a, b, c, d];
  }

  /** Only the low byte of a number is written. */
  lemma HexLow(x: int)
    ensures Hex(x) == Hex(x % 256)
  {
    var q, r := x / 256, x % 256;
    assert x == q * 256 + r;
    assert x / 16 == q * 16 + r / 16;
  }

  lemma LowSame(sum: int, said: int, hi: nat)
    requires sum == said + hi - hi % 256
    ensures -sum % 256 == -said % 256
  {
    assert -sum == -said - (hi / 256) * 256;
  }

  lemma ChunkFirst(ta: nat, image: seq<Byte>, host: nat, n: nat)
    requires host + n <= |image| && 0 < n <= CHUNK && (n < CHUNK ==> host + n == |image|)
    ensures Chunks(ta, image[host..]) == Line(ta, 0, image[host..host + n]) + Chunks(ta + n, image[host + n..])
  {
    hide Line;
    var rest := image[host..];
    assert rest[..n] == image[host..host + n] && rest[n..] == image[host + n..];
  }

  class HexReader {
    var text: seq<Byte>
    var m: nat                      // where the next character is
    var ihrend: nat
    var memory: map<Cell, Byte>     // from the pad on
    var ihrp: Cell
    var ihrbase: Cell
    var ihrlast: Cell

    constructor (text: seq<Byte>)
      ensures this.text == text && ihrend == |text| && m == 0 && Memory() == Target(map[], 0, 0)
    {
      this.text, m, ihrend := text, 0, |text|;
      memory, ihrp, ihrbase, ihrlast := map[], 0, 0, 0;
    }

    function Memory(): Target
      reads this
    {
      Target(memory, ihrbase, ihrlast)
    }

    /** hh* */
    method HexPair(sum: int) returns (sum': int, b: int)
      modifies `m
      ensures b == Pair(text, old(m)) && sum' == sum + b && m == old(m) + 2
    {
      var hi := DigitOf(CharAt(text, m));
      m := m + 1;
      var lo := DigitOf(CharAt(text, m));
      m := m + 1;
      b := hi * 16 + lo;
      sum' := sum + b;
    }

    /** ihraddr */
    method Address(sum: int) returns (sum': int, addr: Cell)
      modifies `m
      ensures addr == PairAddress(text, old(m)) && m == old(m) + 4
      ensures sum' == sum + Pair(text, old(m)) + Pair(text, old(m) + 2)
    {
      hide Pair;
      var hi, lo;
      PairSmall(text, m);
      PairSmall(text, m + 2);
      sum', hi := HexPair(sum);
      sum', lo := HexPair(sum');
      addr := hi * 256 + lo;
    }

    /** ihrdata's loop: read n bytes and store them from ihrp on. */
    method Bytes(sum: int, n: nat) returns (sum': int)
      modifies `m, `memory, `ihrp
      ensures m == old(m) + 2 * n && sum' == sum + PairSum(text, old(m), n)
      ensures memory == Stored(text, old(m), n, old(ihrp), old(memory))
    {
      hide Pair, Wrap;
      sum' := sum;
      for i := 0 to n
        invariant m == old(m) + 2 * i && sum' == sum + PairSum(text, old(m), i) && ihrp == Wrap(old(ihrp) + i)
        invariant memory == Stored(text, old(m), i, old(ihrp), old(memory))
      {
        var b;
        sum', b := HexPair(sum');
        memory := memory[ihrp := b % 256];
        WrapNext(old(ihrp), i);
        ihrp := Add(ihrp, 1);
      }
    }

    /** ihrskip's loop. */
    method Skip(sum: int, n: nat) returns (sum': int)
      modifies `m
      ensures m == old(m) + 2 * n && sum' == sum + PairSum(text, old(m), n)
    {
      hide Pair;
      sum' := sum;
      for i := 0 to n
        invariant m == old(m) + 2 * i && sum' == sum + PairSum(text, old(m), i)
      {
        var b;
        sum', b := HexPair(sum');
      }
    }

    /** ihrtype */
    method ReadType() returns (sum: int)
      modifies this
      ensures text == old(text) && ihrend == old(ihrend)
      ensures var r := ReadRecord(text, old(m), old(Memory()));
              Memory() == r.target && m == old(m) + 2 * r.pairs && sum == PairSum(text, old(m), r.pairs)
    {
      hide Pair, Stored, Add;
      var count, addr, tag;
      PairSmall(text, m);
      ghost var m0 := m;
      sum, count := HexPair(0);
      sum, addr := Address(sum);
      sum, tag := HexPair(sum);
      FourPairs(text, m0);
      if tag == 0 {
        ihrlast := Add(Add(count, addr), ihrbase);
        ihrp := Add(addr, ihrbase);
        sum := Bytes(sum, Unsigned(count));
        PairSumJoins(text, m0, 4, Unsigned(count));
      } else if tag == 1 {
      } else if tag == 2 {
        sum, addr := Address(sum);
        ihrbase := Mul(addr, 16);
        SixPairs(text, m0);
      } else if tag == 4 {
        sum, addr := Address(sum);
        ihrbase := Mul(addr, 65536);
        SixPairs(text, m0);
      } else {
        sum := Skip(sum, Unsigned(count));
        PairSumJoins(text, m0, 4, Unsigned(count));
      }
    }

    /** ihrscan */
    method Scan() returns (found: bool)
      modifies `m
      ensures found == (old(m) < ihrend && Colon(text, old(m), ihrend) < ihrend)
      ensures found ==> m == Colon(text, old(m), ihrend) + 1
    {
      while m < ihrend
        invariant old(m) <= m && (old(m) < ihrend ==> m <= ihrend)
        invariant m < ihrend ==> Colon(text, old(m), ihrend) == Colon(text, m, ihrend)
        invariant old(m) < ihrend <= m ==> Colon(text, old(m), ihrend) == ihrend
      {
        m := m + 1;
        if CharAt(text, m - 1) == COLON { return true; }
      }
      found := false;
    }

    /** parse-ihex */
    method ParseHex() returns (good: bool)
      modifies this
      ensures var r := Parse(old(text), old(m), old(ihrend), old(Memory())); good == r.Finished? && Memory() == r.target
    {
      hide ReadRecord, PairSum, Colon, Pair, Parse;
      ghost var t, end, was := text, ihrend, Parse(text, m, ihrend, Memory());
      var found := Scan();
      ghost var from := old(m);
      while found
        invariant text == t && ihrend == end && found == (from < end && Colon(t, from, end) < end)
        invariant found ==> m == Colon(t, from, end) + 1
        invariant Parse(t, from, end, Memory()) == was
        decreases if from < end then end - from else 0, found
      {
        ghost var g := Memory();
        var sum, b := 0, 0;
        sum := ReadType();
        sum, b := HexPair(sum);
        ParseUnfold(t, from, end, g);
        PairSumNext(t, Colon(t, from, end) + 1, ReadRecord(t, Colon(t, from, end) + 1, g).pairs);
        if sum % 256 != 0 { return false; }
        from := m;
        found := Scan();
      }
      ParseUnfold(t, from, end, Memory());
      good := true;
    }
  }

  lemma ParseUnfold(t: seq<Byte>, m: nat, end: nat, g: Target)
    ensures var c := Colon(t, m, end);
            Parse(t, m, end, g) ==
            if m >= end || c >= end then Finished(g)
            else
              var r := ReadRecord(t, c + 1, g);
              if PairSum(t, c + 1, r.pairs + 1) % 256 != 0 then BadChecksum(r.target)
              else Parse(t, c + 1 + 2 * (r.pairs + 1), end, r.target)
  {
    hide ReadRecord, PairSum, Colon;
  }

  lemma WrapNext(p: int, i: nat)
    ensures Add(Wrap(p + i), 1) == Wrap(p + (i + 1))
  {
    WrapAdd(p + i, 1);
  }

  lemma FourPairs(t: seq<Byte>, m: nat)
    ensures PairSum(t, m, 4) == Pair(t, m) + Pair(t, m + 2) + Pair(t, m + 4) + Pair(t, m + 6)
  {
    hide Pair;
    assert PairSum(t, m, 1) == Pair(t, m);
    assert PairSum(t, m, 2) == Pair(t, m) + Pair(t, m + 2);
  }

  lemma SixPairs(t: seq<Byte>, m: nat)
    ensures PairSum(t, m, 6) == PairSum(t, m, 4) + Pair(t, m + 8) + Pair(t, m + 10)
  {
    hide Pair;
    assert PairSum(t, m, 5) == PairSum(t, m, 4) + Pair(t, m + 8);
  }

  lemma {:induction false} PairSumJoins(t: seq<Byte>, m: nat, a: nat, n: nat)
    ensures PairSum(t, m, a + n) == PairSum(t, m, a) + PairSum(t, m + 2 * a, n)
  {
    hide Pair;
    if n > 0 { PairSumJoins(t, m, a, n - 1); }
  }

  lemma PairSumNext(t: seq<Byte>, m: nat, n: nat)
    ensures PairSum(t, m, n + 1) == PairSum(t, m, n) + Pair(t, m + 2 * n)
  {}

  /** Writing an image and reading the text back, through the words themselves. */
  method WriteThenRead(s: Start, target: nat, image: seq<Byte>)
      returns (good: bool, memory: map<Cell, Byte>, last: Cell)
    requires Fits(s) && InWindow(BaseAfter(s, 0), target, |image|)
    ensures good && (image != [] ==> last == target + |image|)
    ensures forall a: Cell :: a in memory <==> target <= a < target + |image|
    ensures forall i: nat :: i < |image| && target + i < TWO63 ==>
              (target + i) in memory && memory[target + i] == image[i]
  {
    hide Line, Chunks, Placed, Parse;
    var w := new HexWriter();
    if s.Segment? { w.Seg(s.seg); }
    if s.Extended? { w.Ext(s.ext); }
    w.WriteChunks(image, target);
    w.End();
    assert w.out == File(s, target, image);
    var r := new HexReader(w.out);
    HexRoundTrip(s, target, image, r.Memory());
    PlacedIs(target, image, map[]);
    good := r.ParseHex();
    memory, last := r.memory, r.ihrlast;
  }
}
