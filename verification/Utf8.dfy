/** UTF-8 in mu/lib/utf8.mu4: storing and fetching characters through an advancing address. */
module Utf8 {
  import opened Bytes

  /** u6peel and the branches of utf8!+ : the bytes stored for w. c! keeps the low byte. */
  function Encode(w: nat): (b: seq<Byte>)
    ensures 1 <= |b| <= 4
  {
    if w < 0x80 then [w]
    else if w < 0x800 then [(0xc0 + w / 64) % 256, 0x80 + w % 64]
    else if w < 0x1_0000 then [(0xe0 + w / 64 / 64) % 256, 0x80 + w / 64 % 64, 0x80 + w % 64]
    else [(0xf0 + w / 64 / 64 / 64) % 256, 0x80 + w / 64 / 64 % 64, 0x80 + w / 64 % 64, 0x80 + w % 64]
  }

  /** How many more bytes utf8@+ fetches after a first byte, and the bits it keeps of it. */
  function More(b: Byte): nat
  {
    if b < 0x80 then 0 else if 0xc2 <= b < 0xe0 then 1 else if 0xe0 <= b < 0xf0 then 2 else 3
  }

  function FirstBits(b: Byte): nat
  {
    if b < 0x80 then b else if 0xc2 <= b < 0xe0 then b % 32 else if 0xe0 <= b < 0xf0 then b % 16 else b % 8
  }

  /** u6+ , n times. The six bits go below what is there, so or is addition. */
  function Continue(bits: nat, mem: seq<Byte>, a: nat, n: nat): nat
    requires a + n <= |mem|
  {
    if n == 0 then bits else Continue(bits, mem, a, n - 1) * 64 + mem[a + n - 1] % 64
  }

  /** The character at a, and the address after it. */
  function Decode(mem: seq<Byte>, a: nat): (nat, nat)
    requires a < |mem| && a + 1 + More(mem[a]) <= |mem|
  {
    (Continue(FirstBits(mem[a]), mem, a + 1, More(mem[a])), a + 1 + More(mem[a]))
  }

  predicate At(mem: seq<Byte>, a: nat, b: seq<Byte>) { a + |b| <= |mem| && mem[a..a + |b|] == b }

  lemma AtIndex(mem: seq<Byte>, a: nat, b: seq<Byte>, i: nat)
    requires At(mem, a, b) && i < |b|
    ensures mem[a + i] == b[i]
  {
    assert mem[a..a + |b|][i] == b[i];
  }

  /** What was stored for a character below 2^21 is fetched as that character, and the
      address goes on to just after it. */
  lemma DecodeEncode(w: nat, mem: seq<Byte>, a: nat)
    requires w < 0x20_0000 && At(mem, a, Encode(w))
    ensures a + 1 + More(mem[a]) <= |mem| && Decode(mem, a) == (w, a + |Encode(w)|)
  {
    hide Encode, More, FirstBits, At;
    var b := Encode(w);
    assert a + |b| <= |mem| by { AtInside(mem, a, b); }
    AtIndex(mem, a, b, 0);
    FirstByte(w);
    Tails(w);
    var bits := FirstBits(b[0]);
    if |b| > 1 {
      AtIndex(mem, a, b, 1);
      assert Continue(bits, mem, a + 1, 1) == bits * 64 + b[1] % 64;
    }
    if |b| > 2 {
      AtIndex(mem, a, b, 2);
      assert Continue(bits, mem, a + 1, 2) == (bits * 64 + b[1] % 64) * 64 + b[2] % 64;
    }
    if |b| > 3 {
      AtIndex(mem, a, b, 3);
      assert Continue(bits, mem, a + 1, 3) == ((bits * 64 + b[1] % 64) * 64 + b[2] % 64) * 64 + b[3] % 64;
    }
  }

  lemma AtInside(mem: seq<Byte>, a: nat, b: seq<Byte>)
    requires At(mem, a, b)
    ensures a + |b| <= |mem|
  {}

  /** w without its lowest six bits, n times. */
  function Peeled(w: nat, n: nat): nat { if n == 0 then w else Peeled(w, n - 1) / 64 }

  lemma FirstByte(w: nat)
    requires w < 0x20_0000
    ensures var b := Encode(w); More(b[0]) == |b| - 1 && FirstBits(b[0]) == Peeled(w, |b| - 1)
  {
    hide More, FirstBits;
    assert Peeled(w, 1) == w / 64 && Peeled(w, 2) == w / 64 / 64 && Peeled(w, 3) == w / 64 / 64 / 64;
    FirstOf1(w);
    FirstOf2(w / 64);
    FirstOf3(w / 64 / 64);
    FirstOf4(w / 64 / 64 / 64);
  }

  lemma FirstOf1(w: nat)
    ensures w < 0x80 ==> More(w) == 0 && FirstBits(w) == w
  {}

  lemma FirstOf2(h: nat)
    ensures 2 <= h < 32 ==> More(0xc0 + h) == 1 && FirstBits(0xc0 + h) == h
  {}

  lemma FirstOf3(h: nat)
    ensures h < 16 ==> More(0xe0 + h) == 2 && FirstBits(0xe0 + h) == h
  {}

  lemma FirstOf4(h: nat)
    ensures h < 8 ==> More(0xf0 + h) == 3 && FirstBits(0xf0 + h) == h
  {}

  lemma TailByte(w: nat, i: nat)
    requires 1 <= i < |Encode(w)|
    ensures Encode(w)[i] == 0x80 + Peeled(w, |Encode(w)| - 1 - i) % 64
  {
    assert Peeled(w, 1) == w / 64 && Peeled(w, 2) == w / 64 / 64;
  }

  /** The other bytes hold the bits peeled off. */
  lemma Tails(w: nat)
    ensures var b := Encode(w);
            forall i :: 1 <= i < |b| ==> Peeled(w, |b| - 1 - i) == Peeled(w, |b| - i) * 64 + b[i] % 64
  {
    hide Encode;
    var b := Encode(w);
    forall i | 1 <= i < |b| ensures Peeled(w, |b| - 1 - i) == Peeled(w, |b| - i) * 64 + b[i] % 64 {
      TailByte(w, i);
      Low6(Peeled(w, |b| - 1 - i));
    }
  }

  lemma Low6(x: nat)
    ensures x == x / 64 * 64 + (0x80 + x % 64) % 64
  {}

  /** Whatever the bytes are, what is fetched has at most 21 bits. */
  lemma FetchedBelow(mem: seq<Byte>, a: nat)
    requires a < |mem| && a + 1 + More(mem[a]) <= |mem|
    ensures Decode(mem, a).0 < 0x20_0000
  {
    hide FirstBits;
    var b := mem[a];
    assert FirstBits(b) < (if More(b) == 0 then 128 else if More(b) == 1 then 32 else if More(b) == 2 then 16 else 8)
      by { FirstBitsBelow(b); }
    ContinueBelow(FirstBits(b), mem, a + 1, More(b));
  }

  lemma FirstBitsBelow(b: Byte)
    ensures FirstBits(b) < (if More(b) == 0 then 128 else if More(b) == 1 then 32 else if More(b) == 2 then 16 else 8)
  {}

  lemma ContinueBelow(bits: nat, mem: seq<Byte>, a: nat, n: nat)
    requires n <= 3 && a + n <= |mem|
    ensures Continue(bits, mem, a, n) <
            (bits + 1) * (if n == 0 then 1 else if n == 1 then 64 else if n == 2 then 4096 else 262_144)
  {
    if n > 0 { ContinueBelow(bits, mem, a, n - 1); }
  }

  lemma WideForm(w: nat, b: Byte)
    requires w >= 0x20_0000
    ensures |Encode(w)| == 4 && More(b) <= 3
  {}

  /** A character that has been stored is fetched as itself, and the address goes on to just
      after it, if and only if it is below 2^21. A wider one never comes back. */
  lemma FetchedAsItself(w: nat, mem: seq<Byte>, a: nat)
    requires At(mem, a, Encode(w))
    ensures a < |mem| && a + 1 + More(mem[a]) <= |mem|
    ensures Decode(mem, a).0 == w <==> w < 0x20_0000
    ensures Decode(mem, a) == (w, a + |Encode(w)|) <==> w < 0x20_0000
  {
    hide Encode, More, At, Decode;
    if w < 0x20_0000 {
      DecodeEncode(w, mem, a);
    } else {
      AtInside(mem, a, Encode(w));
      WideForm(w, mem[a]);
      FetchedBelow(mem, a);
    }
  }

  // ----- RFC 3629 -----

  /** Section 3 of RFC 3629: the leading bits that say how many octets there are. */
  function Lead(n: nat): Byte { if n == 1 then 0 else if n == 2 then 0xc0 else if n == 3 then 0xe0 else 0xf0 }

  /** How many bits of the first octet belong to the character, as a power of two. */
  function Room(n: nat): nat { if n == 1 then 128 else if n == 2 then 32 else if n == 3 then 16 else 8 }

  predicate IsTail(b: Byte) { 0x80 <= b < 0xc0 }

  /** The bits of the octets, put together from the highest on. */
  function Payload(b: seq<Byte>): int
    requires 1 <= |b| <= 4
  {
    if |b| == 1 then b[0] else Payload2(b[0] as int - Lead(|b|), b[1..])
  }

  function Payload2(bits: int, tail: seq<Byte>): int
  {
    if tail == [] then bits else Payload2(bits, tail[..|tail| - 1]) * 64 + (tail[|tail| - 1] as int - 0x80)
  }

  /** The table of section 3: the number of octets is the least that can hold the character,
      the first octet has its leading bits, the others begin with 10, and the free bits
      hold the number of the character. */
  predicate IsUtf8(b: seq<Byte>, w: nat)
  {
    1 <= |b| <= 4
    && |b| == (if w < 0x80 then 1 else if w < 0x800 then 2 else if w < 0x1_0000 then 3 else 4)
    && Lead(|b|) <= b[0] < Lead(|b|) + Room(|b|)
    && (forall i :: 1 <= i < |b| ==> IsTail(b[i]))
    && Payload(b) == w
  }

  lemma EncodeIsUtf8(w: nat)
    requires w < 0x20_0000
    ensures IsUtf8(Encode(w), w)
  {
    var b := Encode(w);
    FirstOctet(w);
    PayloadOf(b);
  }

  lemma FirstOctet(w: nat)
    requires w < 0x20_0000
    ensures var b := Encode(w); Lead(|b|) <= b[0] < Lead(|b|) + Room(|b|)
    ensures var b := Encode(w);
            b[0] == Lead(|b|) + if |b| == 1 then w else if |b| == 2 then w / 64 else if |b| == 3 then w / 64 / 64
                                else w / 64 / 64 / 64
  {
    if w >= 0x1_0000 {
      Upper(w / 64 / 64 / 64, 8, 0xf0);
    } else if w >= 0x800 {
      Upper(w / 64 / 64, 16, 0xe0);
    } else if w >= 0x80 {
      Upper(w / 64, 32, 0xc0);
    }
  }

  /** The leading bits and the free ones do not meet. */
  lemma Upper(h: nat, room: nat, lead: nat)
    requires h < room && lead + room <= 256
    ensures (lead + h) % 256 == lead + h
  {}

  lemma PayloadOf(b: seq<Byte>)
    requires 1 <= |b| <= 4
    ensures Payload(b) ==
            if |b| == 1 then b[0]
            else if |b| == 2 then (b[0] as int - 0xc0) * 64 + (b[1] as int - 0x80)
            else if |b| == 3 then ((b[0] as int - 0xe0) * 64 + (b[1] as int - 0x80)) * 64 + (b[2] as int - 0x80)
            else (((b[0] as int - 0xf0) * 64 + (b[1] as int - 0x80)) * 64 + (b[2] as int - 0x80)) * 64
                 + (b[3] as int - 0x80)
  {
    if |b| > 1 {
      var bits := b[0] as int - Lead(|b|);
      PayloadNext(bits, [], b[1]);
      assert [] + [b[1]] == [b[1]] == b[1..][..1];
      if |b| == 2 { assert b[1..] == [b[1]]; }
      if |b| > 2 {
        PayloadNext(bits, [b[1]], b[2]);
        if |b| == 3 { assert b[1..] == [b[1]] + [b[2]]; }
        if |b| == 4 {
          PayloadNext(bits, [b[1]] + [b[2]], b[3]);
          assert b[1..] == [b[1]] + [b[2]] + [b[3]];
        }
      }
    }
  }

  lemma PayloadNext(bits: int, t: seq<Byte>, x: Byte)
    ensures Payload2(bits, t + [x]) == Payload2(bits, t) * 64 + (x as int - 0x80)
  {
    assert (t + [x])[..|t|] == t;
  }

  /** There is only one such sequence of octets. */
  lemma Utf8Unique(b: seq<Byte>, c: seq<Byte>, w: nat)
    requires IsUtf8(b, w) && IsUtf8(c, w)
    ensures b == c
  {
    PayloadOf(b);
    PayloadOf(c);
    if |b| > 1 { assert IsTail(b[1]) && IsTail(c[1]); }
    if |b| > 2 { assert IsTail(b[2]) && IsTail(c[2]); }
    if |b| > 3 { assert IsTail(b[3]) && IsTail(c[3]); }
  }

  // ----- the words -----

  /** utf8!+ */
  method Store(mem: array<Byte>, w: nat, a: nat) returns (next: nat)
    requires a + |Encode(w)| <= mem.Length
    modifies mem
    ensures next == a + |Encode(w)| && mem[..] == Put(old(mem[..]), a, Encode(w))
  {
    var b := Encode(w);
    forall i | 0 <= i < |b| {
      mem[a + i] := b[i];
    }
    next := a + |b|;
  }

  /** utf8@+ */
  method Fetch(mem: array<Byte>, a: nat) returns (w: nat, next: nat)
    requires a < mem.Length && a + 1 + More(mem[a]) <= mem.Length
    ensures (w, next) == Decode(mem[..], a)
  {
    w := FirstBits(mem[a]);
    next := a + 1;
    for i := 0 to More(mem[a])
      invariant next == a + 1 + i && w == Continue(FirstBits(mem[a]), mem[..], a + 1, i)
    {
      w := w * 64 + mem[next] % 64;
      next := next + 1;
    }
  }

  function EncodeAll(ws: seq<nat>): seq<Byte>
  {
    if ws == [] then [] else EncodeAll(ws[..|ws| - 1]) + Encode(ws[|ws| - 1])
  }

  /** utf8!+ over and over. */
  method StoreAll(mem: array<Byte>, ws: seq<nat>, a: nat) returns (end: nat)
    requires a + |EncodeAll(ws)| <= mem.Length
    modifies mem
    ensures end == a + |EncodeAll(ws)| && mem[..] == Put(old(mem[..]), a, EncodeAll(ws))
  {
    hide Encode, EncodeAll, Put;
    end := a;
    ghost var was := mem[..];
    StoredNothing(was, a, ws);
    for i := 0 to |ws|
      invariant |EncodeAll(ws[..i])| <= |EncodeAll(ws)| && end == a + |EncodeAll(ws[..i])|
      invariant mem[..] == Put(was, a, EncodeAll(ws[..i]))
    {
      EncodeAllNext(ws, i);
      PutNext(was, a, EncodeAll(ws[..i]), Encode(ws[i]));
      end := Store(mem, ws[i], end);
    }
    assert ws[..|ws|] == ws;
  }

  /** utf8@+ over and over, n times. */
  method FetchAll(mem: array<Byte>, a: nat, n: nat, ghost ws: seq<nat>) returns (vs: seq<nat>, end: nat)
    requires |ws| == n && (forall i :: 0 <= i < n ==> ws[i] < 0x20_0000) && At(mem[..], a, EncodeAll(ws))
    ensures vs == ws && end == a + |EncodeAll(ws)|
  {
    hide Encode, EncodeAll, Decode, More, At;
    end := a;
    vs := [];
    AtInside(mem[..], a, EncodeAll(ws));
    StoredNothing(mem[..], a, ws);
    for i := 0 to n
      invariant vs == ws[..i] && |EncodeAll(ws[..i])| <= |EncodeAll(ws)| && end == a + |EncodeAll(ws[..i])|
    {
      EncodeAllNext(ws, i);
      CharacterAt(mem[..], a, ws, i);
      DecodeEncode(ws[i], mem[..], end);
      var w;
      w, end := Fetch(mem, end);
      vs := vs + [w];
    }
    assert ws[..n] == ws;
  }

  lemma StoredNothing(h: seq<Byte>, a: nat, ws: seq<nat>)
    requires a <= |h|
    ensures EncodeAll(ws[..0]) == [] && Put(h, a, EncodeAll(ws[..0])) == h
  {}

  /** A sequence of characters stored and fetched again is the same, up to the same address. */
  method StoreAndFetch(mem: array<Byte>, ws: seq<nat>, a: nat) returns (vs: seq<nat>, end: nat)
    requires forall i :: 0 <= i < |ws| ==> ws[i] < 0x20_0000
    requires a + |EncodeAll(ws)| <= mem.Length
    modifies mem
    ensures vs == ws && end == a + |EncodeAll(ws)|
    ensures mem[..] == Put(old(mem[..]), a, EncodeAll(ws))
  {
    hide Put, EncodeAll;
    ghost var was := mem[..];
    end := StoreAll(mem, ws, a);
    PutAt(was, a, EncodeAll(ws));
    vs, end := FetchAll(mem, a, |ws|, ws);
  }

  lemma {:induction false} EncodeAllNext(ws: seq<nat>, i: nat)
    requires i < |ws|
    ensures EncodeAll(ws[..i + 1]) == EncodeAll(ws[..i]) + Encode(ws[i])
    ensures |EncodeAll(ws[..i + 1])| <= |EncodeAll(ws)|
    ensures EncodeAll(ws[..i + 1]) <= EncodeAll(ws)
    decreases |ws|
  {
    hide Encode;
    assert ws[..i + 1][..i] == ws[..i];
    if i + 1 < |ws| {
      var init := ws[..|ws| - 1];
      EncodeAllNext(init, i);
      assert init[..i + 1] == ws[..i + 1];
    } else {
      assert ws[..i + 1] == ws;
    }
  }

  lemma PutNext(h: seq<Byte>, a: nat, x: seq<Byte>, y: seq<Byte>)
    requires a + |x| + |y| <= |h|
    ensures Put(Put(h, a, x), a + |x|, y) == Put(h, a, x + y)
  {}

  lemma CharacterAt(mem: seq<Byte>, a: nat, ws: seq<nat>, i: nat)
    requires i < |ws| && At(mem, a, EncodeAll(ws))
    ensures At(mem, a + |EncodeAll(ws[..i])|, Encode(ws[i]))
  {
    hide Encode, EncodeAll;
    EncodeAllNext(ws, i);
    Inside(mem, a, EncodeAll(ws), EncodeAll(ws[..i]), Encode(ws[i]));
  }

  lemma Inside(mem: seq<Byte>, a: nat, s: seq<Byte>, x: seq<Byte>, y: seq<Byte>)
    requires At(mem, a, s) && x + y <= s
    ensures At(mem, a + |x|, y)
  {
    var t := mem[a + |x|..a + |x| + |y|];
    forall i | 0 <= i < |y| ensures t[i] == y[i] {
      AtIndex(mem, a, s, |x| + i);
      assert (x + y)[|x| + i] == y[i];
    }
  }
}
