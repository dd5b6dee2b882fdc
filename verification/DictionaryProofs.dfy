/** Every dictionary operation keeps the dictionary well formed, and what each does to
    the chains. */
module DictionaryProofs {
  import opened Bytes
  import opened Dictionary

  // ----- growing the heap -----

  lemma SliceKept(h: seq<Byte>, k: seq<Byte>, n: nat, i: nat, j: nat)
    requires n <= |h| && n <= |k| && h[..n] == k[..n] && i <= j <= n
    ensures h[i..j] == k[i..j]
  {
    assert h[i..j] == h[..n][i..j] == k[..n][i..j];
  }

  /** Nothing below the heap pointer changes, and the heap pointer may move up. */
  ghost predicate Grows(d: Dict, e: Dict)
  {
    d.hp <= e.hp <= |e.h| && |e.h| == |d.h| && e.hp % 8 == 0 && d.h[..d.hp] == e.h[..d.hp]
  }

  lemma NodeGrows(d: Dict, e: Dict, s: Shape, n: nat)
    requires d.hp <= |d.h| && Grows(d, e) && n in s.lo && n in s.names && NodeOk(d, s, n)
    ensures NodeOk(e, s, n)
  {
    var k := |s.names[n]|;
    SliceKept(d.h, e.h, d.hp, n - 1 - k, n - 1);
    SliceKept(d.h, e.h, d.hp, n - 1, n);
    assert d.h[n - 1] == d.h[n - 1..n][0] && e.h[n - 1] == e.h[n - 1..n][0];
  }

  lemma CellGrows(d: Dict, e: Dict, a: nat)
    requires d.hp <= |d.h| && Grows(d, e) && a + 8 <= d.hp
    ensures CellAt(e.h, a) == CellAt(d.h, a)
  {
    SliceKept(d.h, e.h, d.hp, a, a + 8);
  }

  lemma ChainGrows(d: Dict, e: Dict, s: Shape, c: nat)
    requires d.hp <= |d.h| && Grows(d, e)
    requires c in s.own && c in s.anchor && c in s.lo && ChainOk(d, s, c)
    ensures ChainOk(e, s, c)
  {
    CellGrows(d, e, c);
    forall i | 0 <= i < |s.own[c]| ensures LinkOk(e, s, c, i) {
      assert LinkOk(d, s, c, i);
      CellGrows(d, e, s.own[c][i]);
    }
  }

  /** Comma, allot and stores above the heap pointer keep the dictionary. */
  lemma GrowKeeps(d: Dict, e: Dict, s: Shape)
    requires Valid(d, s) && Grows(d, e) && e.lastName == d.lastName && e.lastChain == d.lastChain
    ensures Valid(e, s)
  {
    hide NodeOk, ChainOk, Apart, Grows, CellAt;
    GrowsBounds(d, e);
    forall n | n in s.lo ensures NodeOk(e, s, n) { NodeGrows(d, e, s, n); }
    forall c | c in s.own ensures ChainOk(e, s, c) { ChainGrows(d, e, s, c); }
    if d.lastChain != 0 { CellGrows(d, e, d.lastName); }
  }

  lemma GrowsBounds(d: Dict, e: Dict)
    requires Grows(d, e)
    ensures e.hp <= |e.h| && e.hp % 8 == 0 && |e.h| == |d.h| && d.hp <= e.hp
  {}

  lemma CommaGrows(d: Dict, v: nat)
    requires d.hp + 8 <= |d.h| && d.hp % 8 == 0
    ensures Grows(d, Comma(d, v))
  {}

  lemma CommaKeeps(d: Dict, s: Shape, v: nat)
    requires Valid(d, s) && d.hp + 8 <= |d.h|
    ensures Valid(Comma(d, v), s)
  {
    hide Valid, Grows;
    assert d.hp % 8 == 0 by { ValidBounds(d, s); }
    CommaGrows(d, v);
    GrowKeeps(d, Comma(d, v), s);
  }

  lemma ValidBounds(d: Dict, s: Shape)
    requires Valid(d, s)
    ensures d.hp <= |d.h| < MAX64 && d.hp % 8 == 0
  {}

  lemma AllotKeeps(d: Dict, s: Shape, n: nat)
    requires Valid(d, s) && Allot(d, n).hp <= |d.h|
    ensures Valid(Allot(d, n), s)
  {
    GrowKeeps(d, Allot(d, n), s);
  }

  // ----- a new name -----

  /** link>name: the bytes before the length byte of a new entry are the name, up to 255
      bytes of it, the link leads where it should, and the entry starts at the old heap
      pointer. */
  lemma NewNameStored(d: Dict, link: nat, name: seq<Byte>, hidden: bool)
    requires Fits(d, name) && link < MAX64 && d.hp % 8 == 0
    ensures var e, n, k := NewName(d, link, name, hidden), NewLink(d, name), |Capped(name)|;
            n % 8 == 0 && d.hp + k + 1 <= n && e.hp == n + 8 && |e.h| == |d.h|
            && e.h[n - 1 - k..n - 1] == Capped(name)
            && e.h[n - 1] == (if hidden then 0 else k)
            && CellAt(e.h, n) == link
            && Grows(d, e)
  {
    hide EntryBytes, FromBytes, CellBytes;
    var e, n, k := NewName(d, link, name, hidden), NewLink(d, name), |Capped(name)|;
    var b := EntryBytes(link, Capped(name), hidden);
    var p := PrefixBytes(k);
    assert n == d.hp + (p + 8);
    EntryParts(link, Capped(name), hidden);
    PutSlice(d.h, d.hp, b, p + 7 - k, p + 7);
    PutSlice(d.h, d.hp, b, p + 7, p + 8);
    PutSlice(d.h, d.hp, b, p + 8, p + 16);
    assert e.h[n - 1] == e.h[n - 1..n][0];
    CellRoundTrip(link);
  }

  lemma EntryParts(link: nat, name: seq<Byte>, hidden: bool)
    requires |name| <= 255
    ensures var b, k, p := EntryBytes(link, name, hidden), |name|, PrefixBytes(|name|);
            b[p + 7 - k..p + 7] == name && b[p + 7..p + 8] == [if hidden then 0 else k]
            && b[p + 8..p + 16] == CellBytes(link)
  {
    var k, p := |name|, PrefixBytes(|name|);
    var z := Zeros(p + 7 - k);
    assert |z| == p + 7 - k;
  }

  /** The shape with a new, unlinked name. */
  function Named(s: Shape, lo: nat, n: nat, name: seq<Byte>): Shape
  {
    s.(lo := s.lo[n := lo], names := s.names[n := name])
  }

  /** new_name: the name exists, and no chain has it. */
  lemma NewNameKeeps(d: Dict, s: Shape, link: nat, name: seq<Byte>)
    requires Valid(d, s) && Fits(d, name) && link < MAX64
    ensures NewLink(d, name) !in s.lo && NewLink(d, name) > 0
    ensures Valid(NewName(d, link, name, false), Named(s, d.hp, NewLink(d, name), Capped(name)))
  {
    hide NodeOk, Grows, ChainOk, CellAt, PrefixBytes, Capped, NewName;
    var n := NewLink(d, name);
    var e := NewName(d, link, name, false);
    var t := Named(s, d.hp, n, Capped(name));
    NewNameStored(d, link, name, false);
    NewNameKeepsLast(d, link, name);
    GrowKeeps(d, e, s);
    assert n !in s.lo by { if n in s.lo { NodeBelow(d, s, n); } }
    assert NodeOk(e, t, n) by { NewNodeOk(d, s, name, link); }
    forall m | m in s.lo ensures NodeOk(e, t, m) { NodeSame(e, e, s, t, m); }
    AddedApart(d, s, n, Capped(name));
    forall c | c in t.own ensures ChainOk(e, t, c) { ChainSame(e, e, s, t, c, n); }
  }

  /** (unlinked-name): the name links to the front of its chain, which does not have it yet. */
  lemma UnlinkedNameKeeps(d: Dict, s: Shape, name: seq<Byte>, chain: nat)
    requires Valid(d, s) && Fits(d, name) && chain in s.own
    ensures chain + 8 <= |d.h|
    ensures NewLink(d, name) !in s.lo
    ensures Valid(UnlinkedName(d, name, chain), Named(s, d.hp, NewLink(d, name), Capped(name)))
  {
    hide NodeOk, Grows, ChainOk, CellAt, PrefixBytes, Capped, NewName;
    LinkBounded(d, s, chain);
    var link := CellAt(d.h, chain);
    NewNameKeeps(d, s, link, name);
    NewNameStored(d, link, name, false);
    PendKeeps(NewName(d, link, name, false), Named(s, d.hp, NewLink(d, name), Capped(name)), NewLink(d, name), chain);
  }

  /** A name that leads to the front of a chain may be the next to be shown there. */
  lemma PendKeeps(d: Dict, s: Shape, n: nat, chain: nat)
    requires Valid(d, s) && chain in s.own && n in s.lo && n !in s.own && n > 0
    requires n + 8 <= |d.h| && CellAt(d.h, n) == First(s, chain)
    ensures Valid(d.(lastName := n, lastChain := chain), s)
  {
    hide CellAt, Apart, NodeOk, ChainOk;
    var e := d.(lastName := n, lastChain := chain);
    NodeBelow(d, s, n);
    forall m | m in s.lo ensures NodeOk(e, s, m) { NodeSame(d, e, s, s, m); }
    forall c | c in s.own ensures ChainOk(e, s, c) { ChainSame(d, e, s, s, c, c); }
  }

  /** Forgetting what show would show. */
  lemma UnpendKeeps(d: Dict, s: Shape)
    requires Valid(d, s)
    ensures Valid(d.(lastName := 0, lastChain := 0), s)
  {
    hide CellAt, Apart, NodeOk, ChainOk;
    var e := d.(lastName := 0, lastChain := 0);
    forall m | m in s.lo ensures NodeOk(e, s, m) { NodeSame(d, e, s, s, m); }
    forall c | c in s.own ensures ChainOk(e, s, c) { ChainSame(d, e, s, s, c, c); }
  }

  lemma NewNameKeepsLast(d: Dict, link: nat, name: seq<Byte>)
    requires Fits(d, name)
    ensures NewName(d, link, name, false).lastName == d.lastName &&
           NewName(d, link, name, false).lastChain == d.lastChain
  {}

  /** A name laid down at the heap pointer is apart from all others. */
  lemma AddedApart(d: Dict, s: Shape, n: nat, name: seq<Byte>)
    requires Valid(d, s) && d.hp < n
    ensures var t := Named(s, d.hp, n, name);
            forall i, j :: i in t.lo && j in t.lo && i != j ==> Apart(t, i, j)
  {
    hide NodeOk, ChainOk;
    var t := Named(s, d.hp, n, name);
    forall i, j | i in t.lo && j in t.lo && i != j ensures Apart(t, i, j) {
      if i != n { NodeBelow(d, s, i); }
      if j != n { NodeBelow(d, s, j); }
      if i != n && j != n { assert Apart(s, i, j); }
    }
  }

  lemma ChainInside(d: Dict, s: Shape, c: nat)
    requires Valid(d, s) && c in s.own
    ensures c + 8 <= d.hp
  {
    assert ChainOk(d, s, c);
  }

  lemma LinkBounded(d: Dict, s: Shape, c: nat)
    requires Valid(d, s) && c in s.own
    ensures c + 8 <= |d.h| && CellAt(d.h, c) == First(s, c) && First(s, c) < MAX64
  {
    assert ChainOk(d, s, c);
    if s.own[c] != [] { assert LinkOk(d, s, c, 0); }
  }

  lemma NodeBelow(d: Dict, s: Shape, n: nat)
    requires Valid(d, s) && n in s.lo
    ensures s.lo[n] < n && n + 8 <= d.hp
  {
    assert NodeOk(d, s, n);
  }

  lemma NewNodeOk(d: Dict, s: Shape, name: seq<Byte>, link: nat)
    requires Valid(d, s) && Fits(d, name) && link < MAX64 && NewLink(d, name) !in s.own
    ensures var n := NewLink(d, name);
            NewName(d, link, name, false).hp <= |d.h|
            && NodeOk(NewName(d, link, name, false), Named(s, d.hp, n, Capped(name)), n)
  {
    NewNameStored(d, link, name, false);
  }

  lemma NodeSame(d: Dict, e: Dict, s: Shape, t: Shape, n: nat)
    requires d.hp <= |d.h| && e.h == d.h && e.hp == d.hp && n in s.lo && n in s.names && NodeOk(d, s, n)
    requires n in t.lo && n in t.names && t.lo[n] == s.lo[n] && t.names[n] == s.names[n] && (n in t.own <==> n in s.own)
    ensures NodeOk(e, t, n)
  {}

  lemma ChainSame(d: Dict, e: Dict, s: Shape, t: Shape, c: nat, n: nat)
    requires d.hp <= |d.h| && e.h == d.h && e.hp == d.hp
    requires c in s.own && c in s.anchor && c in s.lo && ChainOk(d, s, c)
    requires t.own == s.own && t.anchor == s.anchor && t.lo.Keys == s.lo.Keys + {n}
    ensures ChainOk(e, t, c)
  {
    forall i | 0 <= i < |t.own[c]| ensures LinkOk(e, t, c, i) { assert LinkOk(d, s, c, i); }
  }

  // ----- show -----

  /** The shape after show: the last name is at the front of its chain. */
  function Shown(d: Dict, s: Shape): Shape
    requires d.lastChain in s.own
  {
    var c := d.lastChain;
    if s.own[c] != [] && s.own[c][0] == d.lastName then s
    else s.(own := s.own[c := [d.lastName] + s.own[c]])
  }

  /** A store into the link cell of c leaves every other link and every name alone. */
  lemma StoreInLink(d: Dict, s: Shape, c: nat, v: nat, n: nat)
    requires Valid(d, s) && c in s.lo && n in s.lo && c + 8 <= |d.h|
    ensures d.hp <= |d.h| && n in s.names && NodeOk(d.(h := Put(d.h, c, CellBytes(v))), s, n)
    ensures n + 8 <= |d.h| && (n != c ==> CellAt(Put(d.h, c, CellBytes(v)), n) == CellAt(d.h, n))
  {
    hide Valid, Put, CellAt;
    TwoNodes(d, s, c, n);
    StoreElsewhere(d.h, c, CellBytes(v), s.lo[n], n, |s.names[n]|);
    if n != c { CellElsewhere(d.h, c, CellBytes(v), n); }
  }

  lemma TwoNodes(d: Dict, s: Shape, c: nat, n: nat)
    requires Valid(d, s) && c in s.lo && n in s.lo
    ensures d.hp <= |d.h| && c in s.names && n in s.names
    ensures NodeOk(d, s, n) && NodeOk(d, s, c) && (n == c || Apart(s, c, n))
  {
    hide NodeOk, ChainOk;
  }

  lemma StoreElsewhere(h: seq<Byte>, c: nat, b: seq<Byte>, lo: nat, n: nat, k: nat)
    requires c + |b| <= |h| && lo + k + 1 <= n <= |h| && (n <= c || c + |b| <= lo)
    ensures Put(h, c, b)[n - 1 - k..n - 1] == h[n - 1 - k..n - 1] && Put(h, c, b)[n - 1] == h[n - 1]
  {}

  lemma CellElsewhere(h: seq<Byte>, c: nat, b: seq<Byte>, n: nat)
    requires c + |b| <= |h| && n + 8 <= |h| && (n + 8 <= c || c + |b| <= n)
    ensures CellAt(Put(h, c, b), n) == CellAt(h, n)
  {
    hide FromBytes;
    PutElsewhere(h, c, b, n, n + 8);
  }

  lemma ShowKeeps(d: Dict, s: Shape)
    requires Valid(d, s) && d.lastChain != 0
    ensures d.lastChain + 8 <= |d.h|
    ensures Valid(Show(d), Shown(d, s))
  {
    hide NodeOk;
    var c, last := d.lastChain, d.lastName;
    ChainInside(d, s, c);
    var e, t := Show(d), Shown(d, s);
    assert t.lo == s.lo && t.names == s.names && t.anchor == s.anchor && t.own.Keys == s.own.Keys;
    CellPut(d.h, c, last);
    assert ChainOk(d, s, c);
    forall n | n in t.lo ensures NodeOk(e, t, n) {
      StoreInLink(d, s, c, last, n);
      NodeSame(d.(h := e.h), e, s, t, n);
    }
    forall i, j | i in t.lo && j in t.lo && i != j ensures Apart(t, i, j) { assert Apart(s, i, j); }
    forall x | x in t.own ensures ChainOk(e, t, x) { ShownChain(d, s, x); }
    StoreInLink(d, s, c, last, last);
  }

  lemma ShownChain(d: Dict, s: Shape, x: nat)
    requires Valid(d, s) && d.lastChain != 0 && x in s.own && d.lastChain + 8 <= |d.h|
    ensures ChainOk(Show(d), Shown(d, s), x)
  {
    hide NodeOk, Apart, Put, CellAt;
    var c, last := d.lastChain, d.lastName;
    var e, t := Show(d), Shown(d, s);
    assert ChainOk(d, s, x);
    CellPut(d.h, c, last);
    StoreInLink(d, s, c, last, x);
    forall i | 0 <= i < |t.own[x]| ensures LinkOk(e, t, x, i) {
      if x == c && t != s {
        if i > 0 { assert LinkOk(d, s, x, i - 1); }
        StoreInLink(d, s, c, last, t.own[x][i]);
      } else {
        assert LinkOk(d, s, x, i);
        StoreInLink(d, s, c, last, t.own[x][i]);
      }
    }
  }

  // ----- a new chain -----

  /** The shape with a new, empty chain whose hidden head is H. */
  function Headed(s: Shape, H: nat, anchor: nat): Shape
  {
    s.(lo := s.lo[H := NatMinus(H, 8)], names := s.names[H := MUCHAIN], own := s.own[H := []],
       anchor := s.anchor[H := anchor])
  }

  function NatMinus(a: nat, b: nat): nat { if a < b then 0 else a - b }

  /** The hidden name and a link to the anchor make a cell pair just above d's heap
      pointer a chain head. */
  lemma HeadKeeps(d: Dict, e: Dict, s: Shape, anchor: nat)
    requires Valid(d, s) && Grows(d, e) && e.lastName == d.lastName && e.lastChain == d.lastChain
    requires e.hp == d.hp + 16 && (anchor == 0 || anchor in s.own)
    requires e.h[d.hp..d.hp + 8] == MUCHAIN + [0] && CellAt(e.h, d.hp + 8) == anchor
    ensures d.hp + 8 !in s.lo && Valid(e, Headed(s, d.hp + 8, anchor))
  {
    hide NodeOk, Grows, ChainOk, CellAt;
    var H, t := d.hp + 8, Headed(s, d.hp + 8, anchor);
    assert e.hp <= |e.h| && |e.h| == |d.h| by { GrowsBounds(d, e); }
    GrowKeeps(d, e, s);
    assert H !in s.lo by { if H in s.lo { NodeBelow(d, s, H); } }
    HeadNode(d, e, s, anchor);
    forall m | m in s.lo ensures NodeOk(e, t, m) { NodeSame(e, e, s, t, m); }
    forall i, j | i in t.lo && j in t.lo && i != j ensures Apart(t, i, j) {
      if i != H { NodeBelow(d, s, i); }
      if j != H { NodeBelow(d, s, j); }
      if i != H && j != H { assert Apart(s, i, j); }
    }
    forall c | c in s.own ensures ChainOk(e, t, c) { ChainHeaded(e, s, c, H, anchor); }
    assert ChainOk(e, t, H) by {
      if anchor != 0 { ChainInside(d, s, anchor); }
      HeadChain(d, e, s, anchor);
    }
  }

  lemma HeadNode(d: Dict, e: Dict, s: Shape, anchor: nat)
    requires e.hp == d.hp + 16 <= |e.h| && d.hp % 8 == 0 && e.h[d.hp..d.hp + 8] == MUCHAIN + [0]
    ensures NodeOk(e, Headed(s, d.hp + 8, anchor), d.hp + 8)
  {
    assert e.h[d.hp..d.hp + 7] == e.h[d.hp..d.hp + 8][..7];
    assert e.h[d.hp + 7] == e.h[d.hp..d.hp + 8][7];
  }

  lemma HeadChain(d: Dict, e: Dict, s: Shape, anchor: nat)
    requires e.hp == d.hp + 16 <= |e.h| && (anchor == 0 || (anchor in s.own && anchor + 8 <= d.hp))
    requires CellAt(e.h, d.hp + 8) == anchor
    ensures ChainOk(e, Headed(s, d.hp + 8, anchor), d.hp + 8)
  {}

  lemma ChainHeaded(d: Dict, s: Shape, c: nat, H: nat, anchor: nat)
    requires d.hp <= |d.h| && c in s.own && c in s.anchor && c in s.lo && ChainOk(d, s, c)
    requires H !in s.lo && s.own.Keys <= s.lo.Keys
    ensures ChainOk(d, Headed(s, H, anchor), c)
  {
    forall i | 0 <= i < |s.own[c]| ensures LinkOk(d, Headed(s, H, anchor), c, i) { assert LinkOk(d, s, c, i); }
  }

  /** The shape after chain. */
  function Chained(d: Dict, s: Shape, name: seq<Byte>, current: nat, anchor: nat): Shape
    requires current in s.own
  {
    var t := Headed(Named(s, d.hp, NewLink(d, name), Capped(name)), NewHead(d, name), anchor);
    if NewHead(d, name) == current then t
    else t.(own := t.own[current := [NewLink(d, name)] + t.own[current]])
  }

  /** A chain made by chain exists, is empty, and its public name is shown. */
  lemma ChainKeeps(d: Dict, s: Shape, name: seq<Byte>, current: nat, code: nat, anchor: nat)
    requires Valid(d, s) && Fits(d, name) && NewLink(d, name) + 40 <= |d.h|
    requires current in s.own && (anchor == 0 || anchor in s.own)
    ensures current + 8 <= |d.h| && NewHead(d, name) !in s.lo
    ensures Valid(Chain(d, name, current, code, anchor), Chained(d, s, name, current, anchor))
  {
    hide Valid, Grows, Put, Capped, PrefixBytes;
    UnlinkedNameKeeps(d, s, name, current);
    var n, H := NewLink(d, name), NewHead(d, name);
    var s1 := Named(s, d.hp, n, Capped(name));
    var d0 := UnlinkedName(d, name, current);
    var d1 := Comma(d0, code);
    CommaKeeps(d0, s1, code);
    var d2 := d1.(h := Put(d1.h, d1.hp, MUCHAIN + [0]), hp := d1.hp + 8);
    var d3 := Comma(d2, anchor);
    assert (anchor == 0 || anchor in s1.own) && anchor < MAX64 by { AnchorBounded(d, s, anchor); }
    HeadLaid(d1, s1, anchor);
    HeadKeeps(d1, d3, s1, anchor);
    var t := Headed(s1, H, anchor);
    assert current != 0 && current in s.lo && H !in s1.lo by { Members(d, s, current); }
    ShowKeeps(d3, t);
    assert t.own[current] == s.own[current];
    assert Shown(d3, t) == Chained(d, s, name, current, anchor) by { NotYet(d, s, current, n); }
  }

  lemma UnlinkedRoom(d: Dict, name: seq<Byte>, chain: nat)
    requires Fits(d, name) && chain + 8 <= |d.h|
    ensures var e := UnlinkedName(d, name, chain);
            e.hp == NewLink(d, name) + 8 && |e.h| == |d.h| && e.lastName == NewLink(d, name) && e.lastChain == chain
  {}

  lemma Members(d: Dict, s: Shape, c: nat)
    requires Valid(d, s) && c in s.own
    ensures c != 0 && c in s.lo
  {}

  lemma AnchorBounded(d: Dict, s: Shape, anchor: nat)
    requires Valid(d, s) && (anchor == 0 || anchor in s.own)
    ensures anchor < MAX64
  {
    if anchor != 0 { ChainInside(d, s, anchor); }
  }

  lemma NotYet(d: Dict, s: Shape, c: nat, n: nat)
    requires Valid(d, s) && c in s.own && n !in s.lo
    ensures s.own[c] == [] || s.own[c][0] != n
  {
    assert ChainOk(d, s, c);
    if s.own[c] != [] { assert LinkOk(d, s, c, 0); }
  }

  lemma HeadLaid(d: Dict, s: Shape, anchor: nat)
    requires Valid(d, s) && d.hp + 16 <= |d.h| && anchor < MAX64
    ensures var e := Comma(d.(h := Put(d.h, d.hp, MUCHAIN + [0]), hp := d.hp + 8), anchor);
            Grows(d, e) && e.h[d.hp..d.hp + 8] == MUCHAIN + [0] && CellAt(e.h, d.hp + 8) == anchor
  {
    hide CellBytes, CellAt, Valid;
    assert d.hp % 8 == 0 by { ValidBounds(d, s); }
    var h1 := Put(d.h, d.hp, MUCHAIN + [0]);
    CellPut(h1, d.hp + 8, anchor);
  }

  // ----- starting up -----

  /** Rewriting the link of a name that no chain has. */
  lemma RelinkKeeps(d: Dict, s: Shape, n: nat, v: nat)
    requires Valid(d, s) && d.lastChain == 0 && n in s.lo && n !in s.own
    requires forall c, i :: c in s.own && 0 <= i < |s.own[c]| ==> s.own[c][i] != n
    ensures n + 8 <= |d.h| && Valid(d.(h := Put(d.h, n, CellBytes(v))), s)
  {
    hide NodeOk, Put, CellAt;
    NodeBelow(d, s, n);
    var e := d.(h := Put(d.h, n, CellBytes(v)));
    forall m | m in s.lo ensures NodeOk(e, s, m) { StoreInLink(d, s, n, v, m); }
    forall c | c in s.own ensures ChainOk(e, s, c) {
      assert ChainOk(d, s, c);
      StoreInLink(d, s, n, v, c);
      forall i | 0 <= i < |s.own[c]| ensures LinkOk(e, s, c, i) {
        assert LinkOk(d, s, c, i);
        StoreInLink(d, s, n, v, s.own[c][i]);
      }
    }
  }

  /** The shape in which the empty chain c has taken over a list of names. */
  function Adopted(s: Shape, c: nat, list: seq<nat>, anchor: nat): Shape
  {
    s.(own := s.own[c := list], anchor := s.anchor[c := anchor])
  }

  /** Names linked one to the next, the last to an older chain, that no chain has yet. */
  ghost predicate Adoptable(d: Dict, s: Shape, c: nat, list: seq<nat>, anchor: nat)
  {
    c in s.own && s.own[c] == [] && (anchor == 0 || (anchor < c && anchor in s.own))
    && forall i :: 0 <= i < |list| ==> Linked(d, s, list, anchor, i)
  }

  ghost predicate Linked(d: Dict, s: Shape, list: seq<nat>, anchor: nat, i: nat)
    requires i < |list|
  {
    var n := list[i];
    n in s.lo && n !in s.own && 0 < n && n + 8 <= d.hp <= |d.h|
    && CellAt(d.h, n) == (if i + 1 < |list| then list[i + 1] else anchor)
  }

  /** init_chain: pointing the head of an empty chain at such names. */
  lemma AdoptKeeps(d: Dict, s: Shape, c: nat, list: seq<nat>, anchor: nat)
    requires Valid(d, s) && d.lastChain == 0 && Adoptable(d, s, c, list, anchor)
    ensures c + 8 <= |d.h|
    ensures Valid(d.(h := Put(d.h, c, CellBytes(if list == [] then anchor else list[0]))), Adopted(s, c, list, anchor))
  {
    hide NodeOk, Put, CellAt;
    ChainInside(d, s, c);
    var v := if list == [] then anchor else list[0];
    assert v < MAX64 by {
      if list != [] { assert Linked(d, s, list, anchor, 0); }
    }
    CellPut(d.h, c, v);
    var e, t := d.(h := Put(d.h, c, CellBytes(v))), Adopted(s, c, list, anchor);
    forall m | m in t.lo ensures NodeOk(e, t, m) {
      StoreInLink(d, s, c, v, m);
      NodeSame(e, e, s, t, m);
    }
    forall i, j | i in t.lo && j in t.lo && i != j ensures Apart(t, i, j) { assert Apart(s, i, j); }
    forall x | x in t.own ensures ChainOk(e, t, x) {
      assert ChainOk(d, s, x);
      forall i | 0 <= i < |t.own[x]| ensures LinkOk(e, t, x, i) {
        if x == c { assert Linked(d, s, list, anchor, i); } else { assert LinkOk(d, s, x, i); }
        StoreInLink(d, s, c, v, t.own[x][i]);
      }
      StoreInLink(d, s, c, v, x);
    }
  }

  /** The shape with a new name at the front of chain c. */
  function FrontOf(s: Shape, lo: nat, n: nat, name: seq<Byte>, c: nat): Shape
    requires c in s.own
  {
    var t := Named(s, lo, n, name);
    t.(own := t.own[c := [n] + t.own[c]])
  }

  /** new_linked_name is (unlinked-name) and show at once. */
  lemma LinkedNameKeeps(d: Dict, s: Shape, name: seq<Byte>, c: nat)
    requires Valid(d, s) && d.lastChain == 0 && Fits(d, name) && c in s.own
    ensures c + 8 <= |d.h| && NewLink(d, name) !in s.lo && c in s.lo && First(s, c) < MAX64 &&
           CellAt(d.h, c) == First(s, c)
    ensures var e := NewName(d, CellAt(d.h, c), name, false);
            Valid(e.(h := Put(e.h, c, CellBytes(NewLink(d, name)))),
                  FrontOf(s, d.hp, NewLink(d, name), Capped(name), c))
  {
    hide Valid, CellAt, Capped, PrefixBytes, NewName, Put, CellBytes;
    UnlinkedNameKeeps(d, s, name, c);
    LinkBounded(d, s, c);
    Members(d, s, c);
    var n := NewLink(d, name);
    NotYet(d, s, c, n);
    var e, t := UnlinkedName(d, name, c), Named(s, d.hp, n, Capped(name));
    NewNameKeepsLast(d, CellAt(d.h, c), name);
    ShowKeeps(e, t);
    UnpendKeeps(Show(e), Shown(e, t));
    var f := NewName(d, CellAt(d.h, c), name, false);
    NothingPending(d, s, name, CellAt(d.h, c));
    UnpendedSame(f.(h := Put(f.h, c, CellBytes(n))), Shown(e, t));
  }

  lemma NothingPending(d: Dict, s: Shape, name: seq<Byte>, link: nat)
    requires Fits(d, name) && d.lastChain == 0
    ensures NewName(d, link, name, false).lastChain == 0
  {}

  /** Without a chain to show on, the last name does not matter. */
  lemma UnpendedSame(d: Dict, s: Shape)
    requires d.lastChain == 0 && Valid(d.(lastName := 0, lastChain := 0), s)
    ensures Valid(d, s)
  {
    hide CellAt, Apart, NodeOk, ChainOk;
    var e := d.(lastName := 0, lastChain := 0);
    forall m | m in s.lo ensures NodeOk(d, s, m) { NodeSame(e, d, s, s, m); }
    forall c | c in s.own ensures ChainOk(d, s, c) { ChainSame(e, d, s, s, c, c); }
  }

  lemma GrowsTrans(d: Dict, e: Dict, f: Dict)
    requires d.hp <= |d.h| && Grows(d, e) && Grows(e, f)
    ensures Grows(d, f)
  {
    SliceKept(e.h, f.h, e.hp, 0, d.hp);
  }

  /** The hidden entry that new_name makes for a chain head. */
  lemma HeadStored(d: Dict, s: Shape)
    requires Valid(d, s) && d.hp + 24 <= |d.h|
    ensures Fits(d, MUCHAIN)
    ensures var e := NewName(d, 0, MUCHAIN, true);
            Grows(d, e) && e.hp == d.hp + 16 && NewLink(d, MUCHAIN) == d.hp + 8
            && e.lastName == d.lastName && e.lastChain == d.lastChain
            && e.h[d.hp..d.hp + 8] == MUCHAIN + [0] && CellAt(e.h, d.hp + 8) == 0
  {
    hide Valid, CellAt, CellBytes;
    ValidBounds(d, s);
    NewNameStored(d, 0, MUCHAIN, true);
    var e := NewName(d, 0, MUCHAIN, true);
    assert e.h[d.hp..d.hp + 8] == e.h[d.hp..d.hp + 7] + [e.h[d.hp + 7]];
  }

  lemma HeadIsNew(d: Dict, s: Shape, lo: nat, n: nat, name: seq<Byte>)
    requires Valid(d, Named(s, lo, n, name))
    ensures d.hp + 8 !in s.lo
  {
    if d.hp + 8 in s.lo { NodeBelow(d, Named(s, lo, n, name), d.hp + 8); }
  }

  lemma AdoptableChain(d: Dict, s: Shape, c: nat, list: seq<nat>, anchor: nat)
    requires Adoptable(d, s, c, list, anchor)
    ensures c in s.own
  {}

  /** The bytes a list of built-in words takes. */
  function Size(words: seq<seq<Byte>>): nat
  {
    if words == [] then 0
    else Size(words[..|words| - 1]) + PrefixBytes(|Capped(words[|words| - 1])|) + 24
  }

  lemma {:induction false} SizeSplits(words: seq<seq<Byte>>, i: nat)
    requires i < |words|
    ensures Size(words[..i + 1]) == Size(words[..i]) + PrefixBytes(|Capped(words[i])|) + 24 <= Size(words)
    decreases |words|
  {
    assert words[..i + 1][..i] == words[..i];
    if i + 1 < |words| {
      var init := words[..|words| - 1];
      SizeSplits(init, i);
      assert init[..i + 1] == words[..i + 1] && init[..i] == words[..i];
    } else {
      assert words[..i + 1] == words;
    }
  }

  lemma EntrySize(d: Dict, name: seq<Byte>)
    requires d.hp + PrefixBytes(|Capped(name)|) + 24 <= |d.h| < MAX64
    ensures Fits(d, name) && NewLink(d, name) + 16 == d.hp + PrefixBytes(|Capped(name)|) + 24
  {}

  /** Chain c shows the words, newest first, and then a list of names it had before. */
  ghost predicate OnChain(s: Shape, c: nat, words: seq<seq<Byte>>, list: seq<nat>)
    requires c in s.own
  {
    |s.own[c]| == |words| + |list| && s.own[c][|words|..] == list
    && forall i :: 0 <= i < |words| ==> WordAt(s, s.own[c], words, i)
  }

  /** The i-th word is the i-th from the end of the newest. */
  ghost predicate WordAt(s: Shape, shown: seq<nat>, words: seq<seq<Byte>>, i: nat)
    requires i < |words| <= |shown|
  {
    var n := shown[|words| - 1 - i];
    n in s.names && s.names[n] == Capped(words[i])
  }

  /** Names stay. */
  ghost predicate NamesKept(s: Shape, t: Shape)
  {
    forall n :: n in s.names ==> n in t.names && t.names[n] == s.names[n]
  }

  lemma OneMore(s: Shape, lo: nat, n: nat, c: nat, words: seq<seq<Byte>>, i: nat, list: seq<nat>)
    requires c in s.own && i < |words| && OnChain(s, c, words[..i], list) && n !in s.names
    ensures OnChain(FrontOf(s, lo, n, Capped(words[i]), c), c, words[..i + 1], list)
  {
    var t := FrontOf(s, lo, n, Capped(words[i]), c);
    var first, shown := words[..i + 1], t.own[c];
    forall j | 0 <= j < |first| ensures WordAt(t, shown, first, j) {
      if j < i {
        assert WordAt(s, s.own[c], words[..i], j);
      }
    }
    assert t.own[c][i + 1..] == s.own[c][i..];
  }

  /** The four names linked one to the next, from .runtime. down to .lex., whose own link
      leads to the head of .lex. */
  lemma BootAdoptable(d: Dict, s: Shape, c: nat, n3: nat, n2: nat, n1: nat, n0: nat, anchor: nat)
    requires c in s.own && s.own[c] == [] && anchor in s.own && anchor < c
    requires Placed(d, s, n0) && Placed(d, s, n1) && Placed(d, s, n2) && Placed(d, s, n3)
    requires CellAt(d.h, n3) == n2 && CellAt(d.h, n2) == n1 && CellAt(d.h, n1) == n0 && CellAt(d.h, n0) == anchor
    ensures Adoptable(d, s, c, [n3, n2, n1, n0], anchor)
  {
    hide CellAt;
    var list := [n3, n2, n1, n0];
    forall i | 0 <= i < 4 ensures Linked(d, s, list, anchor, i) {}
  }

  lemma BootNames(s: Shape, n3: nat, n2: nat, n1: nat, n0: nat)
    requires n0 in s.names && s.names[n0] == LEX && n1 in s.names && s.names[n1] == FORTH
    requires n2 in s.names && s.names[n2] == COMPILER && n3 in s.names && s.names[n3] == RUNTIME
    ensures forall i :: 0 <= i < 4 ==> WordAt(s, [n3, n2, n1, n0], BOOT, i)
  {}

  const BOOT: seq<seq<Byte>> := [LEX, FORTH, COMPILER, RUNTIME]

  lemma BootLength()
    ensures |BOOT| == 4
  {}

  ghost predicate Placed(d: Dict, s: Shape, n: nat)
    ensures Placed(d, s, n) ==> n + 8 <= |d.h|
  {
    n in s.lo && n !in s.own && 0 < n && n + 8 <= d.hp <= |d.h|
  }

  lemma EmptyAdoptable(d: Dict, s: Shape, c: nat, anchor: nat)
    requires c in s.own && s.own[c] == [] && anchor in s.own && anchor < c
    ensures Adoptable(d, s, c, [], anchor)
  {}

  lemma OnChainKept(s: Shape, t: Shape, c: nat, words: seq<seq<Byte>>, list: seq<nat>)
    requires c in s.own && c in t.own && t.own[c] == s.own[c] && NamesKept(s, t) && OnChain(s, c, words, list)
    ensures OnChain(t, c, words, list)
  {
    forall i | 0 <= i < |words| ensures WordAt(t, t.own[c], words, i) { assert WordAt(s, s.own[c], words, i); }
  }

  /** Words put on a chain that showed others join them. */
  lemma OnChainJoins(s: Shape, t: Shape, c: nat, first: seq<seq<Byte>>, more: seq<seq<Byte>>, list: seq<nat>)
    requires c in t.own && OnChain(t, c, more, list) && NamesKept(s, t) && |list| == |first|
    requires forall i :: 0 <= i < |first| ==> WordAt(s, list, first, i)
    ensures OnChain(t, c, first + more, [])
  {
    var words, shown := first + more, t.own[c];
    forall i | 0 <= i < |words| ensures WordAt(t, shown, words, i) {
      if i < |first| {
        assert WordAt(s, list, first, i);
        assert shown[|more|..][|first| - 1 - i] == shown[|words| - 1 - i];
      } else {
        assert WordAt(t, shown, more, i - |first|);
      }
    }
  }

  const LEX: seq<Byte> := [0x2e, 0x6c, 0x65, 0x78, 0x2e]
  const FORTH: seq<Byte> := [0x2e, 0x66, 0x6f, 0x72, 0x74, 0x68, 0x2e]
  const COMPILER: seq<Byte> := [0x2e, 0x63, 0x6f, 0x6d, 0x70, 0x69, 0x6c, 0x65, 0x72, 0x2e]
  const RUNTIME: seq<Byte> := [0x2e, 0x72, 0x75, 0x6e, 0x74, 0x69, 0x6d, 0x65, 0x2e]

  lemma BootSizes(d: Dict)
    ensures NewLink(d, LEX) == d.hp + 8 && NewLink(d, FORTH) == d.hp + 8
    ensures NewLink(d, COMPILER) == d.hp + 16 && NewLink(d, RUNTIME) == d.hp + 16
    ensures Capped(LEX) == LEX && Capped(FORTH) == FORTH && Capped(COMPILER) == COMPILER && Capped(RUNTIME) == RUNTIME
  {}

  // ----- the stores of new_name -----

  /** Storing inside a range just stored changes what was stored. */
  lemma PutInside(h: seq<Byte>, a: nat, b: seq<Byte>, i: nat, c: seq<Byte>)
    requires a + |b| <= |h| && i + |c| <= |b|
    ensures Put(Put(h, a, b), a + i, c) == Put(h, a, b[..i] + c + b[i + |c|..])
  {}

  /** Clearing the entry and then storing name, length and link is storing the entry. */
  lemma FourStores(h: seq<Byte>, hp: nat, link: nat, name: seq<Byte>, hidden: bool)
    requires |name| <= 255 && hp + PrefixBytes(|name|) + 24 <= |h|
    ensures var k, p := |name|, PrefixBytes(|name|);
            Put(Put(Put(Put(h, hp, Zeros(p + 24)), hp + p + 7 - k, name), hp + p + 7, [if hidden then 0 else k]),
                hp + p + 8, CellBytes(link)) ==
            Put(h, hp, EntryBytes(link, name, hidden))
  {
    hide Put, CellBytes;
    var k, p := |name|, PrefixBytes(|name|);
    var z, l, c := Zeros(p + 24), [if hidden then 0 else k], CellBytes(link);
    var b1 := Zeros(p + 7 - k) + name + Zeros(17);
    var b2 := Zeros(p + 7 - k) + name + l + Zeros(16);
    PutInside(h, hp, z, p + 7 - k, name);
    assert z[..p + 7 - k] + name + z[p + 7..] == b1;
    PutInside(h, hp, b1, p + 7, l);
    assert b1[..p + 7] + l + b1[p + 8..] == b2;
    PutInside(h, hp, b2, p + 8, c);
    assert b2[..p + 8] + c + b2[p + 16..] == EntryBytes(link, name, hidden);
  }

  // ----- following links -----

  lemma PendingChain(d: Dict, s: Shape)
    requires Valid(d, s) && d.lastChain != 0
    ensures d.lastChain in s.own
  {}

  lemma KeysAgree(d: Dict, s: Shape)
    requires Valid(d, s)
    ensures s.lo.Keys == s.names.Keys && s.own.Keys == s.anchor.Keys
  {}

  /** Where the i-th step along chain c leads: to its i-th name, or on to the anchor. */
  function LinkFrom(s: Shape, c: nat, i: nat): nat
    requires c in s.own && c in s.anchor && i <= |s.own[c]|
  {
    if i < |s.own[c]| then s.own[c][i] else s.anchor[c]
  }

  /** What a search of c still has to go through after c's own names. */
  ghost function Beyond(d: Dict, s: Shape, c: nat): seq<nat>
    requires Valid(d, s) && c in s.own
  {
    assert ChainOk(d, s, c);
    if s.anchor[c] == 0 then [] else Visible(d, s, s.anchor[c])
  }

  lemma StartOfChain(d: Dict, s: Shape, c: nat)
    requires Valid(d, s) && c in s.own
    ensures c in s.anchor && c + 8 <= |d.h| && CellAt(d.h, c) == LinkFrom(s, c, 0)
    ensures Visible(d, s, c) == s.own[c][0..] + Beyond(d, s, c)
  {
    assert ChainOk(d, s, c);
  }

  /** The i-th step along a chain leads to one of its names, whose bytes are in place and
      which leads on to the next step, or to the hidden head of an older chain. */
  lemma StepLeadsToName(d: Dict, s: Shape, c: nat, i: nat)
    requires Valid(d, s) && c in s.own && c in s.anchor && i <= |s.own[c]| && LinkFrom(s, c, i) != 0
    ensures var n := LinkFrom(s, c, i);
            0 < n && n + 8 <= |d.h| && n in s.names && |s.names[n]| <= 255
            && (if i < |s.own[c]|
                then n > |s.names[n]| && d.h[n - 1] == |s.names[n]| && d.h[n - 1 - |s.names[n]|..n - 1] == s.names[n]
                     && CellAt(d.h, n) == LinkFrom(s, c, i + 1)
                else n in s.own && n < c && d.h[n - 1] == 0)
  {
    hide CellAt;
    assert ChainOk(d, s, c);
    if i < |s.own[c]| {
      assert LinkOk(d, s, c, i);
      assert NodeOk(d, s, s.own[c][i]);
    } else {
      assert NodeOk(d, s, s.anchor[c]);
    }
  }

  lemma LastStep(d: Dict, s: Shape, c: nat, i: nat)
    requires Valid(d, s) && c in s.own && c in s.anchor && i <= |s.own[c]| && LinkFrom(s, c, i) == 0
    ensures s.own[c][i..] + Beyond(d, s, c) == []
  {
    assert ChainOk(d, s, c);
    assert i == |s.own[c]| by {
      if i != |s.own[c]| { NamesAreReal(d, s, c, i); }
    }
  }

  lemma NamesAreReal(d: Dict, s: Shape, c: nat, i: nat)
    requires Valid(d, s) && c in s.own && c in s.anchor && i < |s.own[c]|
    ensures s.own[c][i] != 0
  {
    assert ChainOk(d, s, c);
    assert LinkOk(d, s, c, i);
  }
}
