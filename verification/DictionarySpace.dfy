/** Room that allot and comma take in the heap: how much, and that it stays the program's. */
module DictionarySpace {
  import opened Bytes
  import opened Dictionary
  import opened DictionaryProofs
  import opened DictionaryRuns

  /** allot takes the bytes asked for, rounded up to whole cells. */
  lemma AllotTakes(d: Dict, n: nat)
    requires d.hp % 8 == 0
    ensures var e := Allot(d, n);
            e == d.(hp := e.hp) && e.hp % 8 == 0 && n <= e.hp - d.hp < n + 8
  {}

  /** , takes one cell and puts the number there. */
  lemma CommaTakes(d: Dict, v: nat)
    requires d.hp + 8 <= |d.h| && v < MAX64
    ensures var e := Comma(d, v);
            e.hp == d.hp + 8 && |e.h| == |d.h| && CellAt(e.h, d.hp) == v && e.h[..d.hp] == d.h[..d.hp]
            && e.h[d.hp + 8..] == d.h[d.hp + 8..]
  {
    hide CellBytes, FromBytes;
    CellPut(d.h, d.hp, v);
  }

  /** The bytes from lo up to hi are allotted and belong to no entry. */
  ghost predicate Clear(d: Dict, s: Shape, lo: nat, hi: nat)
  {
    lo <= hi <= d.hp && forall n :: n in s.lo ==> n + 8 <= lo || hi <= s.lo[n]
  }

  /** No operation writes there, or puts an entry there. */
  ghost predicate Spares(d: Dict, s: Shape, e: Dict, t: Shape, lo: nat, hi: nat)
  {
    Clear(e, t, lo, hi) && hi <= |d.h| && hi <= |e.h| && e.h[lo..hi] == d.h[lo..hi]
  }

  lemma GrowsSpares(d: Dict, e: Dict, lo: nat, hi: nat)
    requires Grows(d, e) && lo <= hi <= d.hp <= |d.h|
    ensures hi <= e.hp <= |e.h| && e.h[lo..hi] == d.h[lo..hi]
  {
    SliceKept(d.h, e.h, d.hp, lo, hi);
  }

  /** A store into the link of a chain. */
  lemma ShowSpares(d: Dict, s: Shape, c: nat, v: nat, lo: nat, hi: nat)
    requires Valid(d, s) && c in s.own && Clear(d, s, lo, hi)
    ensures c + 8 <= |d.h| && hi <= |d.h| && Put(d.h, c, CellBytes(v))[lo..hi] == d.h[lo..hi]
  {
    Members(d, s, c);
    NodeBelow(d, s, c);
    assert NodeOk(d, s, c);
    PutElsewhere(d.h, c, CellBytes(v), lo, hi);
  }

  lemma NamedClear(d: Dict, s: Shape, e: Dict, n: nat, name: seq<Byte>, lo: nat, hi: nat)
    requires Clear(d, s, lo, hi) && d.hp <= e.hp
    ensures Clear(e, Named(s, d.hp, n, name), lo, hi)
  {}

  lemma StepSpares(d: Dict, s: Shape, op: Op, lo: nat, hi: nat)
    requires Valid(d, s) && Legal(d, s, op) && Clear(d, s, lo, hi)
    ensures var (e, t) := Do(d, s, op); Spares(d, s, e, t, lo, hi)
  {
    hide Valid, Grows, Put, Capped, PrefixBytes, CellAt, CellBytes, NewName, Comma, Chain;
    ValidBounds(d, s);
    match op
    case Word(name, chain) =>
      var e := UnlinkedName(d, name, chain);
      WordGrows(d, s, name, chain);
      GrowsBounds(d, e);
      GrowsSpares(d, e, lo, hi);
      NamedClear(d, s, e, NewLink(d, name), Capped(name), lo, hi);
    case Reveal => ShowSpares(d, s, d.lastChain, d.lastName, lo, hi);
    case Compile(v) =>
      CommaGrows(d, v);
      GrowsSpares(d, Comma(d, v), lo, hi);
    case Reserve(n) =>
    case Vocabulary(name, current, code, anchor) => VocabularySpares(d, s, name, current, code, anchor, lo, hi);
  }

  lemma WordGrows(d: Dict, s: Shape, name: seq<Byte>, chain: nat)
    requires Valid(d, s) && Fits(d, name) && chain in s.own && chain + 8 <= |d.h|
    ensures Grows(d, UnlinkedName(d, name, chain))
  {
    hide Valid, Grows, Put, Capped, PrefixBytes, NewName;
    ValidBounds(d, s);
    LinkBounded(d, s, chain);
    NewNameStored(d, CellAt(d.h, chain), name, false);
    var e := NewName(d, CellAt(d.h, chain), name, false);
    SameGrows(d, e, UnlinkedName(d, name, chain));
  }

  lemma SameGrows(d: Dict, e: Dict, f: Dict)
    requires Grows(d, e) && f.h == e.h && f.hp == e.hp
    ensures Grows(d, f)
  {}

  lemma VocabularySpares(d: Dict, s: Shape, name: seq<Byte>, current: nat, code: nat, anchor: nat, lo: nat, hi: nat)
    requires Valid(d, s) && Legal(d, s, Vocabulary(name, current, code, anchor)) && Clear(d, s, lo, hi)
    ensures var (e, t) := Do(d, s, Vocabulary(name, current, code, anchor)); Spares(d, s, e, t, lo, hi)
  {
    hide Valid, Grows, Put, Capped, PrefixBytes, CellAt, CellBytes, NewName;
    ValidBounds(d, s);
    var d0 := UnlinkedName(d, name, current);
    UnlinkedRoom(d, name, current);
    WordGrows(d, s, name, current);
    GrowsBounds(d, d0);
    var d1 := Comma(d0, code);
    CommaGrows(d0, code);
    var d2 := d1.(h := Put(d1.h, d1.hp, MUCHAIN + [0]), hp := d1.hp + 8);
    LaidGrows(d1);
    var d3 := Comma(d2, anchor);
    CommaGrows(d2, anchor);
    GrowsTrans(d, d0, d1);
    GrowsTrans(d, d1, d2);
    GrowsTrans(d, d2, d3);
    GrowsSpares(d, d3, lo, hi);
    ChainInside(d, s, current);
    Members(d, s, current);
    assert NodeOk(d, s, current) by { NodeHolds(d, s, current); }
    PutElsewhere(d3.h, current, CellBytes(d3.lastName), lo, hi);
  }

  lemma NodeHolds(d: Dict, s: Shape, n: nat)
    requires Valid(d, s) && n in s.lo
    ensures d.hp <= |d.h| && n in s.names && NodeOk(d, s, n)
  {}

  lemma LaidGrows(d: Dict)
    requires d.hp + 8 <= |d.h| && d.hp % 8 == 0
    ensures Grows(d, d.(h := Put(d.h, d.hp, MUCHAIN + [0]), hp := d.hp + 8))
  {}

  lemma {:induction false} RunSpares(d: Dict, s: Shape, ops: seq<Op>, lo: nat, hi: nat)
    requires Valid(d, s) && LegalRun(d, s, ops) && Clear(d, s, lo, hi)
    ensures var (e, t) := DoAll(d, s, ops); Spares(d, s, e, t, lo, hi)
    decreases |ops|
  {
    hide Valid, Legal, Do, Clear;
    if ops == [] {
      ValidBounds(d, s);
      ClearBounds(d, s, lo, hi);
    } else {
      var (e, t) := Do(d, s, ops[0]);
      StepKeeps(d, s, ops[0]);
      StepSpares(d, s, ops[0], lo, hi);
      RunSpares(e, t, ops[1..], lo, hi);
    }
  }

  lemma ClearBounds(d: Dict, s: Shape, lo: nat, hi: nat)
    requires Clear(d, s, lo, hi)
    ensures lo <= hi <= d.hp
  {}

  /** Everything from the heap pointer on is new. */
  lemma TopClear(d: Dict, s: Shape, e: Dict, hi: nat)
    requires Valid(d, s) && d.hp <= hi <= e.hp
    ensures Clear(e, s, d.hp, hi)
  {
    forall n | n in s.lo ensures n + 8 <= d.hp { NodeHolds(d, s, n); }
  }

  /** The bytes that allot reserves stay the program's: after any run of operations they lie
      inside the allotted heap, apart from every entry, and hold what they held. */
  lemma ReservedStays(d: Dict, s: Shape, n: nat, ops: seq<Op>)
    requires Valid(d, s) && Legal(d, s, Reserve(n)) && LegalRun(Allot(d, n), s, ops)
    ensures var (e, t) := DoAll(Allot(d, n), s, ops);
            d.hp + n <= e.hp <= |e.h| && e.h[d.hp..d.hp + n] == d.h[d.hp..d.hp + n]
            && forall m :: m in t.lo ==> m + 8 <= d.hp || d.hp + n <= t.lo[m]
  {
    hide Valid, LegalRun, DoAll;
    ValidBounds(d, s);
    AllotTakes(d, n);
    AllotKeeps(d, s, n);
    TopClear(d, s, Allot(d, n), d.hp + n);
    RunSpares(Allot(d, n), s, ops, d.hp, d.hp + n);
    var (e, t) := DoAll(Allot(d, n), s, ops);
    RunKeeps(Allot(d, n), s, ops);
    ValidBounds(e, t);
  }

  /** So does the cell that comma fills. */
  lemma CompiledStays(d: Dict, s: Shape, v: nat, ops: seq<Op>)
    requires Valid(d, s) && Legal(d, s, Compile(v)) && v < MAX64 && LegalRun(Comma(d, v), s, ops)
    ensures var (e, t) := DoAll(Comma(d, v), s, ops);
            d.hp + 8 <= e.hp <= |e.h| && CellAt(e.h, d.hp) == v
            && forall m :: m in t.lo ==> m + 8 <= d.hp || d.hp + 8 <= t.lo[m]
  {
    hide Valid, LegalRun, DoAll, Comma;
    ValidBounds(d, s);
    CommaTakes(d, v);
    CommaKeeps(d, s, v);
    TopClear(d, s, Comma(d, v), d.hp + 8);
    RunSpares(Comma(d, v), s, ops, d.hp, d.hp + 8);
    var (e, t) := DoAll(Comma(d, v), s, ops);
    RunKeeps(Comma(d, v), s, ops);
    ValidBounds(e, t);
  }
}
