/** The dictionary of src/dict.c: names laid down backwards in a byte heap, links from
    each name to an older one, and chains whose heads are hidden names themselves, so
    that one chain can be anchored to another and see what is added to it later.

    A name is known by the address of its link cell. The bytes of the name end just
    before its length byte, which ends just before the link; the code field follows. */
module Dictionary {
  import opened Bytes

  /** The heap, the first free byte, and what show is to link where. Zero: nothing. */
  datatype Dict = Dict(h: seq<Byte>, hp: nat, lastName: nat, lastChain: nat)

  /** What has been put there: for each link address, where its entry begins and the name
      stored; for each chain head, the names shown on the chain, newest first, and the
      head of the chain it is anchored to, or zero. */
  datatype Shape = Shape(
    lo: map<nat, nat>,
    names: map<nat, seq<Byte>>,
    own: map<nat, seq<nat>>,
    anchor: map<nat, nat>)

  // ----- laying down names -----

  /** At most 255 bytes of a name are kept. */
  function Capped(name: seq<Byte>): (r: seq<Byte>)
    ensures |r| <= 255
  {
    if |name| <= 255 then name else name[..255]
  }

  /** ALIGNED(length - SUFFIX_LEN): the bytes before the last seven of the name, rounded
      up to cells. */
  function PrefixBytes(length: nat): (p: nat)
    ensures p % 8 == 0 && length <= p + 7 && (length > 0 ==> p <= length)
  {
    length / 8 * 8
  }

  function Zeros(n: nat): (z: seq<Byte>)
    ensures |z| == n && forall i :: 0 <= i < n ==> z[i] == 0
  {
    seq(n, i => 0)
  }

  /** The bytes of an entry: padding, name, length, link and an empty code field. */
  function EntryBytes(link: nat, name: seq<Byte>, hidden: bool): (b: seq<Byte>)
    requires |name| <= 255
    ensures |b| == PrefixBytes(|name|) + 24
  {
    Zeros(PrefixBytes(|name|) + 7 - |name|) + name + [if hidden then 0 else |name|] + CellBytes(link) + Zeros(8)
  }

  /** The address the link of a new name gets. */
  function NewLink(d: Dict, name: seq<Byte>): nat { d.hp + PrefixBytes(|Capped(name)|) + 8 }

  predicate Fits(d: Dict, name: seq<Byte>) { NewLink(d, name) + 16 <= |d.h| < MAX64 }

  /** new_name: the code field that follows is cleared but not yet allotted. */
  function NewName(d: Dict, link: nat, name: seq<Byte>, hidden: bool): Dict
    requires Fits(d, name)
  {
    d.(h := Put(d.h, d.hp, EntryBytes(link, Capped(name), hidden)), hp := NewLink(d, name) + 8)
  }

  /** (unlinked-name)  ( a u chain) */
  function UnlinkedName(d: Dict, name: seq<Byte>, chain: nat): Dict
    requires Fits(d, name) && chain + 8 <= |d.h|
  {
    NewName(d, CellAt(d.h, chain), name, false).(lastName := NewLink(d, name), lastChain := chain)
  }

  /** show */
  function Show(d: Dict): Dict
    requires d.lastChain + 8 <= |d.h|
  {
    d.(h := Put(d.h, d.lastChain, CellBytes(d.lastName)))
  }

  /** , */
  function Comma(d: Dict, v: nat): Dict
    requires d.hp + 8 <= |d.h|
  {
    d.(h := Put(d.h, d.hp, CellBytes(v)), hp := d.hp + 8)
  }

  /** allot rounds up to whole cells. */
  function Allot(d: Dict, n: nat): Dict { d.(hp := d.hp + (n + 7) / 8 * 8) }

  /** The hidden name of chain heads. */
  const MUCHAIN: seq<Byte> := [0x6d, 0x75, 0x63, 0x68, 0x61, 0x69, 0x6e]

  /** chain  ( anchor-link)  new, the code field, the hidden name, the anchor link, show. */
  function Chain(d: Dict, name: seq<Byte>, current: nat, code: nat, anchor: nat): Dict
    requires Fits(d, name) && NewLink(d, name) + 40 <= |d.h| && current + 8 <= |d.h|
  {
    var d1 := Comma(UnlinkedName(d, name, current), code);
    var d2 := d1.(h := Put(d1.h, d1.hp, MUCHAIN + [0]), hp := d1.hp + 8);
    Show(Comma(d2, anchor))
  }

  /** The head a chain created by Chain gets. */
  function NewHead(d: Dict, name: seq<Byte>): nat { NewLink(d, name) + 24 }

  // ----- what the heap must look like -----

  function First(s: Shape, c: nat): nat
    requires c in s.own && c in s.anchor
  {
    if s.own[c] == [] then s.anchor[c] else s.own[c][0]
  }

  /** Where the link of the i-th name of c leads. */
  function Next(s: Shape, c: nat, i: nat): nat
    requires c in s.own && c in s.anchor && i < |s.own[c]|
  {
    if i + 1 < |s.own[c]| then s.own[c][i + 1] else s.anchor[c]
  }

  /** The entry of n lies inside the allotted heap and holds its name. */
  ghost predicate NodeOk(d: Dict, s: Shape, n: nat)
    requires n in s.lo && n in s.names && d.hp <= |d.h|
  {
    var lo, name := s.lo[n], s.names[n];
    lo % 8 == 0 && n % 8 == 0 && |name| <= 255
    && lo + |name| + 1 <= n && n + 8 <= d.hp
    && d.h[n - 1 - |name|..n - 1] == name
    && d.h[n - 1] == (if n in s.own then 0 else |name|)
  }

  ghost predicate Apart(s: Shape, m: nat, n: nat)
    requires m in s.lo && n in s.lo
  {
    m + 8 <= s.lo[n] || n + 8 <= s.lo[m]
  }

  /** The links of chain c run through its names to its anchor, an older chain. */
  ghost predicate ChainOk(d: Dict, s: Shape, c: nat)
    requires c in s.own && c in s.anchor && c in s.lo && d.hp <= |d.h|
  {
    c + 8 <= d.hp && CellAt(d.h, c) == First(s, c)
    && (s.anchor[c] == 0 || (s.anchor[c] < c && s.anchor[c] in s.own))
    && forall i :: 0 <= i < |s.own[c]| ==> LinkOk(d, s, c, i)
  }

  ghost predicate LinkOk(d: Dict, s: Shape, c: nat, i: nat)
    requires c in s.own && c in s.anchor && i < |s.own[c]| && d.hp <= |d.h|
  {
    var n := s.own[c][i];
    n in s.lo && n !in s.own && 0 < n && n + 8 <= d.hp && CellAt(d.h, n) == Next(s, c, i)
  }

  /** show has nothing to do, or will put the last name in front of what is there, or has
      done so already. */
  ghost predicate PendingOk(d: Dict, s: Shape)
    requires d.hp <= |d.h|
  {
    d.lastChain == 0
    || (d.lastChain in s.own && d.lastChain in s.anchor && d.lastName in s.lo && d.lastName !in s.own && d.lastName > 0
        && d.lastName + 8 <= d.hp
        && ((s.own[d.lastChain] != [] && s.own[d.lastChain][0] == d.lastName)
            || CellAt(d.h, d.lastName) == First(s, d.lastChain)))
  }

  ghost predicate Valid(d: Dict, s: Shape)
  {
    d.hp <= |d.h| < MAX64 && d.hp % 8 == 0
    && s.own.Keys == s.anchor.Keys && s.own.Keys <= s.lo.Keys == s.names.Keys && 0 !in s.lo
    && (forall n :: n in s.lo ==> NodeOk(d, s, n))
    && (forall m, n :: m in s.lo && n in s.lo && m != n ==> Apart(s, m, n))
    && (forall c :: c in s.own ==> ChainOk(d, s, c))
    && PendingOk(d, s)
  }

  // ----- searching -----

  /** The names a search of chain c goes through: its own, newest first, then whatever
      the anchor chain shows now. */
  ghost function Visible(d: Dict, s: Shape, c: nat): seq<nat>
    requires Valid(d, s) && c in s.own
    decreases c
  {
    s.own[c] + (if s.anchor[c] == 0 then [] else assert ChainOk(d, s, c); Visible(d, s, s.anchor[c]))
  }

  /** Upper case letters count as lower case when searches ignore case. */
  function Fold(caseless: bool, b: Byte): Byte { if caseless && 65 <= b <= 90 then b + 32 else b }

  /** strncmp, or strncasecmp, finds two equally long strings equal: a zero byte in both
      ends the comparison. */
  predicate SameString(caseless: bool, a: seq<Byte>, b: seq<Byte>)
    requires |a| == |b|
  {
    a == [] || (Fold(caseless, a[0]) == Fold(caseless, b[0]) && (a[0] == 0 || SameString(caseless, a[1..], b[1..])))
  }

  datatype Found = NotFound | FoundAt(code: nat)

  /** The first name of the list that answers to the token. */
  ghost function Lookup(d: Dict, s: Shape, list: seq<nat>, token: seq<Byte>, caseless: bool): Found
    requires d.hp <= |d.h| && s.lo.Keys == s.names.Keys
    requires forall i :: 0 <= i < |list| ==> list[i] in s.names && |s.names[list[i]]| <= 255
  {
    if list == [] then NotFound
    else if |s.names[list[0]]| == |token| && SameString(caseless, s.names[list[0]], token)
    then FoundAt(list[0] + 8)
    else Lookup(d, s, list[1..], token, caseless)
  }

  /** What find should answer: only tokens of 1 to 255 bytes are looked for. */
  ghost function Search(d: Dict, s: Shape, c: nat, token: seq<Byte>, caseless: bool): Found
    requires Valid(d, s) && c in s.own
  {
    VisibleNodes(d, s, c);
    if 0 < |token| < 256 then Lookup(d, s, Visible(d, s, c), token, caseless) else NotFound
  }

  lemma {:induction false} VisibleNodes(d: Dict, s: Shape, c: nat)
    requires Valid(d, s) && c in s.own
    ensures forall i :: 0 <= i < |Visible(d, s, c)| ==>
              Visible(d, s, c)[i] in s.names && |s.names[Visible(d, s, c)[i]]| <= 255 && Visible(d, s, c)[i] !in s.own
    decreases c
  {
    assert ChainOk(d, s, c);
    forall i | 0 <= i < |s.own[c]|
      ensures s.own[c][i] in s.names && |s.names[s.own[c][i]]| <= 255 && s.own[c][i] !in s.own
    {
      assert LinkOk(d, s, c, i);
      assert NodeOk(d, s, s.own[c][i]);
    }
    if s.anchor[c] != 0 { VisibleNodes(d, s, s.anchor[c]); }
  }
}
