/** The dictionary as dict.c keeps it: one array of bytes and a few static variables,
    overwritten in place. */
module DictionaryHeap {
  import opened Bytes
  import opened Dictionary
  import opened DictionaryProofs

  class Heap {
    var bytes: array<Byte>
    var hp: nat
    var lastName: nat
    var lastChain: nat
    var caseless: bool            // which of strncmp and strncasecmp match points to
    ghost var shape: Shape

    /** allocate: nothing in the heap yet. */
    constructor (bytes: array<Byte>)
      requires bytes.Length < MAX64
      ensures this.bytes == bytes && Ok() && shape == Shape(map[], map[], map[], map[])
      ensures hp == 0 && lastChain == 0 && !caseless
    {
      this.bytes, hp, lastName, lastChain, caseless := bytes, 0, 0, 0, false;
      shape := Shape(map[], map[], map[], map[]);
    }

    ghost function Abs(): Dict
      reads this, bytes
    {
      Dict(bytes[..], hp, lastName, lastChain)
    }

    ghost predicate Ok()
      reads this, bytes
    {
      Valid(Abs(), shape)
    }

    /** Store a run of bytes. */
    method Store(a: nat, b: seq<Byte>)
      requires a + |b| <= bytes.Length
      modifies bytes
      ensures bytes[..] == Put(old(bytes[..]), a, b)
    {
      forall i | 0 <= i < |b| {
        bytes[a + i] := b[i];
      }
    }

    method Fetch(a: nat) returns (v: nat)
      requires a + 8 <= bytes.Length
      ensures v == CellAt(bytes[..], a)
    {
      v := FromBytes(bytes[a..a + 8]);
      assert bytes[a..a + 8] == bytes[..][a..a + 8];
    }

    /** new_name: clear the entry, copy the name to just before the length byte, set the
        length and the link, and allot all but the code field. */
    method NewName(link: nat, name: seq<Byte>, hidden: bool) returns (n: nat)
      requires Fits(Abs(), name)
      modifies bytes, this`hp
      ensures Abs() == Dictionary.NewName(old(Abs()), link, name, hidden) && n == NewLink(old(Abs()), name)
    {
      hide Put, CellBytes;
      var length := if |name| <= 255 then |name| else 255;
      var prefix := PrefixBytes(length);
      ghost var start := bytes[..];
      Store(hp, Zeros(prefix + 24));
      Store(hp + prefix + 7 - length, name[..length]);
      Store(hp + prefix + 7, [if hidden then 0 else length]);
      Store(hp + prefix + 8, CellBytes(link));
      assert name[..length] == Capped(name);
      FourStores(start, hp, link, Capped(name), hidden);
      n := hp + prefix + 8;
      hp := n + 8;
    }

    /** (unlinked-name)  ( a u chain) */
    method UnlinkedName(name: seq<Byte>, chain: nat)
      requires Ok() && Fits(Abs(), name) && chain in shape.own
      modifies this, bytes
      ensures Ok() && bytes == old(bytes) && caseless == old(caseless)
      ensures chain + 8 <= |old(Abs()).h| && Abs() == Dictionary.UnlinkedName(old(Abs()), name, chain)
      ensures shape == Named(old(shape), old(hp), NewLink(old(Abs()), name), Capped(name))
    {
      hide Valid, CellAt, Capped, PrefixBytes, Dictionary.NewName;
      UnlinkedNameKeeps(Abs(), shape, name, chain);
      shape := Named(shape, hp, NewLink(Abs(), name), Capped(name));
      var link := Fetch(chain);
      lastName := NewName(link, name, false);
      lastChain := chain;
    }

    /** show */
    method Show()
      requires Ok() && lastChain != 0
      modifies this, bytes
      ensures Ok() && bytes == old(bytes) && caseless == old(caseless)
      ensures lastChain + 8 <= |old(Abs()).h| && Abs() == Dictionary.Show(old(Abs()))
      ensures old(lastChain) in old(shape).own && shape == Shown(old(Abs()), old(shape))
    {
      hide Valid, Put, CellBytes;
      ShowKeeps(Abs(), shape);
      assert lastChain in shape.own by { PendingChain(Abs(), shape); }
      ghost var t := Shown(Abs(), shape);
      Store(lastChain, CellBytes(lastName));
      shape := t;
    }

    /** , */
    method Comma(v: nat)
      requires Ok() && hp + 8 <= bytes.Length
      modifies this`hp, bytes
      ensures Ok() && Abs() == Dictionary.Comma(old(Abs()), v)
    {
      hide Valid, Put, CellBytes;
      CommaKeeps(Abs(), shape, v);
      Store(hp, CellBytes(v));
      hp := hp + 8;
    }

    /** chain  ( anchor-link)  a public name, a code field, the hidden name, and the head's
        link to its anchor; then show. */
    method Chain(name: seq<Byte>, current: nat, code: nat, anchor: nat)
      requires Ok() && Fits(Abs(), name) && NewLink(Abs(), name) + 40 <= bytes.Length
      requires current in shape.own && (anchor == 0 || anchor in shape.own)
      modifies this, bytes
      ensures Ok() && bytes == old(bytes) && caseless == old(caseless)
      ensures current + 8 <= |old(Abs()).h| && Abs() == Dictionary.Chain(old(Abs()), name, current, code, anchor)
      ensures current in old(shape).own && shape == Chained(old(Abs()), old(shape), name, current, anchor)
    {
      hide Valid, CellAt, Put, CellBytes, Capped, PrefixBytes, Grows, Dictionary.Show, Dictionary.UnlinkedName;
      ghost var d, s := Abs(), shape;
      ChainKeeps(d, s, name, current, code, anchor);
      UnlinkedNameKeeps(d, s, name, current);
      Members(d, s, current);
      AnchorBounded(d, s, anchor);
      UnlinkedName(name, current);
      UnlinkedRoom(d, name, current);
      Comma(code);
      ghost var d1, s1 := Abs(), shape;
      NotYet(d, s, current, NewLink(d, name));
      HeadLaid(d1, s1, anchor);
      Store(hp, MUCHAIN + [0]);
      hp := hp + 8;
      Store(hp, CellBytes(anchor));
      hp := hp + 8;
      HeadKeeps(d1, Abs(), s1, anchor);
      shape := Headed(s1, NewHead(d, name), anchor);
      Show();
    }

    /** find: follow links from the chain's head, through its names, into the chain it is
        anchored to, until a name matches or the links end. */
    method Find(token: seq<Byte>, chain: nat) returns (r: Found)
      requires Ok() && chain in shape.own
      ensures r == Search(Abs(), shape, chain, token, caseless)
    {
      hide Valid, CellAt, Visible, SameString;
      ghost var d, s := Abs(), shape;
      VisibleNodes(d, s, chain);
      ValidBounds(d, s);
      KeysAgree(d, s);
      if 0 < |token| < 256 {
        ghost var c, i := chain, 0;   // plink is the i-th step along chain c
        ghost var left := Visible(d, s, chain);
        StartOfChain(d, s, chain);
        var plink := Fetch(chain);
        while plink != 0
          invariant c in s.own && c in s.anchor && i <= |s.own[c]| && plink == LinkFrom(s, c, i)
          invariant left == s.own[c][i..] + Beyond(d, s, c)
          invariant forall k :: 0 <= k < |left| ==> left[k] in s.names && |s.names[left[k]]| <= 255
          invariant Lookup(d, s, left, token, caseless) == Search(d, s, chain, token, caseless)
          decreases c, |s.own[c]| - i
        {
          StepLeadsToName(d, s, c, i);
          var matched := false;
          if bytes[plink - 1] == |token| {
            ghost var length := |token|;
            assert bytes[plink - 1 - length..plink - 1] == bytes[..][plink - 1 - length..plink - 1];
            matched := SameString(caseless, bytes[plink - 1 - |token|..plink - 1], token);
          }
          if i < |s.own[c]| {
            assert left[0] == plink && left[1..] == s.own[c][i + 1..] + Beyond(d, s, c);
          }
          if matched {
            return FoundAt(plink + 8);
          }
          if i < |s.own[c]| {
            left, i := left[1..], i + 1;
          } else {
            c, i := plink, 0;
            StartOfChain(d, s, c);
          }
          plink := Fetch(plink);
        }
        LastStep(d, s, c, i);
      }
      r := NotFound;
    }

    // ----- starting up -----

    /** new_linked_name: a name at the front of a chain. */
    method NewLinkedName(chain: nat, name: seq<Byte>)
      requires Ok() && lastChain == 0 && Fits(Abs(), name) && chain in shape.own
      modifies this`hp, this`shape, bytes
      ensures Ok() && hp == NewLink(old(Abs()), name) + 8
      ensures shape == FrontOf(old(shape), old(hp), NewLink(old(Abs()), name), Capped(name), chain)
    {
      hide Valid, CellAt, Capped, PrefixBytes, Dictionary.NewName, Put, CellBytes;
      ghost var d, s := Abs(), shape;
      LinkedNameKeeps(d, s, name, chain);
      ValidBounds(d, s);
      var link := Fetch(chain);
      NewNameStored(d, link, name, false);
      var n := NewName(link, name, false);
      Store(chain, CellBytes(n));
      shape := FrontOf(s, d.hp, n, Capped(name), chain);
    }

    /** new_chain: a public name, then the hidden head of an empty chain. */
    method NewChain(bootstrap: nat, name: seq<Byte>, code: nat) returns (n: nat, head: nat)
      requires Ok() && lastChain == 0 && bootstrap < MAX64
      requires NewLink(Abs(), name) + 40 <= bytes.Length
      modifies this`hp, this`shape, bytes
      ensures Ok() && Grows(old(Abs()), Abs()) && hp == n + 32
      ensures n == NewLink(old(Abs()), name) && head == n + 24 && n + 8 <= bytes.Length &&
             CellAt(Abs().h, n) == bootstrap
      ensures n !in old(shape).lo && head !in old(shape).lo && n > 0
      ensures shape.own == old(shape).own[head := []] && shape.anchor == old(shape).anchor[head := 0]
      ensures shape.names == old(shape).names[n := Capped(name)][head := MUCHAIN]
      ensures shape.lo.Keys == old(shape).lo.Keys + {n, head}
    {
      hide Valid, CellAt, Capped, PrefixBytes, Dictionary.NewName, Put, CellBytes, Grows;
      ghost var d, s := Abs(), shape;
      ValidBounds(d, s);
      NewNameKeeps(d, s, bootstrap, name);
      NewNameStored(d, bootstrap, name, false);
      n := NewName(bootstrap, name, false);
      shape := Named(s, d.hp, n, Capped(name));
      ghost var d1 := Abs();
      CommaGrows(d1, code);
      Comma(code);
      ghost var d2 := Abs();
      HeadStored(d2, shape);
      head := NewName(0, MUCHAIN, true);
      HeadKeeps(d2, Abs(), shape, 0);
      GrowsTrans(d1, d2, Abs());
      CellGrows(d1, Abs(), n);
      GrowsTrans(d, d1, d2);
      GrowsTrans(d, d2, Abs());
      HeadIsNew(d2, s, d.hp, n, Capped(name));
      shape := Headed(shape, head, 0);
    }

    /** init_chain: anchor an empty chain, then put the built-in words on it. */
    method InitChain(chain: nat, anchorLink: nat, words: seq<seq<Byte>>, ghost list: seq<nat>, ghost anchor: nat)
      requires Ok() && lastChain == 0 && Adoptable(Abs(), shape, chain, list, anchor)
      requires anchorLink == if list == [] then anchor else list[0]
      requires hp + Size(words) <= bytes.Length
      modifies this`hp, this`shape, bytes
      ensures Ok() && hp == old(hp) + Size(words)
      ensures forall c :: c in old(shape).own && c != chain ==> c in shape.own && shape.own[c] == old(shape).own[c]
      ensures shape.anchor == old(shape).anchor[chain := anchor]
      ensures shape.own.Keys == old(shape).own.Keys
      ensures OnChain(shape, chain, words, list)
      ensures NamesKept(old(shape), shape)
    {
      hide Valid, CellAt, Capped, PrefixBytes, Dictionary.NewName, Put, CellBytes, Adoptable;
      AdoptKeeps(Abs(), shape, chain, list, anchor);
      ghost var s := shape;
      assert chain in s.own by { AdoptableChain(Abs(), s, chain, list, anchor); }
      Store(chain, CellBytes(anchorLink));
      shape := Adopted(s, chain, list, anchor);
      var i := 0;
      while i < |words|
        invariant i <= |words| && Ok() && hp == old(hp) + Size(words[..i])
        invariant chain in shape.own
        invariant forall c :: c in s.own && c != chain ==> c in shape.own && shape.own[c] == s.own[c]
        invariant shape.anchor == s.anchor[chain := anchor] && shape.own.Keys == s.own.Keys
        invariant OnChain(shape, chain, words[..i], list)
        invariant NamesKept(s, shape)
      {
        SizeSplits(words, i);
        ghost var d, t := Abs(), shape;
        ValidBounds(d, t);
        KeysAgree(d, t);
        EntrySize(d, words[i]);
        LinkedNameKeeps(d, t, words[i], chain);
        NewLinkedName(chain, words[i]);
        OneMore(t, d.hp, NewLink(d, words[i]), chain, words, i, list);
        Comma(0);
        i := i + 1;
      }
      assert words[..i] == words;
    }

    /** The first half of init_dict: four empty chains, whose names are linked one to the
        next, down to .lex., which leads to its own head. */
    method BootChains() returns (n3: nat, lex: nat, forth: nat, compiler: nat, runtime: nat, ghost list: seq<nat>)
      requires Ok() && shape == Shape(map[], map[], map[], map[]) && hp == 0 && lastChain == 0
      requires 184 <= bytes.Length
      modifies this`hp, this`shape, bytes
      ensures Ok() && hp == 176 && 0 < lex < forth < compiler < runtime
      ensures shape.own == map[lex := [], forth := [], compiler := [], runtime := []]
      ensures shape.anchor == map[lex := 0, forth := 0, compiler := 0, runtime := 0]
      ensures |list| == 4 && n3 == list[0] && Adoptable(Abs(), shape, forth, list, lex)
      ensures forall i :: 0 <= i < 4 ==> WordAt(shape, list, BOOT, i)
    {
      hide Valid, CellAt, Put, CellBytes, Adoptable, Grows, Capped, PrefixBytes, NewLink, WordAt, LEX, FORTH, COMPILER,
           RUNTIME, BOOT, MUCHAIN;
      var n0: nat, n1: nat, n2: nat;
      BootSizes(Abs());
      n0, lex := NewChain(0, LEX, 0);
      RelinkKeeps(Abs(), shape, n0, lex);
      CellPut(bytes[..], n0, lex);
      Store(n0, CellBytes(lex));
      ghost var d0 := Abs();
      BootSizes(d0);
      n1, forth := NewChain(n0, FORTH, 0);
      ghost var d1 := Abs();
      BootSizes(d1);
      n2, compiler := NewChain(n1, COMPILER, 0);
      ghost var d2 := Abs();
      BootSizes(d2);
      n3, runtime := NewChain(n2, RUNTIME, 0);
      ghost var d3 := Abs();
      list := [n3, n2, n1, n0];
      GrowsTrans(d1, d2, d3);
      GrowsTrans(d0, d1, d3);
      CellGrows(d2, d3, n2);
      CellGrows(d1, d3, n1);
      CellGrows(d0, d3, n0);
      BootAdoptable(d3, shape, forth, n3, n2, n1, n0, lex);
      BootNames(shape, n3, n2, n1, n0);
    }

    /** init_dict: .lex. .forth. .compiler. and .runtime. are named on .forth. itself, which
        is anchored to .lex.; so is .compiler.; .runtime. is anchored to .forth. */
    method InitDict(forthWords: seq<seq<Byte>>, compilerWords: seq<seq<Byte>>, runtimeWords: seq<seq<Byte>>)
        returns (lex: nat, forth: nat, compiler: nat, runtime: nat)
      requires Ok() && shape == Shape(map[], map[], map[], map[]) && hp == 0 && lastChain == 0
      requires 184 + Size(forthWords) + Size(compilerWords) + Size(runtimeWords) <= bytes.Length
      modifies this`hp, this`shape, bytes
      ensures Ok() && hp == 176 + Size(forthWords) + Size(compilerWords) + Size(runtimeWords)
      ensures shape.own.Keys == {lex, forth, compiler, runtime}
      ensures shape.anchor == map[lex := 0, forth := lex, compiler := lex, runtime := forth]
      ensures shape.own[lex] == []
      ensures OnChain(shape, forth, BOOT + forthWords, [])
      ensures OnChain(shape, compiler, compilerWords, [])
      ensures OnChain(shape, runtime, runtimeWords, [])
    {
      hide Valid, CellAt, Adoptable, OnChain, Size, WordAt, NamesKept, BOOT;
      assert |BOOT| == 4 by { BootLength(); }
      var n3: nat;
      ghost var list: seq<nat>;
      n3, lex, forth, compiler, runtime, list := BootChains();
      ghost var s0 := shape;
      InitChain(forth, n3, forthWords, list, lex);
      OnChainJoins(s0, shape, forth, BOOT, forthWords, list);
      ghost var s1 := shape;
      InitOthers(lex, forth, compiler, runtime, compilerWords, runtimeWords);
      OnChainKept(s1, shape, forth, BOOT + forthWords, []);
    }

    /** The last two chains, one anchored to .lex. and one to .forth. */
    method InitOthers(lex: nat, forth: nat, compiler: nat, runtime: nat,
                      compilerWords: seq<seq<Byte>>, runtimeWords: seq<seq<Byte>>)
      requires Ok() && lastChain == 0 && lex < forth < compiler < runtime
      requires lex in shape.own && forth in shape.own && compiler in shape.own && runtime in shape.own
      requires shape.own[compiler] == [] && shape.own[runtime] == []
      requires hp + Size(compilerWords) + Size(runtimeWords) <= bytes.Length
      modifies this`hp, this`shape, bytes
      ensures Ok() && hp == old(hp) + Size(compilerWords) + Size(runtimeWords)
      ensures shape.own.Keys == old(shape).own.Keys
      ensures forall c :: c in old(shape).own && c != compiler && c != runtime ==>
                c in shape.own && shape.own[c] == old(shape).own[c]
      ensures shape.anchor == old(shape).anchor[compiler := lex][runtime := forth]
      ensures OnChain(shape, compiler, compilerWords, []) && OnChain(shape, runtime, runtimeWords, [])
      ensures NamesKept(old(shape), shape)
    {
      hide Valid, CellAt, Adoptable, OnChain, Size;
      EmptyAdoptable(Abs(), shape, compiler, lex);
      InitChain(compiler, lex, compilerWords, [], lex);
      ghost var s2 := shape;
      EmptyAdoptable(Abs(), shape, runtime, forth);
      InitChain(runtime, forth, runtimeWords, [], forth);
      OnChainKept(s2, shape, compiler, compilerWords, []);
    }
  }
}
