/** Whole runs of dictionary operations, and what a search finds after them. */
module DictionaryRuns {
  import opened Bytes
  import opened Dictionary
  import opened DictionaryProofs

  // ----- runs -----

  datatype Op =
    | Word(name: seq<Byte>, chain: nat)        // (unlinked-name)
    | Reveal                                   // show
    | Compile(v: nat)                          // ,
    | Reserve(n: nat)                          // allot
    | Vocabulary(name: seq<Byte>, current: nat, code: nat, anchor: nat)   // chain

  /** There is room, chains are chains, and show has something to show. */
  ghost predicate Legal(d: Dict, s: Shape, op: Op)
  {
    match op
    case Word(name, chain) => Fits(d, name) && chain in s.own && chain + 8 <= |d.h|
    case Reveal => d.lastChain in s.own && d.lastChain + 8 <= |d.h|
    case Compile(v) => d.hp + 8 <= |d.h|
    case Reserve(n) => Allot(d, n).hp <= |d.h|
    case Vocabulary(name, current, code, anchor) =>
      Fits(d, name) && NewLink(d, name) + 40 <= |d.h| && current in s.own && current + 8 <= |d.h| &&
             (anchor == 0 || anchor in s.own)
  }

  ghost function Do(d: Dict, s: Shape, op: Op): (Dict, Shape)
    requires Legal(d, s, op)
  {
    match op
    case Word(name, chain) => (UnlinkedName(d, name, chain), Named(s, d.hp, NewLink(d, name), Capped(name)))
    case Reveal => (Show(d), Shown(d, s))
    case Compile(v) => (Comma(d, v), s)
    case Reserve(n) => (Allot(d, n), s)
    case Vocabulary(name, current, code, anchor) =>
      (Chain(d, name, current, code, anchor), Chained(d, s, name, current, anchor))
  }

  ghost predicate LegalRun(d: Dict, s: Shape, ops: seq<Op>)
    decreases |ops|
  {
    ops == [] || (Legal(d, s, ops[0]) && var (e, t) := Do(d, s, ops[0]); LegalRun(e, t, ops[1..]))
  }

  ghost function DoAll(d: Dict, s: Shape, ops: seq<Op>): (Dict, Shape)
    requires LegalRun(d, s, ops)
    decreases |ops|
  {
    if ops == [] then (d, s) else var (e, t) := Do(d, s, ops[0]); DoAll(e, t, ops[1..])
  }

  /** Nothing is ever taken out or renamed: names keep their places, chains keep their
      anchors, and what a chain shows only grows at the front. */
  ghost predicate Extends(s: Shape, t: Shape)
  {
    (forall n :: n in s.lo && n in s.names ==>
       n in t.lo && n in t.names && t.lo[n] == s.lo[n] && t.names[n] == s.names[n])
    && (forall c :: c in s.own && c in s.anchor ==> GrowsAtFront(s, t, c))
  }

  ghost predicate GrowsAtFront(s: Shape, t: Shape, c: nat)
    requires c in s.own && c in s.anchor
  {
    c in t.own && c in t.anchor && t.anchor[c] == s.anchor[c]
    && |s.own[c]| <= |t.own[c]| && t.own[c][|t.own[c]| - |s.own[c]|..] == s.own[c]
  }

  lemma StepKeeps(d: Dict, s: Shape, op: Op)
    requires Valid(d, s) && Legal(d, s, op)
    ensures var (e, t) := Do(d, s, op); Valid(e, t) && Extends(s, t)
  {
    hide Valid, Grows, Put, Capped, PrefixBytes, CellAt;
    match op
    case Word(name, chain) => UnlinkedNameKeeps(d, s, name, chain);
    case Reveal =>
      assert d.lastChain != 0 by { Members(d, s, d.lastChain); }
      ShowKeeps(d, s);
    case Compile(v) => CommaKeeps(d, s, v);
    case Reserve(n) => AllotKeeps(d, s, n);
    case Vocabulary(name, current, code, anchor) => VocabularyKeeps(d, s, name, current, code, anchor);
  }

  lemma VocabularyKeeps(d: Dict, s: Shape, name: seq<Byte>, current: nat, code: nat, anchor: nat)
    requires Valid(d, s) && Legal(d, s, Vocabulary(name, current, code, anchor))
    ensures var (e, t) := Do(d, s, Vocabulary(name, current, code, anchor)); Valid(e, t) && Extends(s, t)
  {
    hide Valid, Grows, Put, Capped, PrefixBytes, CellAt, Chain;
    ChainKeeps(d, s, name, current, code, anchor);
    UnlinkedNameKeeps(d, s, name, current);
    Members(d, s, current);
    OwnersNamed(d, s);
  }

  lemma OwnersNamed(d: Dict, s: Shape)
    requires Valid(d, s)
    ensures s.own.Keys <= s.lo.Keys
  {}

  lemma ExtendsTrans(s: Shape, t: Shape, u: Shape)
    requires Extends(s, t) && Extends(t, u)
    ensures Extends(s, u)
  {
    forall c | c in s.own && c in s.anchor ensures GrowsAtFront(s, u, c) {
      assert GrowsAtFront(s, t, c) && GrowsAtFront(t, u, c);
      var x, y, z := s.own[c], t.own[c], u.own[c];
      assert z[|z| - |x|..] == z[|z| - |y|..][|y| - |x|..];
    }
  }

  /** Any run of name creation, show, allotting and new chains keeps the dictionary well
      formed, and what it held before. */
  lemma {:induction false} RunKeeps(d: Dict, s: Shape, ops: seq<Op>)
    requires Valid(d, s) && LegalRun(d, s, ops)
    ensures var (e, t) := DoAll(d, s, ops); Valid(e, t) && Extends(s, t)
    decreases |ops|
  {
    hide Valid, Legal, Do, Extends, GrowsAtFront;
    if ops == [] {
      ExtendsSelf(s);
    } else {
      var (e, t) := Do(d, s, ops[0]);
      StepKeeps(d, s, ops[0]);
      RunKeeps(e, t, ops[1..]);
      ExtendsTrans(s, t, DoAll(e, t, ops[1..]).1);
    }
  }

  lemma ExtendsSelf(s: Shape)
    ensures Extends(s, s)
  {}

  // ----- what is where -----

  /** link>name: stepping back over the length byte and as many bytes as it says gives the
      name as it was stored. A chain head has a length of zero: no name at all. */
  lemma LinkToName(d: Dict, s: Shape, n: nat)
    requires Valid(d, s) && n in s.names
    ensures 0 < n <= |d.h|
    ensures n !in s.own ==> d.h[n - 1] < n && d.h[n - 1 - d.h[n - 1]..n - 1] == s.names[n]
    ensures n in s.own ==> d.h[n - 1] == 0
  {
    assert NodeOk(d, s, n);
  }

  /** Any two entries, from their first name byte to the end of their link, are cell
      aligned, inside the allotted heap, and disjoint. */
  lemma EntriesDisjoint(d: Dict, s: Shape, m: nat, n: nat)
    requires Valid(d, s) && m in s.lo && n in s.lo && m != n
    ensures s.lo[m] % 8 == 0 && m % 8 == 0 && s.lo[m] < m && m + 8 <= d.hp
    ensures m + 8 <= s.lo[n] || n + 8 <= s.lo[m]
  {
    assert NodeOk(d, s, m);
    assert Apart(s, m, n);
  }

  // ----- what a search finds -----

  ghost predicate Matches(s: Shape, n: nat, token: seq<Byte>, caseless: bool)
    requires n in s.names
  {
    |s.names[n]| == |token| && SameString(caseless, s.names[n], token)
  }

  lemma {:induction false} LookupFirst(d: Dict, s: Shape, list: seq<nat>, token: seq<Byte>, caseless: bool, k: nat)
    requires d.hp <= |d.h| && s.lo.Keys == s.names.Keys
    requires forall i :: 0 <= i < |list| ==> list[i] in s.names && |s.names[list[i]]| <= 255
    requires k <= |list|
    requires forall i :: 0 <= i < k ==> !Matches(s, list[i], token, caseless)
    requires k < |list| ==> Matches(s, list[k], token, caseless)
    ensures Lookup(d, s, list, token, caseless) == if k < |list| then FoundAt(list[k] + 8) else NotFound
    decreases k
  {
    if k > 0 {
      assert forall i :: 0 <= i < k - 1 ==> list[1..][i] == list[i + 1];
      LookupFirst(d, s, list[1..], token, caseless, k - 1);
    }
  }

  /** The newest match wins: find answers with the first visible name that matches, and
      with nothing exactly when no visible name does. */
  lemma NewestMatchFound(d: Dict, s: Shape, c: nat, token: seq<Byte>, caseless: bool, k: nat)
    requires Valid(d, s) && c in s.own && 0 < |token| < 256
    requires forall i :: 0 <= i < |Visible(d, s, c)| ==> Visible(d, s, c)[i] in s.names
    requires k <= |Visible(d, s, c)|
    requires forall i :: 0 <= i < k ==> !Matches(s, Visible(d, s, c)[i], token, caseless)
    requires k < |Visible(d, s, c)| ==> Matches(s, Visible(d, s, c)[k], token, caseless)
    ensures Search(d, s, c, token, caseless) ==
            if k < |Visible(d, s, c)| then FoundAt(Visible(d, s, c)[k] + 8) else NotFound
  {
    VisibleNodes(d, s, c);
    LookupFirst(d, s, Visible(d, s, c), token, caseless, k);
  }

  /** Whatever is found is a visible name; so hidden chain heads, and names made but not
      shown yet, are never found. */
  lemma OnlyVisibleFound(d: Dict, s: Shape, c: nat, token: seq<Byte>, caseless: bool)
    requires Valid(d, s) && c in s.own && Search(d, s, c, token, caseless).FoundAt?
    ensures exists n :: n in Visible(d, s, c) && n in s.names && Matches(s, n, token, caseless)
                        && n !in s.own && Search(d, s, c, token, caseless) == FoundAt(n + 8)
  {
    VisibleNodes(d, s, c);
    FoundInList(d, s, Visible(d, s, c), token, caseless);
  }

  lemma {:induction false} FoundInList(d: Dict, s: Shape, list: seq<nat>, token: seq<Byte>, caseless: bool)
    requires d.hp <= |d.h| && s.lo.Keys == s.names.Keys
    requires forall i :: 0 <= i < |list| ==> list[i] in s.names && |s.names[list[i]]| <= 255
    requires Lookup(d, s, list, token, caseless).FoundAt?
    ensures exists n :: n in list && n in s.names && Matches(s, n, token, caseless)
                        && Lookup(d, s, list, token, caseless) == FoundAt(n + 8)
  {
    if |s.names[list[0]]| == |token| && SameString(caseless, s.names[list[0]], token) {
      assert list[0] in list && Matches(s, list[0], token, caseless);
    } else {
      FoundInList(d, s, list[1..], token, caseless);
      var n :| n in list[1..] && n in s.names && Matches(s, n, token, caseless)
               && Lookup(d, s, list[1..], token, caseless) == FoundAt(n + 8);
      assert n in list;
    }
  }

  /** Without zero bytes, and minding case, equal means equal. */
  lemma {:induction false} SameStringIsEquality(a: seq<Byte>, b: seq<Byte>)
    requires |a| == |b| && 0 !in a
    ensures SameString(false, a, b) <==> a == b
  {
    if a != [] {
      SameStringIsEquality(a[1..], b[1..]);
      assert a == [a[0]] + a[1..] && b == [b[0]] + b[1..];
    }
  }

  /** The same byte, or the same letter of the alphabet in the other case. */
  predicate SameLetter(x: Byte, y: Byte)
  {
    x == y || (65 <= x <= 90 && y == x + 32) || (65 <= y <= 90 && x == y + 32)
  }

  /** Without zero bytes, and ignoring case, equal means equal letter by letter. */
  lemma {:induction false} CaselessEquality(a: seq<Byte>, b: seq<Byte>)
    requires |a| == |b| && 0 !in a
    ensures SameString(true, a, b) <==> forall i :: 0 <= i < |a| ==> SameLetter(a[i], b[i])
  {
    if a != [] {
      CaselessEquality(a[1..], b[1..]);
      assert Fold(true, a[0]) == Fold(true, b[0]) <==> SameLetter(a[0], b[0]);
      assert forall i :: 0 <= i < |a| - 1 ==> a[1..][i] == a[i + 1] && b[1..][i] == b[i + 1];
      if forall i :: 0 <= i < |a| - 1 ==> SameLetter(a[1..][i], b[1..][i]) {
        forall i | 1 <= i < |a| ensures SameLetter(a[i], b[i]) { assert SameLetter(a[1..][i - 1], b[1..][i - 1]); }
      }
    }
  }

  /** A name just made comes back from its link, the first 255 bytes of it. */
  lemma NameComesBack(d: Dict, s: Shape, name: seq<Byte>, chain: nat)
    requires Valid(d, s) && Legal(d, s, Word(name, chain))
    ensures var e, k := UnlinkedName(d, name, chain), if |name| < 256 then |name| else 255;
            var n := e.lastName;
            k < n <= |e.h| && e.h[n - 1] == k && e.h[n - 1 - k..n - 1] == name[..k]
            && CellAt(d.h, chain) == First(s, chain) && n + 8 <= |e.h| && CellAt(e.h, n) == First(s, chain)
  {
    hide Valid, CellAt, PrefixBytes, NewName, Grows;
    assert d.hp % 8 == 0 by { ValidBounds(d, s); }
    LinkBounded(d, s, chain);
    NewNameStored(d, CellAt(d.h, chain), name, false);
    assert name[..|name|] == name;
  }

  // ----- dynamic anchoring -----

  /** Chain x is c or is anchored, directly or through others, to c. */
  ghost predicate Reaches(d: Dict, s: Shape, x: nat, c: nat)
    requires Valid(d, s) && x in s.own
    decreases x
  {
    x == c || (s.anchor[x] != 0 && assert ChainOk(d, s, x); Reaches(d, s, s.anchor[x], c))
  }

  /** What a search of x goes through before it gets to c. */
  ghost function Before(d: Dict, s: Shape, x: nat, c: nat): seq<nat>
    requires Valid(d, s) && x in s.own && Reaches(d, s, x, c)
    decreases x
  {
    if x == c then [] else assert ChainOk(d, s, x); s.own[x] + Before(d, s, s.anchor[x], c)
  }

  lemma {:induction false} VisibleSplits(d: Dict, s: Shape, x: nat, c: nat)
    requires Valid(d, s) && x in s.own && c in s.own && Reaches(d, s, x, c)
    ensures Visible(d, s, x) == Before(d, s, x, c) + Visible(d, s, c)
    decreases x
  {
    hide Valid, CellAt;
    Anchored(d, s, x);
    if x != c {
      VisibleSplits(d, s, s.anchor[x], c);
    }
  }

  /** A name shown on c is seen at once by every search that gets to c, after the names
      that come before c and ahead of all c's others; every other search sees what it saw. */
  lemma {:induction false} ShowIsSeen(d: Dict, s: Shape, x: nat)
    requires Valid(d, s) && Legal(d, s, Reveal) && x in s.own
    requires s.own[d.lastChain] == [] || s.own[d.lastChain][0] != d.lastName
    ensures Valid(Show(d), Shown(d, s))
    ensures if Reaches(d, s, x, d.lastChain)
            then Visible(Show(d), Shown(d, s), x) ==
                 Before(d, s, x, d.lastChain) + [d.lastName] + Visible(d, s, d.lastChain)
            else Visible(Show(d), Shown(d, s), x) == Visible(d, s, x)
    decreases x
  {
    hide Valid, Show, CellAt, Visible, Before, Reaches;
    StepKeeps(d, s, Reveal);
    var c, e, t := d.lastChain, Show(d), Shown(d, s);
    assert c in s.own && t.anchor == s.anchor;
    assert x != c ==> t.own[x] == s.own[x];
    hide Legal, Shown;
    Unfolded(d, s, x, c);
    Unfolded(e, t, x, c);
    if x == c {
      SeenInOther(d, s, x);
    } else if s.anchor[x] != 0 {
      ShowIsSeen(d, s, s.anchor[x]);
    }
  }

  /** One step of a search. */
  lemma Unfolded(d: Dict, s: Shape, x: nat, c: nat)
    requires Valid(d, s) && x in s.own
    ensures x in s.anchor && (s.anchor[x] == 0 || (s.anchor[x] < x && s.anchor[x] in s.own))
    ensures Visible(d, s, x) == s.own[x] + (if s.anchor[x] == 0 then [] else Visible(d, s, s.anchor[x]))
    ensures Reaches(d, s, x, c) <==> x == c || (s.anchor[x] != 0 && Reaches(d, s, s.anchor[x], c))
    ensures Reaches(d, s, x, c) ==>
              Before(d, s, x, c) == if x == c then [] else s.own[x] + Before(d, s, s.anchor[x], c)
  {
    hide Valid, CellAt;
    Anchored(d, s, x);
  }

  lemma Anchored(d: Dict, s: Shape, x: nat)
    requires Valid(d, s) && x in s.own
    ensures x in s.anchor && (s.anchor[x] == 0 || (s.anchor[x] < x && s.anchor[x] in s.own))
  {
    assert ChainOk(d, s, x);
  }

  /** The chain shown on is not among those it is anchored to. */
  lemma {:induction false} SeenInOther(d: Dict, s: Shape, x: nat)
    requires Valid(d, s) && Legal(d, s, Reveal) && x == d.lastChain
    requires Valid(Show(d), Shown(d, s))
    requires s.own[x] == [] || s.own[x][0] != d.lastName
    ensures Visible(Show(d), Shown(d, s), x) == [d.lastName] + Visible(d, s, x)
  {
    hide Valid, Show, CellAt;
    Anchored(d, s, x);
    if s.anchor[x] != 0 { OlderUnchanged(d, s, s.anchor[x]); }
  }

  lemma {:induction false} OlderUnchanged(d: Dict, s: Shape, y: nat)
    requires Valid(d, s) && Legal(d, s, Reveal) && y in s.own && y < d.lastChain
    requires Valid(Show(d), Shown(d, s))
    ensures Visible(Show(d), Shown(d, s), y) == Visible(d, s, y)
    decreases y
  {
    hide Valid, Show, CellAt;
    Anchored(d, s, y);
    if s.anchor[y] != 0 { OlderUnchanged(d, s, s.anchor[y]); }
  }
}
