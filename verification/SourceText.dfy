/** Tokens and lines of source text, as src/interpret.c scans them, and how untoken in
    startup.mu4 takes a token back. */
module SourceText {
  import opened Bytes

  /** isspace in the C locale. */
  predicate IsSpace(c: Byte) { c == 32 || 9 <= c <= 13 }

  const LF: Byte := 10

  /** The newlines in t. */
  function Newlines(t: seq<Byte>): nat
  {
    if t == [] then 0 else Newlines(t[..|t| - 1]) + if t[|t| - 1] == LF then 1 else 0
  }

  lemma NewlinesNext(t: seq<Byte>, a: nat, k: nat)
    requires a <= k < |t|
    ensures Newlines(t[a..k + 1]) == Newlines(t[a..k]) + if t[k] == LF then 1 else 0
  {
    assert t[a..k + 1][..k - a] == t[a..k];
  }

  predicate AllSpace(t: seq<Byte>) { forall i :: 0 <= i < |t| ==> IsSpace(t[i]) }

  predicate NoSpace(t: seq<Byte>) { forall i :: 0 <= i < |t| ==> !IsSpace(t[i]) }

  /** The delimiter ends the scan; a blank stands for any white space. */
  predicate Ends(delim: Byte, c: Byte) { delim == c || (delim == 32 && IsSpace(c)) }

  lemma {:induction false} NewlinesJoin(x: seq<Byte>, y: seq<Byte>)
    ensures Newlines(x + y) == Newlines(x) + Newlines(y)
    decreases |y|
  {
    if y == [] { assert x + y == x; } else {
      NewlinesJoin(x, y[..|y| - 1]);
      assert (x + y)[..|x + y| - 1] == x + y[..|y| - 1];
    }
  }

  /** What a token call takes from the front of a text: white space, the token, and at most
      one delimiter. */
  datatype Cut = Cut(skipped: seq<Byte>, token: seq<Byte>, trailing: seq<Byte>)

  /** The pieces lie one behind the other at the front of t; the token is as long as it can
      be, and nothing but the end of the text keeps a delimiter from following it. */
  predicate Cuts(c: Cut, t: seq<Byte>)
  {
    var used := |c.skipped| + |c.token| + |c.trailing|;
    used <= |t| && t[..used] == c.skipped + c.token + c.trailing
    && AllSpace(c.skipped) && NoSpace(c.token) && AllSpace(c.trailing) && |c.trailing| <= 1
    && (c.trailing == [] ==> used == |t|)
    && (c.token == [] ==> c.trailing == [])
  }

  /** Byte by byte: blanks, tabs, newlines, vertical tabs, form feeds and returns are what
      tokens are cut at, and nothing else is. */
  lemma CutAtWhite(c: Cut, t: seq<Byte>)
    ensures Cuts(c, t) <==>
            c.skipped + c.token + c.trailing <= t
            && (forall i :: 0 <= i < |c.skipped| ==> c.skipped[i] in {9, 10, 11, 12, 13, 32})
            && (forall i :: 0 <= i < |c.token| ==> c.token[i] !in {9, 10, 11, 12, 13, 32})
            && (|c.trailing| == 0 || (|c.trailing| == 1 && c.token != [] && c.trailing[0] in {9, 10, 11, 12, 13, 32}))
            && (|c.trailing| == 0 ==> t == c.skipped + c.token)
  {
    var s := c.skipped + c.token + c.trailing;
    if |s| <= |t| {
      assert s <= t <==> t[..|s|] == s;
      assert |c.trailing| == 0 ==> s == c.skipped + c.token;
      assert |s| == |t| ==> t[..|s|] == t;
    }
    WhiteIs();
  }

  lemma WhiteIs()
    ensures forall b: Byte :: IsSpace(b) <==> b in {9, 10, 11, 12, 13, 32}
  {}

  /** Lines are counted by the bytes with the value 10. */
  lemma NewlinesAre(t: seq<Byte>, b: Byte)
    ensures Newlines([]) == 0 && Newlines(t + [b]) == Newlines(t) + if b == 10 then 1 else 0
  {
    assert (t + [b])[..|t|] == t;
  }

  /** Only one cut meets that description. */
  lemma CutUnique(c: Cut, d: Cut, t: seq<Byte>)
    requires Cuts(c, t) && Cuts(d, t)
    ensures c == d
  {
    SkipSame(c, d, t);
    SkipSame(d, c, t);
    var n := |c.skipped|;
    assert c.skipped == t[..n] && d.skipped == t[..n] by { Pieces(c, t); Pieces(d, t); }
    TokenSame(c, d, t);
    TokenSame(d, c, t);
    Pieces(c, t);
    Pieces(d, t);
  }

  lemma Pieces(c: Cut, t: seq<Byte>)
    requires Cuts(c, t)
    ensures var n, m, k := |c.skipped|, |c.skipped| + |c.token|, |c.skipped| + |c.token| + |c.trailing|;
            c.skipped == t[..n] && c.token == t[n..m] && c.trailing == t[m..k]
  {
    var n, m, k := |c.skipped|, |c.skipped| + |c.token|, |c.skipped| + |c.token| + |c.trailing|;
    var s := c.skipped + c.token + c.trailing;
    assert t[..n] == t[..k][..n] && t[n..m] == t[..k][n..m] && t[m..k] == t[..k][m..];
  }

  lemma SpaceAt(c: Cut, t: seq<Byte>, i: nat)
    requires Cuts(c, t) && i < |c.skipped|
    ensures i < |t| && IsSpace(t[i])
  {
    Pieces(c, t);
    assert t[i] == c.skipped[i];
  }

  lemma TokenAt(c: Cut, t: seq<Byte>, i: nat)
    requires Cuts(c, t) && |c.skipped| <= i < |c.skipped| + |c.token|
    ensures i < |t| && !IsSpace(t[i])
  {
    Pieces(c, t);
    assert t[i] == c.token[i - |c.skipped|];
  }

  lemma AfterToken(c: Cut, t: seq<Byte>)
    requires Cuts(c, t)
    ensures var m := |c.skipped| + |c.token|;
            if c.trailing == [] then m == |t| else m < |t| && IsSpace(t[m]) && c.token != [] && |c.trailing| == 1
  {
    Pieces(c, t);
    var m := |c.skipped| + |c.token|;
    if c.trailing != [] { assert t[m] == c.trailing[0]; }
  }

  lemma SkipSame(c: Cut, d: Cut, t: seq<Byte>)
    requires Cuts(c, t) && Cuts(d, t)
    ensures |c.skipped| <= |d.skipped|
  {
    hide Cuts;
    AfterToken(d, t);
    var n := |d.skipped|;
    if n < |c.skipped| {
      SpaceAt(c, t, n);
      if d.token != [] { TokenAt(d, t, n); }
    }
  }

  lemma TokenSame(c: Cut, d: Cut, t: seq<Byte>)
    requires Cuts(c, t) && Cuts(d, t) && |c.skipped| == |d.skipped|
    ensures |c.token| <= |d.token| && (|c.token| == |d.token| ==> |c.trailing| <= |d.trailing|)
  {
    hide Cuts;
    AfterToken(c, t);
    AfterToken(d, t);
    var n, m := |d.skipped|, |d.skipped| + |d.token|;
    if |d.token| < |c.token| { TokenAt(c, t, m); }
  }

  lemma NewlinesThrough(t: seq<Byte>, a: nat, b: nat, c: nat)
    requires a <= b <= c <= |t|
    ensures Newlines(t[a..b]) + Newlines(t[b..c]) == Newlines(t[a..c])
  {
    NewlinesJoin(t[a..b], t[b..c]);
    assert t[a..b] + t[b..c] == t[a..c];
  }

  lemma CutMade(t: seq<Byte>, a: nat, b: nat, c: nat, d: nat)
    requires a <= b <= c <= d <= |t| && AllSpace(t[a..b]) && (b < |t| ==> !IsSpace(t[b]))
    requires forall i :: b <= i < c ==> !Ends(32, t[i])
    requires if c == |t| then d == c else d == c + 1 && Ends(32, t[c])
    ensures Cuts(Cut(t[a..b], t[b..c], t[c..d]), t[a..])
  {
    var rest := t[a..];
    assert rest[..d - a] == t[a..b] + t[b..c] + t[c..d];
  }

  lemma CutLengths(c: Cut, t: seq<Byte>, a: nat)
    requires a <= |t| && Cuts(c, t[a..])
    ensures a + |c.skipped| + |c.token| + |c.trailing| <= |t|
    ensures c.skipped == t[a..a + |c.skipped|] && t[a + |c.skipped|..] == t[a..][|c.skipped|..]
    ensures t[a..a + |c.skipped| + |c.token| + |c.trailing|] == c.skipped + c.token + c.trailing
  {
    Pieces(c, t[a..]);
    var k := |c.skipped| + |c.token| + |c.trailing|;
    assert t[a..][..k] == t[a..a + k];
  }

  lemma NoNewlines()
    ensures Newlines([]) == 0
  {}

  // ----- the scanner -----

  class Scanner {
    const text: seq<Byte>       // up to end
    var first: nat
    var lineno: int
    var parsedLineno: int
    var skipped: (nat, nat)     // where it starts, and its length
    var parsed: (nat, nat)
    var trailing: (nat, nat)

    predicate Valid()
      reads this
    {
      first <= |text| && skipped.0 + skipped.1 <= |text| && parsed.0 + parsed.1 <= |text| &&
             trailing.0 + trailing.1 <= |text|
    }

    function Piece(p: (nat, nat)): seq<Byte>
      requires p.0 + p.1 <= |text|
    {
      text[p.0..p.0 + p.1]
    }

    /** What the last token call took. */
    function Taken(): Cut
      requires Valid()
      reads this
    {
      Cut(Piece(skipped), Piece(parsed), Piece(trailing))
    }

    constructor (text: seq<Byte>, line: int)
      ensures Valid() && this.text == text && first == 0 && lineno == line
    {
      this.text := text;
      first, lineno, parsedLineno := 0, line, line;
      skipped, parsed, trailing := (0, 0), (0, 0), (0, 0);
    }

    /** skip */
    method Skip()
      requires Valid()
      modifies `first, `lineno, `skipped
      ensures Valid() && old(first) <= first && skipped == (old(first), first - old(first))
      ensures AllSpace(text[old(first)..first]) && (first < |text| ==> !IsSpace(text[first]))
      ensures lineno == old(lineno) + Newlines(text[old(first)..first])
    {
      var start := first;
      while first < |text| && IsSpace(text[first])
        invariant start <= first <= |text| && AllSpace(text[start..first])
        invariant lineno == old(lineno) + Newlines(text[start..first])
      {
        NewlinesNext(text, start, first);
        assert text[start..first + 1] == text[start..first] + [text[first]];
        if text[first] == LF { lineno := lineno + 1; }
        first := first + 1;
      }
      skipped := (start, first - start);
    }

    /** scan and capture_token: everything up to the delimiter, which is taken too. */
    method Scan(delim: Byte)
      requires Valid()
      modifies `first, `lineno, `parsedLineno, `parsed, `trailing
      ensures Valid() && parsedLineno == old(lineno)
      ensures parsed.0 == old(first) && trailing.0 == parsed.0 + parsed.1 && first == trailing.0 + trailing.1
      ensures forall i :: parsed.0 <= i < trailing.0 ==> !Ends(delim, text[i])
      ensures if trailing.0 == |text| then trailing.1 == 0 else trailing.1 == 1 && Ends(delim, text[trailing.0])
      ensures lineno == old(lineno) + Newlines(text[old(first)..first])
    {
      hide Newlines, Ends;
      NoNewlines();
      assert text[first..first] == [];
      parsedLineno := lineno;
      var last := first;
      while last < |text|
        invariant first == old(first) <= last <= |text| && Valid() && parsedLineno == old(lineno)
        invariant forall i :: first <= i < last ==> !Ends(delim, text[i])
        invariant lineno == old(lineno) + Newlines(text[first..last])
      {
        NewlinesNext(text, first, last);
        var c := text[last];
        if c == LF { lineno := lineno + 1; }
        if Ends(delim, c) {
          parsed, trailing := (first, last - first), (last, 1);
          first := last + 1;
          return;
        }
        last := last + 1;
      }
      parsed, trailing := (first, last - first), (last, 0);
      first := last;
    }

    /** token: what is taken is the one cut of the rest of the text, the line number grows
        by the newlines in it, and the token's line is the one it starts on. */
    method Token()
      requires Valid()
      modifies this
      ensures Valid() && Cuts(Taken(), text[old(first)..])
      ensures first == old(first) + |Taken().skipped| + |Taken().token| + |Taken().trailing|
      ensures parsed == (old(first) + |Taken().skipped|, |Taken().token|)
      ensures lineno == old(lineno) + Newlines(text[old(first)..first])
      ensures parsedLineno == old(lineno) + Newlines(Taken().skipped)
    {
      hide Cuts, Newlines, AllSpace;
      var start := first;
      Skip();
      ghost var mid := first;
      Scan(32);
      NewlinesThrough(text, start, mid, first);
      CutMade(text, start, mid, trailing.0, first);
    }

    /** parse: everything up to one delimiter. */
    method Parse(delim: Byte)
      requires Valid()
      modifies `first, `lineno, `parsedLineno, `parsed, `trailing
      ensures Valid() && parsedLineno == old(lineno)
      ensures delim !in Piece(parsed)
      ensures old(first) <= first && text[old(first)..first] == Piece(parsed) + Piece(trailing)
      ensures if first == |text| && trailing.1 == 0 then true else trailing.1 == 1 && Ends(delim, Piece(trailing)[0])
      ensures lineno == old(lineno) + Newlines(text[old(first)..first])
    {
      Scan(delim);
      assert forall i :: parsed.0 <= i < trailing.0 ==> text[i] != delim;
    }

    /** untoken: back to where the token starts, and to the line it starts on. */
    method Untoken()
      requires Valid()
      modifies `first, `lineno
      ensures Valid() && first == parsed.0 && lineno == parsedLineno
    {
      first := parsed.0;
      lineno := parsedLineno;
    }

    /** A token taken back and taken again is the same token, at the same place, on the same
        line, and the scanner is where it was. */
    method TokenAgain() returns (place: (nat, nat), end: nat, line: int, startLine: int)
      requires Valid()
      modifies this
      ensures Valid() && place.0 + place.1 <= |text|
      ensures exists c :: Cuts(c, text[old(first)..]) && place == (old(first) + |c.skipped|, |c.token|)
      ensures parsed == place && first == end && lineno == line && parsedLineno == startLine
    {
      hide Cuts, Newlines;
      Token();
      ghost var c, from := Taken(), old(first);
      place, end, line, startLine := parsed, first, lineno, parsedLineno;
      CutLengths(c, text, from);
      NewlinesThrough(text, from, place.0, end);
      Untoken();
      ghost var again := Cut([], c.token, c.trailing);
      CutRest(c, text[from..], text[place.0..]);
      Token();
      CutUnique(Taken(), again, text[place.0..]);
      assert Newlines([]) == 0 by { NoNewlines(); }
    }

    /** Taking tokens until there is none left. */
    method AllTokens() returns (cuts: seq<Cut>)
      requires Valid()
      modifies this
      ensures Valid() && first == |text| && Tiled(cuts) == text[old(first)..]
      ensures |cuts| > 0 && cuts[|cuts| - 1].token == []
      ensures forall i :: 0 <= i < |cuts| - 1 ==> cuts[i].token != []
      ensures forall i :: 0 <= i < |cuts| ==> CutAt(text[old(first)..], cuts, i)
      ensures lineno == old(lineno) + Newlines(text[old(first)..])
    {
      hide Cuts, Newlines, CutAt, Tiled;
      ghost var start := first;
      TiledNone(text, start);
      cuts := [];
      var more := true;
      while more
        invariant Valid() && start <= first && Tiled(cuts) == text[start..first]
        invariant lineno == old(lineno) + Newlines(text[start..first])
        invariant forall i :: 0 <= i < |cuts| - 1 ==> cuts[i].token != []
        invariant |cuts| > 0 ==> (cuts[|cuts| - 1].token != []) == more
        invariant !more ==> |cuts| > 0 && first == |text|
        invariant forall i :: 0 <= i < |cuts| ==> CutAt(text[start..], cuts, i)
        decreases more, |text| - first
      {
        ghost var mid := first;
        Token();
        ghost var c := Taken();
        CutLengths(c, text, mid);
        NewlinesThrough(text, start, mid, first);
        assert text[start..mid] + text[mid..first] == text[start..first];
        CutAdded(text[start..], cuts, c, text[mid..]);
        EndReached(c, text, mid);
        cuts := cuts + [Taken()];
        more := parsed.1 != 0;
      }
      assert text[start..first] == text[start..];
    }
  }

  /** All the pieces, put together again. */
  function Tiled(cuts: seq<Cut>): seq<Byte>
  {
    if cuts == [] then []
    else var c := cuts[|cuts| - 1]; Tiled(cuts[..|cuts| - 1]) + (c.skipped + c.token + c.trailing)
  }

  /** The i-th cut is taken where the ones before it end. */
  predicate CutAt(t: seq<Byte>, cuts: seq<Cut>, i: nat)
    requires i < |cuts|
  {
    var at := |Tiled(cuts[..i])|;
    at <= |t| && Cuts(cuts[i], t[at..])
  }

  lemma CutAdded(t: seq<Byte>, cuts: seq<Cut>, c: Cut, rest: seq<Byte>)
    requires forall i :: 0 <= i < |cuts| ==> CutAt(t, cuts, i)
    requires |Tiled(cuts)| <= |t| && t[|Tiled(cuts)|..] == rest && Cuts(c, rest)
    ensures forall i :: 0 <= i < |cuts| + 1 ==> CutAt(t, cuts + [c], i)
    ensures Tiled(cuts + [c]) == Tiled(cuts) + (c.skipped + c.token + c.trailing)
  {
    hide Cuts, Tiled;
    var more := cuts + [c];
    assert more[..|cuts|] == cuts;
    forall i | 0 <= i < |more| ensures CutAt(t, more, i) {
      if i < |cuts| {
        assert CutAt(t, cuts, i);
        assert more[..i] == cuts[..i];
      }
    }
    assert Tiled(more) == Tiled(cuts) + (c.skipped + c.token + c.trailing) by { TiledLast(cuts, c); }
  }

  lemma TiledNone(t: seq<Byte>, a: nat)
    requires a <= |t|
    ensures Tiled([]) == t[a..a] && Newlines(t[a..a]) == 0
  {}

  /** Only the end of the text makes a token empty. */
  lemma EndReached(c: Cut, t: seq<Byte>, a: nat)
    requires a <= |t| && Cuts(c, t[a..])
    ensures c.token == [] ==> a + |c.skipped| + |c.token| + |c.trailing| == |t|
  {}

  lemma TiledLast(cuts: seq<Cut>, c: Cut)
    ensures Tiled(cuts + [c]) == Tiled(cuts) + (c.skipped + c.token + c.trailing)
  {
    assert (cuts + [c])[..|cuts|] == cuts;
  }

  /** Without the white space in front, the cut is the same. */
  lemma CutRest(c: Cut, t: seq<Byte>, u: seq<Byte>)
    requires Cuts(c, t) && |c.skipped| <= |t| && u == t[|c.skipped|..]
    ensures Cuts(Cut([], c.token, c.trailing), u)
  {
    Pieces(c, t);
    var n, k := |c.skipped|, |c.skipped| + |c.token| + |c.trailing|;
    assert u[..k - n] == t[n..k];
  }
}
