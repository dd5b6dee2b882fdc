/** Routines that programs file with on-exit: C routines outside the model, and
    add-lines-read, a colon word that stores and reads a variable that is preserved. */
module Cleanups {
  import opened Cells
  import opened Machine
  import opened Inner
  import opened Image
  import opened FrameData
  import opened Steps
  import opened WordCells
  import opened Unwinding

  // ----- C routines outside the model -----

  /** It takes its arguments, here in the order they were pushed, and is seen to be called. */
  function Outside(xt: Cell, n: nat): Effect
  {
    Effect((args, unwinding, m) => m,
           (args: seq<Cell>, unwinding, m) =>
             [Event(xt, if n == 2 && |args| == 2 then [args[1], args[0]] else args)])
  }

  lemma OutsideCleans(code: seq<Cell>, size: nat, xt: Cell, p: Prim)
    requires p.Action1? || p.Action2?
    requires 0 < xt < VARIABLES && |code| == VARIABLES && code[xt] == Code(p)
    ensures var n := if p.Action1? then 1 else 2; Cleans(code, size, xt, n, Outside(xt, n))
  {
    hide Run, Loaded, Code;
    var n := if p.Action1? then 1 else 2;
    var fx := Outside(xt, n);
    forall g: nat, s: State ensures CleansAt(code, size, xt, n, fx, g, s) {
      if Loaded(s.heap) { VariableCells(s.heap); }
      if Loaded(s.heap) && |s.heap| == size && s.heap[..VARIABLES] == code && n <= |s.ds| && g < |s.rs| < 0x1000_0000 {
        assert s.heap[xt] == s.heap[..VARIABLES][xt] == Code(p);
        DecodeCode(p);
        assert s.heap[..USER] + s.heap[USER..] == s.heap;
        forall fuel: nat ensures Resume(g, Call(xt, s, fuel + 1)) == Run(g, Cleaned(s, n, fx), fuel) {
          OutsideRuns(s, xt, p, n);
        }
        assert CleansIn(xt, n, fx, g, s, 1);
      }
    }
  }

  lemma OutsideRuns(s: State, xt: Cell, p: Prim, n: nat)
    requires (p.Action1? && n == 1) || (p.Action2? && n == 2)
    requires 0 < xt < VARIABLES && n <= |s.ds| && |s.heap| > USER
    ensures Routine(p, xt + 1, s) == Some(Cleaned(s, n, Outside(xt, n)))
  {
    assert s.heap[..USER] + s.heap[USER..] == s.heap;
    if n == 1 { assert s.ds[..1] == [s.ds[0]]; } else { assert s.ds[..2] == [s.ds[0], s.ds[1]]; }
  }

  // ----- add-lines-read -----

  /** Where its words stand, and the variables. line and lines-read are words that push the
      address of a variable. */
  datatype Names = Names(addLines: Cell, oneMinus: Cell, lineWord: Cell, line: Cell, readWord: Cell, read: Cell)

  /** add-lines-read  drop  line @ 1-  lines-read +! */
  function AddLinesBody(w: Names): seq<Cell>
  {
    [Xt(Drop), w.lineWord, Xt(Fetch), w.oneMinus, w.readWord, Xt(PlusStore), Xt(Exit)]
  }

  function OneMinusBody(): seq<Cell> { [Xt(Lit), -1, Xt(Plus), Xt(Exit)] }

  function PushesBody(a: Cell): seq<Cell> { [Xt(Lit), a, Xt(Exit)] }

  ghost predicate HasAddLines(h: seq<Cell>, w: Names)
  {
    Has(h, w.addLines, AddLinesBody(w)) && Has(h, w.oneMinus, OneMinusBody())
    && Has(h, w.lineWord, PushesBody(w.line)) && Has(h, w.readWord, PushesBody(w.read))
    && USER <= w.line < |h| && USER <= w.read < |h|
  }

  /** One less than line is added to lines-read. */
  function AddLines(w: Names): Effect
  {
    Effect((args, unwinding, m: seq<Cell>) =>
             if 0 <= w.line - USER < |m| && 0 <= w.read - USER < |m|
             then m[w.read - USER := Add(m[w.read - USER], Add(m[w.line - USER], -1))] else m,
           (args, unwinding, m) => [])
  }

  lemma BodyAt(h: seq<Cell>, xt: Cell, body: seq<Cell>, i: nat)
    requires Has(h, xt, body) && i < |body|
    ensures 0 < xt && xt + 1 + i < VARIABLES <= |h| && h[xt + 1 + i] == body[i] && h[xt] == Code(DoColon)
  {}

  /** A word that pushes an address. */
  lemma PushesRuns(g: nat, s: State, fuel: nat, xt: Cell, a: Cell) returns (t: State)
    requires Here(g, s, xt) && Has(s.heap, xt, PushesBody(a))
    ensures t == s.(ip := s.ip + 1, ds := [a] + s.ds)
    ensures Run(g, s, fuel + 3) == Run(g, t, fuel)
  {
    hide Run, Loaded, Has, Code;
    BodyAt(s.heap, xt, PushesBody(a), 0);
    BodyAt(s.heap, xt, PushesBody(a), 1);
    BodyAt(s.heap, xt, PushesBody(a), 2);
    var s1 := Enter(g, s, fuel + 2, xt, PushesBody(a));
    var s2 := DoLit(g, s1, fuel + 1, a);
    t := DoExit(g, s2, fuel);
  }

  /** 1- */
  lemma OneMinusRuns(g: nat, s: State, fuel: nat, xt: Cell) returns (t: State)
    requires Here(g, s, xt) && Has(s.heap, xt, OneMinusBody()) && |s.ds| >= 1
    ensures t == s.(ip := s.ip + 1, ds := [Add(s.ds[0], -1)] + s.ds[1..])
    ensures Run(g, s, fuel + 4) == Run(g, t, fuel)
  {
    hide Run, Loaded, Has, Code;
    BodyAt(s.heap, xt, OneMinusBody(), 0);
    BodyAt(s.heap, xt, OneMinusBody(), 1);
    BodyAt(s.heap, xt, OneMinusBody(), 2);
    BodyAt(s.heap, xt, OneMinusBody(), 3);
    var s1 := Enter(g, s, fuel + 3, xt, OneMinusBody());
    var s2 := DoLit(g, s1, fuel + 2, -1);
    var s3 := DoPlus(g, s2, fuel + 1);
    assert s3.ds == [Add(s.ds[0], -1)] + s.ds[1..];
    t := DoExit(g, s3, fuel);
  }

  /** The colon word, from its first cell to its return. */
  lemma AddLinesRuns(g: nat, s: State, fuel: nat, w: Names, back: Cell, rest: seq<Cell>) returns (t: State)
    requires Loaded(s.heap) && HasAddLines(s.heap, w) && s.ip == w.addLines + 1 && s.rs == [back] + rest
    requires |rest| > g && |s.ds| >= 1
    ensures var h := s.heap;
            t == s.(ip := back, rs := rest, ds := s.ds[1..], heap := h[w.read := Add(h[w.read], Add(h[w.line], -1))])
    ensures Run(g, s, fuel + 14) == Run(g, t, fuel)
  {
    hide Run, Loaded, Has, Code;
    var h, body := s.heap, AddLinesBody(w);
    BodyAt(h, w.addLines, body, 0);
    BodyAt(h, w.addLines, body, 1);
    BodyAt(h, w.addLines, body, 2);
    BodyAt(h, w.addLines, body, 3);
    BodyAt(h, w.addLines, body, 4);
    BodyAt(h, w.addLines, body, 5);
    BodyAt(h, w.addLines, body, 6);
    var s1 := DoDrop(g, s, fuel + 13);
    var s2 := PushesRuns(g, s1, fuel + 10, w.lineWord, w.line);
    var s3 := DoFetch(g, s2, fuel + 9);
    assert s3.ds == [h[w.line]] + s.ds[1..];
    var s4 := OneMinusRuns(g, s3, fuel + 5, w.oneMinus);
    assert s4.ds == [Add(h[w.line], -1)] + s.ds[1..];
    var s5 := PushesRuns(g, s4, fuel + 2, w.readWord, w.read);
    var s6 := DoPlusStore(g, s5, fuel + 1);
    assert s6.ds == s.ds[1..];
    LoadedKept(h, w.read, Add(h[w.read], Add(h[w.line], -1)));
    t := DoExit(g, s6, fuel);
    assert t.rs == rest;
  }

  lemma HasAddLinesSame(h: seq<Cell>, k: seq<Cell>, w: Names)
    requires HasAddLines(h, w) && |k| == |h| && k[..VARIABLES] == h[..VARIABLES]
    ensures HasAddLines(k, w)
  {
    hide Has, AddLinesBody, PushesBody;
    HasSame(h, k, w.addLines, AddLinesBody(w));
    HasSame(h, k, w.oneMinus, OneMinusBody());
    HasSame(h, k, w.lineWord, PushesBody(w.line));
    HasSame(h, k, w.readWord, PushesBody(w.read));
  }

  /** add-lines-read is a routine that may be filed. */
  lemma AddLinesCleans(h: seq<Cell>, w: Names)
    requires Loaded(h) && HasAddLines(h, w)
    ensures Cleans(h[..VARIABLES], |h|, w.addLines, 1, AddLines(w))
  {
    hide Run, Loaded, Has, Code, HasAddLines, Cleaned;
    VariableCells(h);
    var code, fx := h[..VARIABLES], AddLines(w);
    forall g: nat, s: State ensures CleansAt(code, |h|, w.addLines, 1, fx, g, s) {
      if Loaded(s.heap) && |s.heap| == |h| && s.heap[..VARIABLES] == code && 1 <= |s.ds| && g < |s.rs| < 0x1000_0000 {
        HasAddLinesSame(h, s.heap, w);
        forall fuel: nat
          ensures Resume(g, Call(w.addLines, s, fuel + 15)) == Run(g, Cleaned(s, 1, fx), fuel)
        {
          AddLinesReturns(g, s, fuel, w);
        }
        assert CleansIn(w.addLines, 1, fx, g, s, 15);
      }
    }
  }

  lemma AddLinesReturns(g: nat, s: State, fuel: nat, w: Names)
    requires Loaded(s.heap) && HasAddLines(s.heap, w) && |s.ds| >= 1 && g < |s.rs|
    ensures Resume(g, Call(w.addLines, s, fuel + 15)) == Run(g, Cleaned(s, 1, AddLines(w)), fuel)
  {
    hide Run, Loaded, Has, Call, Affected, CallsOf, AddLines, AddLinesBody, Add;
    VariableCells(s.heap);
    BodyAt(s.heap, w.addLines, AddLinesBody(w), 0) by { BodyLength(w); }
    var s1 := s.(rs := [s.ip] + s.rs, ip := w.addLines + 1);
    CallColon(s, fuel + 14, w.addLines, AddLinesBody(w));
    var t := AddLinesRuns(g, s1, fuel, w, s.ip, s.rs);
    AddLinesAffects(s.heap, s.ds[..1], w);
    assert s.out + [] == s.out;
  }

  lemma BodyLength(w: Names)
    ensures |AddLinesBody(w)| == 7
  {}

  lemma AddLinesAffects(h: seq<Cell>, args: seq<Cell>, w: Names)
    requires USER <= w.line < |h| && USER <= w.read < |h|
    ensures Affected(AddLines(w), args, h) == h[w.read := Add(h[w.read], Add(h[w.line], -1))]
    ensures CallsOf(AddLines(w), args, h) == []
  {
    hide Add;
    var m := h[USER..];
    var v := Add(h[w.read], Add(h[w.line], -1));
    assert m[w.line - USER] == h[w.line] && m[w.read - USER] == h[w.read];
    assert h[..USER] + m[w.read - USER := v] == h[w.read := v];
  }

  /** raw-load-file preserves line and then files add-lines-read: undone newest first, the
      lines of the file loaded are counted before line gets back its old value. */
  lemma LinesCounted(w: Names, v: Cell, prior: Cell, h: seq<Cell>)
    requires USER <= w.line < |h| && USER <= w.read < |h| && w.line != w.read
    ensures var k := Undone([Framed(OnExit(w.addLines, v, AddLines(w))), Framed(Preserved(w.line, prior))], h);
            k[w.read] == Add(h[w.read], Add(h[w.line], -1)) && k[w.line] == prior
  {
    var items := [Framed(OnExit(w.addLines, v, AddLines(w))), Framed(Preserved(w.line, prior))];
    assert items[1..] == [Framed(Preserved(w.line, prior))] && items[1..][1..] == [];
    hide Affected, AddLines, Add;
    AddLinesAffects(h, [v], w);
    var k := Restored(items[0].f, h);
    assert Undone(items, h) == Undone(items[1..], k) == Restored(items[1].f, k);
  }
}
