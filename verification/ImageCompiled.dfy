/** The two words of Image that branch are what the compiling words make of their text. */
module ImageCompiled {
  import opened Cells
  import opened Machine
  import opened Control
  import opened Image

  /** A straight line of cells. */
  function Line(cells: seq<Cell>): Tree
  {
    if cells == [] then Empty else Seq(CallWord(cells[0]), Line(cells[1..]))
  }

  lemma {:induction false} LineLayout(cells: seq<Cell>, org: int)
    ensures Layout(Line(cells), org) == cells
    decreases |cells|
  {
    if cells != [] {
      UnfoldSeq(CallWord(cells[0]), Line(cells[1..]), org);
      assert Layout(CallWord(cells[0]), org) == [cells[0]];
      LineLayout(cells[1..], org + 1);
    }
  }

  /** throw  ?if  cf @ cell+ @ >r  then */
  function ThrowText(): Tree { If(QueryTest, Line([CF, Xt(Fetch), CELL_PLUS, Xt(Fetch), Xt(ToR)])) }

  lemma ThrowCompiled()
    ensures ThrowBody() == Layout(ThrowText(), THROW as int + 1) + [Xt(Exit)]
  {
    hide Layout;
    var line := [CF, Xt(Fetch), CELL_PLUS, Xt(Fetch), Xt(ToR)];
    UnfoldIf(QueryTest, Line(line), THROW as int + 1);
    LineLayout(line, THROW as int + 3);
  }

  /** unwind  unwinding ! r>  begin  fp @ dup cf @ u< and  while  unlink  repeat
      cf @ rp! r> cf ! rdrop >r unwinding off */
  function UnwindText(): Tree
  {
    Seq(Line([UNWINDING, Xt(Store), Xt(RFrom)]),
        Seq(While(Line([FP, Xt(Fetch), Xt(Dup), CF, Xt(Fetch), Xt(ULess), Xt(AndWord)]), PlainTest, Line([UNLINK])),
            Line([CF, Xt(Fetch), Xt(RpStore), Xt(RFrom), CF, Xt(Store), Xt(RDrop), Xt(ToR), UNWINDING, OFF])))
  }

  lemma UnwindCompiled()
    ensures UnwindBody() == Layout(UnwindText(), UNWIND as int + 1) + [Xt(Exit)]
  {
    hide Layout, Line, Xt, UnwindLoop, UnwindTail, LayWhile;
    var org := UNWIND as int + 1;
    var head, body := [UNWINDING, Xt(Store), Xt(RFrom)], [UNLINK];
    var test := [FP, Xt(Fetch), Xt(Dup), CF, Xt(Fetch), Xt(ULess), Xt(AndWord)];
    var tail := [CF, Xt(Fetch), Xt(RpStore), Xt(RFrom), CF, Xt(Store), Xt(RDrop), Xt(ToR), UNWINDING, OFF];
    var loop := While(Line(test), PlainTest, Line(body));
    LineLayout(head, org);
    LineLayout(test, org + 3);
    LineLayout(body, org + 12);
    LineLayout(tail, org + 15);
    UnfoldSeq(Line(head), Seq(loop, Line(tail)), org);
    UnfoldSeq(loop, Line(tail), org + 3);
    UnfoldWhile(Line(test), PlainTest, Line(body), org + 3);
    UnwindCells(org, head, test, body, tail);
  }

  lemma UnwindCells(org: int, head: seq<Cell>, test: seq<Cell>, body: seq<Cell>, tail: seq<Cell>)
    requires org == UNWIND as int + 1
    requires head == [UNWINDING, Xt(Store), Xt(RFrom)] && body == [UNLINK]
    requires test == [FP, Xt(Fetch), Xt(Dup), CF, Xt(Fetch), Xt(ULess), Xt(AndWord)]
    requires tail == [CF, Xt(Fetch), Xt(RpStore), Xt(RFrom), CF, Xt(Store), Xt(RDrop), Xt(ToR), UNWINDING, OFF]
    ensures |LayWhile(PlainTest, org + 3, test, body)| == 12
    ensures UnwindBody() == head + (LayWhile(PlainTest, org + 3, test, body) + tail) + [Xt(Exit)]
  {
    var l := LayWhile(PlainTest, org + 3, test, body);
    assert l == test + [Xt(ZeroBranch), org + 15] + body + [Xt(Branch), org + 3];
    assert head + l == UnwindLoop();
    assert tail + [Xt(Exit)] == UnwindTail();
  }
}
