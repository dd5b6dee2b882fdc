/** The control-structure compiling words of mu/startup.mu4: what each one does to
    the heap and to the compile-time stack, and the layout of threaded code that a
    well-nested source text ends up as. */
module Control {
  import opened Cells
  import opened Machine

  /** The three families of tests: =if keeps the flag, ?if keeps it only when it is
      non-zero, if always drops it. */
  datatype Test = KeepTest | QueryTest | PlainTest

  function TestPrim(k: Test): Prim
  {
    match k case KeepTest => Equal0Branch case QueryTest => Q0Branch case PlainTest => ZeroBranch
  }

  /** What a programmer means to write between : and ; */
  datatype Tree =
    | Empty
    | Word(p: Prim)
    | Literal(v: Cell)
    | CallWord(xt: Cell)
    | Seq(a: Tree, b: Tree)
    | If(test: Test, a: Tree)                             // if a then
    | IfElse(test: Test, a: Tree, b: Tree)                // if a else b then
    | Until(a: Tree, test: Test)                          // begin a until
    | Again(a: Tree)                                      // begin a again
    | While(a: Tree, test: Test, b: Tree)                 // begin a while b repeat
    | WhileUntil(a: Tree, test: Test, b: Tree, exit: Test, c: Tree)
                                                          // begin a while b until c then
    | For(a: Tree)                                        // for a next
    | DoLoop(a: Tree, plus: bool)                         // do a loop, do a +loop

  /** The tokens the compiler sees. */
  datatype Token =
    | TWord(p: Prim) | TLiteral(v: Cell) | TCall(xt: Cell)
    | TIf(test: Test) | TElse | TThen
    | TBegin | TUntil(test: Test) | TAgain | TWhile(test: Test) | TRepeat
    | TFor | TNext | TDo | TLoop(plus: bool)

  function Tokens(t: Tree): seq<Token>
  {
    match t
    case Empty => []
    case Word(p) => [TWord(p)]
    case Literal(v) => [TLiteral(v)]
    case CallWord(xt) => [TCall(xt)]
    case Seq(a, b) => Tokens(a) + Tokens(b)
    case If(k, a) => [TIf(k)] + Tokens(a) + [TThen]
    case IfElse(k, a, b) => [TIf(k)] + Tokens(a) + [TElse] + Tokens(b) + [TThen]
    case Until(a, k) => [TBegin] + Tokens(a) + [TUntil(k)]
    case Again(a) => [TBegin] + Tokens(a) + [TAgain]
    case While(a, k, b) => [TBegin] + Tokens(a) + [TWhile(k)] + Tokens(b) + [TRepeat]
    case WhileUntil(a, k, b, x, c) =>
      [TBegin] + Tokens(a) + [TWhile(k)] + Tokens(b) + [TUntil(x)] + Tokens(c) + [TThen]
    case For(a) => [TFor] + Tokens(a) + [TNext]
    case DoLoop(a, plus) => [TDo] + Tokens(a) + [TLoop(plus)]
  }

  // ----- what the compiling words do -----

  /** The heap up to here, and the compile-time data stack, top first. */
  datatype CState = CState(heap: seq<Cell>, stack: seq<Cell>)

  function Comma(c: CState, v: Cell): CState { c.(heap := c.heap + [v]) }

  /** mark  ( - src)  here  0 , */
  function Mark(c: CState): CState { CState(c.heap + [0], [Wrap(|c.heap|)] + c.stack) }

  /** <resolve  ( dest src)  ! */
  function BackResolve(c: CState): Option<CState>
  {
    if |c.stack| >= 2 && 0 <= c.stack[0] < |c.heap|
    then Some(CState(c.heap[c.stack[0] := c.stack[1]], c.stack[2..])) else None
  }

  /** then  ( src)  here >resolve */
  function Then(c: CState): Option<CState>
  {
    if |c.stack| >= 1 && 0 <= c.stack[0] < |c.heap|
    then Some(CState(c.heap[c.stack[0] := Wrap(|c.heap|)], c.stack[1..])) else None
  }

  function Compiling(c: CState, p: Prim): CState { Comma(c, Xt(p)) }

  function OpenIf(c: CState, k: Test): CState { Mark(Compiling(c, TestPrim(k))) }

  function Begin(c: CState): CState { c.(stack := [Wrap(|c.heap|)] + c.stack) }

  function SwapTop(c: CState): Option<CState>
  {
    if |c.stack| >= 2 then Some(c.(stack := [c.stack[1], c.stack[0]] + c.stack[2..])) else None
  }

  function AgainWord(c: CState): Option<CState> { BackResolve(Mark(Compiling(c, Branch))) }

  /** Run one token through the compiler. */
  function Emit(t: Token, c: CState): Option<CState>
  {
    match t
    case TWord(p) => Some(Compiling(c, p))
    case TLiteral(v) => Some(Comma(Compiling(c, Lit), v))
    case TCall(xt) => Some(Comma(c, xt))
    case TIf(k) => Some(OpenIf(c, k))
    case TElse => (match SwapTop(Mark(Compiling(c, Branch))) case None => None case Some(d) => Then(d))
    case TThen => Then(c)
    case TBegin => Some(Begin(c))
    case TUntil(k) => BackResolve(OpenIf(c, k))
    case TAgain => AgainWord(c)
    case TWhile(k) => SwapTop(OpenIf(c, k))
    case TRepeat => (match AgainWord(c) case None => None case Some(d) => Then(d))
    case TFor => Some(Begin(Compiling(OpenIf(c, QueryTest), ToR)))
    case TNext => CloseLoop(c, Next)
    case TDo => Some(Begin(Mark(Compiling(c, Do))))
    case TLoop(plus) => CloseLoop(c, LoopPrim(plus))
  }

  /** next, loop and +loop: ( src dest)  compile p  mark <resolve  \c then */
  function CloseLoop(c: CState, p: Prim): Option<CState>
  {
    match BackResolve(Mark(Compiling(c, p))) case None => None case Some(d) => Then(d)
  }

  function EmitAll(ts: seq<Token>, c: CState): Option<CState>
  {
    if ts == [] then Some(c)
    else match Emit(ts[0], c) case None => None case Some(d) => EmitAll(ts[1..], d)
  }

  // ----- the layout it should amount to -----

  // The code of each construct that starts at org, given the code of its parts.

  function LayIf(k: Test, org: int, x: seq<Cell>): seq<Cell>
  {
    [Xt(TestPrim(k)), Wrap(org + 2 + |x|)] + x
  }

  function LayIfElse(k: Test, org: int, x: seq<Cell>, y: seq<Cell>): seq<Cell>
  {
    [Xt(TestPrim(k)), Wrap(org + |x| + 4)] + x + [Xt(Branch), Wrap(org + |x| + 4 + |y|)] + y
  }

  function LayBack(p: Prim, org: int, x: seq<Cell>): seq<Cell> { x + [Xt(p), Wrap(org)] }

  function LayWhile(k: Test, org: int, x: seq<Cell>, y: seq<Cell>): seq<Cell>
  {
    x + [Xt(TestPrim(k)), Wrap(org + |x| + |y| + 4)] + y + [Xt(Branch), Wrap(org)]
  }

  function LayWhileUntil(k: Test, e: Test, org: int, x: seq<Cell>, y: seq<Cell>, z: seq<Cell>): seq<Cell>
  {
    x + [Xt(TestPrim(k)), Wrap(org + |x| + |y| + |z| + 4)] + y + [Xt(TestPrim(e)), Wrap(org)] + z
  }

  function LayFor(org: int, x: seq<Cell>): seq<Cell>
  {
    [Xt(Q0Branch), Wrap(org + |x| + 5), Xt(ToR)] + x + [Xt(Next), Wrap(org + 3)]
  }

  function LoopPrim(plus: bool): Prim { if plus then PlusLoop else Loop }

  function LayDo(plus: bool, org: int, x: seq<Cell>): seq<Cell>
  {
    [Xt(Do), Wrap(org + |x| + 4)] + x + [Xt(LoopPrim(plus)), Wrap(org + 2)]
  }

  /** The threaded code of t when it starts at address org. */
  function Layout(t: Tree, org: int): seq<Cell>
    decreases t
  {
    match t
    case Empty => []
    case Word(p) => [Xt(p)]
    case Literal(v) => [Xt(Lit), v]
    case CallWord(xt) => [xt]
    case Seq(a, b) => var x := Layout(a, org); x + Layout(b, org + |x|)
    case If(k, a) => LayIf(k, org, Layout(a, org + 2))
    case IfElse(k, a, b) => var x := Layout(a, org + 2); LayIfElse(k, org, x, Layout(b, org + |x| + 4))
    case Until(a, k) => LayBack(TestPrim(k), org, Layout(a, org))
    case Again(a) => LayBack(Branch, org, Layout(a, org))
    case While(a, k, b) => var x := Layout(a, org); LayWhile(k, org, x, Layout(b, org + |x| + 2))
    case WhileUntil(a, k, b, e, c) =>
      var x := Layout(a, org);
      var y := Layout(b, org + |x| + 2);
      LayWhileUntil(k, e, org, x, y, Layout(c, org + |x| + |y| + 4))
    case For(a) => LayFor(org, Layout(a, org + 3))
    case DoLoop(a, plus) => LayDo(plus, org, Layout(a, org + 2))
  }

  // Tokens and Layout, one construct at a time.

  lemma UnfoldSeq(a: Tree, b: Tree, org: int)
    ensures Tokens(Seq(a, b)) == Tokens(a) + Tokens(b)
    ensures Layout(Seq(a, b), org) == Layout(a, org) + Layout(b, org + |Layout(a, org)|)
  {
    hide LayIf, LayIfElse, LayBack, LayWhile, LayWhileUntil, LayFor, LayDo;
  }

  lemma UnfoldIf(k: Test, a: Tree, org: int)
    ensures Tokens(If(k, a)) == [TIf(k)] + Tokens(a) + [TThen]
    ensures Layout(If(k, a), org) == LayIf(k, org, Layout(a, org + 2))
  {
    hide LayIf, LayIfElse, LayBack, LayWhile, LayWhileUntil, LayFor, LayDo;
  }

  lemma UnfoldIfElse(k: Test, a: Tree, b: Tree, org: int)
    ensures Tokens(IfElse(k, a, b)) == [TIf(k)] + Tokens(a) + [TElse] + Tokens(b) + [TThen]
    ensures Layout(IfElse(k, a, b), org) ==
            LayIfElse(k, org, Layout(a, org + 2), Layout(b, org + |Layout(a, org + 2)| + 4))
  {
    hide LayIf, LayIfElse, LayBack, LayWhile, LayWhileUntil, LayFor, LayDo;
  }

  lemma UnfoldUntil(a: Tree, k: Test, org: int)
    ensures Tokens(Until(a, k)) == [TBegin] + Tokens(a) + [TUntil(k)]
    ensures Layout(Until(a, k), org) == LayBack(TestPrim(k), org, Layout(a, org))
  {
    hide LayIf, LayIfElse, LayBack, LayWhile, LayWhileUntil, LayFor, LayDo;
  }

  lemma UnfoldAgain(a: Tree, org: int)
    ensures Tokens(Again(a)) == [TBegin] + Tokens(a) + [TAgain]
    ensures Layout(Again(a), org) == LayBack(Branch, org, Layout(a, org))
  {
    hide LayIf, LayIfElse, LayBack, LayWhile, LayWhileUntil, LayFor, LayDo;
  }

  lemma UnfoldWhile(a: Tree, k: Test, b: Tree, org: int)
    ensures Tokens(While(a, k, b)) == [TBegin] + Tokens(a) + [TWhile(k)] + Tokens(b) + [TRepeat]
    ensures Layout(While(a, k, b), org) ==
            LayWhile(k, org, Layout(a, org), Layout(b, org + |Layout(a, org)| + 2))
  {
    hide LayIf, LayIfElse, LayBack, LayWhile, LayWhileUntil, LayFor, LayDo;
  }

  lemma UnfoldWhileUntil(a: Tree, k: Test, b: Tree, e: Test, c: Tree, org: int)
    ensures Tokens(WhileUntil(a, k, b, e, c)) ==
            [TBegin] + Tokens(a) + [TWhile(k)] + Tokens(b) + [TUntil(e)] + Tokens(c) + [TThen]
    ensures var x := Layout(a, org);
            var y := Layout(b, org + |x| + 2);
            Layout(WhileUntil(a, k, b, e, c), org) ==
            LayWhileUntil(k, e, org, x, y, Layout(c, org + |x| + |y| + 4))
  {
    hide Tokens, Layout;
    UnfoldWhileUntilTokens(a, k, b, e, c);
    UnfoldWhileUntilLayout(a, k, b, e, c, org);
  }

  lemma UnfoldWhileUntilTokens(a: Tree, k: Test, b: Tree, e: Test, c: Tree)
    ensures Tokens(WhileUntil(a, k, b, e, c)) ==
            [TBegin] + Tokens(a) + [TWhile(k)] + Tokens(b) + [TUntil(e)] + Tokens(c) + [TThen]
  {}

  lemma UnfoldWhileUntilLayout(a: Tree, k: Test, b: Tree, e: Test, c: Tree, org: int)
    ensures var x := Layout(a, org);
            var y := Layout(b, org + |x| + 2);
            Layout(WhileUntil(a, k, b, e, c), org) ==
            LayWhileUntil(k, e, org, x, y, Layout(c, org + |x| + |y| + 4))
  {
    hide LayIf, LayIfElse, LayBack, LayWhile, LayWhileUntil, LayFor, LayDo;
  }

  lemma UnfoldFor(a: Tree, org: int)
    ensures Tokens(For(a)) == [TFor] + Tokens(a) + [TNext]
    ensures Layout(For(a), org) == LayFor(org, Layout(a, org + 3))
  {
    hide LayIf, LayIfElse, LayBack, LayWhile, LayWhileUntil, LayFor, LayDo;
  }

  lemma UnfoldDo(a: Tree, plus: bool, org: int)
    ensures Tokens(DoLoop(a, plus)) == [TDo] + Tokens(a) + [TLoop(plus)]
    ensures Layout(DoLoop(a, plus), org) == LayDo(plus, org, Layout(a, org + 2))
  {
    hide LayIf, LayIfElse, LayBack, LayWhile, LayWhileUntil, LayFor, LayDo;
  }

  ghost function Marks(p: int, q: int, x: set<int>, y: set<int>, z: set<int>): set<int> { {p, q} + x + y + z }

  /** The cells of t's code that hold branch targets. */
  ghost function Targets(t: Tree, org: int): set<int>
    decreases t
  {
    match t
    case Empty => {} case Word(p) => {} case Literal(v) => {} case CallWord(xt) => {}
    case Seq(a, b) => Targets(a, org) + Targets(b, org + |Layout(a, org)|)
    case If(k, a) => {org + 1} + Targets(a, org + 2)
    case IfElse(k, a, b) =>
      var n := |Layout(a, org + 2)|;
      {org + 1, org + n + 3} + Targets(a, org + 2) + Targets(b, org + n + 4)
    case Until(a, k) => {org + |Layout(a, org)| + 1} + Targets(a, org)
    case Again(a) => {org + |Layout(a, org)| + 1} + Targets(a, org)
    case While(a, k, b) =>
      var n := |Layout(a, org)|;
      var m := |Layout(b, org + n + 2)|;
      {org + n + 1, org + n + m + 3} + Targets(a, org) + Targets(b, org + n + 2)
    case WhileUntil(a, k, b, e, c) =>
      var n := |Layout(a, org)|;
      var m := |Layout(b, org + n + 2)|;
      Marks(org + n + 1, org + n + m + 3,
            Targets(a, org), Targets(b, org + n + 2), Targets(c, org + n + m + 4))
    case For(a) => {org + 1, org + |Layout(a, org + 3)| + 4} + Targets(a, org + 3)
    case DoLoop(a, plus) => {org + 1, org + |Layout(a, org + 2)| + 3} + Targets(a, org + 2)
  }

  // ----- the words produce the layout -----

  function EmitOn(c: Option<CState>, y: seq<Token>): Option<CState>
  {
    match c case None => None case Some(d) => EmitAll(y, d)
  }

  lemma {:induction false} EmitConcat(x: seq<Token>, y: seq<Token>, c: CState)
    ensures EmitAll(x + y, c) == EmitOn(EmitAll(x, c), y)
  {
    if x == [] {
      assert x + y == y;
    } else {
      assert (x + y)[1..] == x[1..] + y;
      match Emit(x[0], c)
      case None =>
      case Some(d) => EmitConcat(x[1..], y, d);
    }
  }

  /** The tokens x take the compiler from c to d. */
  ghost predicate Takes(x: seq<Token>, c: CState, d: CState) { EmitAll(x, c) == Some(d) }

  /** c with the layout of t appended. */
  ghost function Laid(t: Tree, c: CState): CState { c.(heap := c.heap + Layout(t, |c.heap|)) }

  lemma TakesToken(x: seq<Token>, k: Token, c: CState, d: CState, e: CState)
    requires Takes(x, c, d) && Emit(k, d) == Some(e)
    ensures Takes(x + [k], c, e)
  {
    EmitConcat(x, [k], c);
    TakesFirst(k, d, e);
  }

  lemma TakesFirst(k: Token, c: CState, d: CState)
    requires Emit(k, c) == Some(d)
    ensures Takes([k], c, d)
  {
    assert [k][1..] == [];
  }

  lemma TakesTree(x: seq<Token>, t: Tree, c: CState, d: CState)
    requires Takes(x, c, d) && Takes(Tokens(t), d, Laid(t, d))
    ensures Takes(x + Tokens(t), c, Laid(t, d))
  {
    EmitConcat(x, Tokens(t), c);
  }

  // Each token, on a heap h to which a marked cell and a compiled piece may have
  // been added since.

  lemma IfAt(h: seq<Cell>, s: seq<Cell>, k: Test)
    requires |h| + 2 < TWO63
    ensures Emit(TIf(k), CState(h, s)) == Some(CState(h + [Xt(TestPrim(k))] + [0], [|h| + 1] + s))
  {}

  lemma ThenAt(h: seq<Cell>, op: Cell, x: seq<Cell>, s: seq<Cell>)
    requires |h| + 2 + |x| < TWO63
    ensures Emit(TThen, CState(h + [op] + [0] + x, [|h| + 1] + s)) ==
            Some(CState(h + ([op, |h| + 2 + |x|] + x), s))
  {
    assert (h + [op] + [0] + x)[|h| + 1 := |h| + 2 + |x|] == h + ([op, |h| + 2 + |x|] + x);
  }

  lemma BackAt(h: seq<Cell>, op: Cell, dest: Cell, s: seq<Cell>)
    requires |h| + 2 < TWO63
    ensures BackResolve(CState(h + [op] + [0], [|h| + 1] + ([dest] + s))) == Some(CState(h + [op, dest], s))
  {
    assert (h + [op] + [0])[|h| + 1 := dest] == h + [op, dest];
    assert ([|h| + 1] + ([dest] + s))[2..] == s;
  }

  lemma SwapAt(h: seq<Cell>, u: Cell, v: Cell, s: seq<Cell>)
    ensures SwapTop(CState(h, [u] + ([v] + s))) == Some(CState(h, [v] + ([u] + s)))
  {
    assert [v, u] + ([u] + ([v] + s))[2..] == [v] + ([u] + s);
  }

  lemma ElseAt(h: seq<Cell>, op: Cell, x: seq<Cell>, s: seq<Cell>)
    requires |h| + 4 + |x| < TWO63
    ensures Emit(TElse, CState(h + [op] + [0] + x, [|h| + 1] + s)) ==
            Some(CState((h + ([op, |h| + |x| + 4] + x)) + [Xt(Branch)] + [0], [|h| + |x| + 3] + s))
  {
    var br := Xt(Branch);
    SwapAt(h + [op] + [0] + x + [br] + [0], |h| + |x| + 3, |h| + 1, s);
    assert h + [op] + [0] + x + [br] + [0] == h + [op] + [0] + (x + [br] + [0]);
    ThenAt(h, op, x + [br] + [0], [|h| + |x| + 3] + s);
    assert h + ([op, |h| + |x| + 4] + (x + [br] + [0])) == (h + ([op, |h| + |x| + 4] + x)) + [br] + [0];
  }

  lemma UntilAt(h: seq<Cell>, s: seq<Cell>, k: Test, dest: Cell)
    requires |h| + 2 < TWO63
    ensures Emit(TUntil(k), CState(h, [dest] + s)) == Some(CState(h + [Xt(TestPrim(k)), dest], s))
  {
    BackAt(h, Xt(TestPrim(k)), dest, s);
  }

  lemma AgainAt(h: seq<Cell>, s: seq<Cell>, dest: Cell)
    requires |h| + 2 < TWO63
    ensures Emit(TAgain, CState(h, [dest] + s)) == Some(CState(h + [Xt(Branch), dest], s))
  {
    BackAt(h, Xt(Branch), dest, s);
  }

  lemma WhileAt(h: seq<Cell>, s: seq<Cell>, k: Test, dest: Cell)
    requires |h| + 2 < TWO63
    ensures Emit(TWhile(k), CState(h, [dest] + s)) ==
            Some(CState(h + [Xt(TestPrim(k))] + [0], [dest] + ([|h| + 1] + s)))
  {
    SwapAt(h + [Xt(TestPrim(k))] + [0], |h| + 1, dest, s);
  }

  lemma RepeatAt(h: seq<Cell>, op: Cell, y: seq<Cell>, dest: Cell, s: seq<Cell>)
    requires |h| + |y| + 4 < TWO63
    ensures Emit(TRepeat, CState(h + [op] + [0] + y, [dest] + ([|h| + 1] + s))) ==
            Some(CState(h + ([op, |h| + |y| + 4] + (y + [Xt(Branch), dest])), s))
  {
    BackAt(h + [op] + [0] + y, Xt(Branch), dest, [|h| + 1] + s);
    assert h + [op] + [0] + y + [Xt(Branch), dest] == h + [op] + [0] + (y + [Xt(Branch), dest]);
    ThenAt(h, op, y + [Xt(Branch), dest], s);
  }

  lemma CloseLoopAt(h: seq<Cell>, entry: Cell, x: seq<Cell>, p: Prim, dest: Cell, s: seq<Cell>)
    requires |h| + |x| + 4 < TWO63
    ensures CloseLoop(CState(h + [entry] + [0] + x, [dest] + ([|h| + 1] + s)), p) ==
            Some(CState(h + ([entry, |h| + |x| + 4] + (x + [Xt(p), dest])), s))
  {
    BackAt(h + [entry] + [0] + x, Xt(p), dest, [|h| + 1] + s);
    assert h + [entry] + [0] + x + [Xt(p), dest] == h + [entry] + [0] + (x + [Xt(p), dest]);
    ThenAt(h, entry, x + [Xt(p), dest], s);
  }

  /** Compiling the tokens of a well-nested text appends exactly its layout and
      leaves the compile-time stack as it was. */
  lemma {:induction false} Compiles(t: Tree, c: CState)
    requires |c.heap| + |Layout(t, |c.heap|)| < TWO63
    ensures EmitAll(Tokens(t), c) == Some(c.(heap := c.heap + Layout(t, |c.heap|)))
  {
    assert Takes(Tokens(t), c, Laid(t, c)) by { Produces(t, c); }
  }

  lemma {:induction false} Produces(t: Tree, c: CState)
    requires |c.heap| + |Layout(t, |c.heap|)| < TWO63
    ensures Takes(Tokens(t), c, Laid(t, c))
    decreases t
  {
    hide EmitAll, Takes, Emit, Layout, Tokens;
    var org := |c.heap|;
    match t
    case Empty => ProducesLeaf(t, c);
    case Word(p) => ProducesLeaf(t, c);
    case Literal(v) => ProducesLeaf(t, c);
    case CallWord(xt) => ProducesLeaf(t, c);
    case Seq(a, b) =>
      UnfoldSeq(a, b, org);
      Produces(a, c);
      Produces(b, Laid(a, c));
      ProducesSeq(a, b, c);
    case If(k, a) =>
      UnfoldIf(k, a, org);
      Produces(a, OpenIf(c, k));
      ProducesIf(k, a, c);
    case IfElse(k, a, b) =>
      UnfoldIfElse(k, a, b, org);
      Produces(a, OpenIf(c, k));
      Produces(b, AfterElse(k, a, c));
      ProducesIfElse(k, a, b, c);
    case Until(a, k) =>
      UnfoldUntil(a, k, org);
      Produces(a, Begin(c));
      ProducesUntil(a, k, c);
    case Again(a) =>
      UnfoldAgain(a, org);
      Produces(a, Begin(c));
      ProducesAgain(a, c);
    case While(a, k, b) =>
      UnfoldWhile(a, k, b, org);
      Produces(a, Begin(c));
      Produces(b, AfterWhile(a, k, c));
      ProducesWhile(a, k, b, c);
    case WhileUntil(a, k, b, e, z) =>
      UnfoldWhileUntil(a, k, b, e, z, org);
      Produces(a, Begin(c));
      Produces(b, AfterWhile(a, k, c));
      Produces(z, AfterUntil(a, k, b, e, c));
      ProducesWhileUntil(a, k, b, e, z, c);
    case For(a) =>
      UnfoldFor(a, org);
      Produces(a, AfterFor(c));
      ProducesFor(a, c);
    case DoLoop(a, plus) =>
      UnfoldDo(a, plus, org);
      Produces(a, AfterDo(c));
      ProducesDo(a, plus, c);
  }

  lemma ProducesLeaf(t: Tree, c: CState)
    requires t.Empty? || t.Word? || t.Literal? || t.CallWord?
    ensures Takes(Tokens(t), c, Laid(t, c))
  {
    match t
    case Empty => assert c.heap + [] == c.heap;
    case Word(p) => TakesFirst(TWord(p), c, Laid(t, c));
    case Literal(v) =>
      assert (c.heap + [Xt(Lit)]) + [v] == c.heap + [Xt(Lit), v];
      TakesFirst(TLiteral(v), c, Laid(t, c));
    case CallWord(xt) => TakesFirst(TCall(xt), c, Laid(t, c));
  }

  lemma ProducesSeq(a: Tree, b: Tree, c: CState)
    requires Takes(Tokens(a), c, Laid(a, c))
    requires Takes(Tokens(b), Laid(a, c), Laid(b, Laid(a, c)))
    ensures Takes(Tokens(Seq(a, b)), c, Laid(Seq(a, b), c))
  {
    hide EmitAll, Takes, Emit, Layout, Tokens;
    UnfoldSeq(a, b, |c.heap|);
    var x := Layout(a, |c.heap|);
    assert (c.heap + x) + Layout(b, |c.heap| + |x|) == c.heap + (x + Layout(b, |c.heap| + |x|));
    TakesTree(Tokens(a), b, c, Laid(a, c));
  }

  lemma ProducesIf(k: Test, a: Tree, c: CState)
    requires |c.heap| + |Layout(If(k, a), |c.heap|)| < TWO63
    requires Takes(Tokens(a), OpenIf(c, k), Laid(a, OpenIf(c, k)))
    ensures Takes(Tokens(If(k, a)), c, Laid(If(k, a), c))
  {
    hide EmitAll, Takes, Emit, Layout, Tokens;
    UnfoldIf(k, a, |c.heap|);
    var d := OpenIf(c, k);
    IfAt(c.heap, c.stack, k);
    TakesFirst(TIf(k), c, d);
    TakesTree([TIf(k)], a, c, d);
    ThenAt(c.heap, Xt(TestPrim(k)), Layout(a, |c.heap| + 2), c.stack);
    TakesToken([TIf(k)] + Tokens(a), TThen, c, Laid(a, d), Laid(If(k, a), c));
  }

  /** The compiler inside if a else. */
  ghost function AfterElse(k: Test, a: Tree, c: CState): CState
  {
    var x := Layout(a, |c.heap| + 2);
    CState((c.heap + ([Xt(TestPrim(k)), Wrap(|c.heap| + |x| + 4)] + x)) + [Xt(Branch)] + [0],
           [Wrap(|c.heap| + |x| + 3)] + c.stack)
  }

  lemma ProducesIfElse(k: Test, a: Tree, b: Tree, c: CState)
    requires |c.heap| + |Layout(IfElse(k, a, b), |c.heap|)| < TWO63
    requires Takes(Tokens(a), OpenIf(c, k), Laid(a, OpenIf(c, k)))
    requires Takes(Tokens(b), AfterElse(k, a, c), Laid(b, AfterElse(k, a, c)))
    ensures Takes(Tokens(IfElse(k, a, b)), c, Laid(IfElse(k, a, b), c))
  {
    hide EmitAll, Takes, Emit, Layout, Tokens;
    UnfoldIfElse(k, a, b, |c.heap|);
    var h, s, op := c.heap, c.stack, Xt(TestPrim(k));
    var x := Layout(a, |h| + 2);
    var d, e := OpenIf(c, k), AfterElse(k, a, c);
    IfAt(h, s, k);
    TakesFirst(TIf(k), c, d);
    TakesTree([TIf(k)], a, c, d);
    ElseAt(h, op, x, s);
    TakesToken([TIf(k)] + Tokens(a), TElse, c, Laid(a, d), e);
    TakesTree([TIf(k)] + Tokens(a) + [TElse], b, c, e);
    var mid := |h| + |x| + 4;
    var y := Layout(b, mid);
    ThenAt(h + ([op, mid] + x), Xt(Branch), y, s);
    assert (h + ([op, mid] + x)) + ([Xt(Branch), mid + |y|] + y) ==
           h + ([op, mid] + x + [Xt(Branch), mid + |y|] + y);
    TakesToken([TIf(k)] + Tokens(a) + [TElse] + Tokens(b), TThen, c, Laid(b, e), Laid(IfElse(k, a, b), c));
  }

  lemma ProducesUntil(a: Tree, k: Test, c: CState)
    requires |c.heap| + |Layout(Until(a, k), |c.heap|)| < TWO63
    requires Takes(Tokens(a), Begin(c), Laid(a, Begin(c)))
    ensures Takes(Tokens(Until(a, k)), c, Laid(Until(a, k), c))
  {
    hide EmitAll, Takes, Layout, Tokens;
    UnfoldUntil(a, k, |c.heap|);
    var org := |c.heap|;
    var x := Layout(a, org);
    TakesFirst(TBegin, c, Begin(c));
    TakesTree([TBegin], a, c, Begin(c));
    UntilAt(c.heap + x, c.stack, k, org);
    assert (c.heap + x) + [Xt(TestPrim(k)), org] == c.heap + (x + [Xt(TestPrim(k)), org]);
    TakesToken([TBegin] + Tokens(a), TUntil(k), c, Laid(a, Begin(c)), Laid(Until(a, k), c));
  }

  lemma ProducesAgain(a: Tree, c: CState)
    requires |c.heap| + |Layout(Again(a), |c.heap|)| < TWO63
    requires Takes(Tokens(a), Begin(c), Laid(a, Begin(c)))
    ensures Takes(Tokens(Again(a)), c, Laid(Again(a), c))
  {
    hide EmitAll, Takes, Layout, Tokens;
    UnfoldAgain(a, |c.heap|);
    var org := |c.heap|;
    var x := Layout(a, org);
    TakesFirst(TBegin, c, Begin(c));
    TakesTree([TBegin], a, c, Begin(c));
    AgainAt(c.heap + x, c.stack, org);
    assert (c.heap + x) + [Xt(Branch), org] == c.heap + (x + [Xt(Branch), org]);
    TakesToken([TBegin] + Tokens(a), TAgain, c, Laid(a, Begin(c)), Laid(Again(a), c));
  }

  /** The compiler inside begin a while. */
  ghost function AfterWhile(a: Tree, k: Test, c: CState): CState
  {
    var x := Layout(a, |c.heap|);
    CState((c.heap + x) + [Xt(TestPrim(k))] + [0], [Wrap(|c.heap|)] + ([Wrap(|c.heap| + |x| + 1)] + c.stack))
  }

  /** begin a while b, with the while still to be resolved and the loop open. */
  lemma ProducesLoopHead(a: Tree, k: Test, b: Tree, c: CState)
    requires |c.heap| + |Layout(a, |c.heap|)| + 2 < TWO63
    requires Takes(Tokens(a), Begin(c), Laid(a, Begin(c)))
    requires Takes(Tokens(b), AfterWhile(a, k, c), Laid(b, AfterWhile(a, k, c)))
    ensures Takes([TBegin] + Tokens(a) + [TWhile(k)] + Tokens(b), c, Laid(b, AfterWhile(a, k, c)))
  {
    hide EmitAll, Takes, Layout, Tokens;
    var org := |c.heap|;
    TakesFirst(TBegin, c, Begin(c));
    TakesTree([TBegin], a, c, Begin(c));
    WhileAt(c.heap + Layout(a, org), c.stack, k, org);
    TakesToken([TBegin] + Tokens(a), TWhile(k), c, Laid(a, Begin(c)), AfterWhile(a, k, c));
    TakesTree([TBegin] + Tokens(a) + [TWhile(k)], b, c, AfterWhile(a, k, c));
  }

  lemma ProducesWhile(a: Tree, k: Test, b: Tree, c: CState)
    requires |c.heap| + |Layout(While(a, k, b), |c.heap|)| < TWO63
    requires Takes(Tokens(a), Begin(c), Laid(a, Begin(c)))
    requires Takes(Tokens(b), AfterWhile(a, k, c), Laid(b, AfterWhile(a, k, c)))
    ensures Takes(Tokens(While(a, k, b)), c, Laid(While(a, k, b), c))
  {
    hide EmitAll, Takes, Emit, Layout, Tokens;
    UnfoldWhile(a, k, b, |c.heap|);
    var h, org, op, br := c.heap, |c.heap|, Xt(TestPrim(k)), Xt(Branch);
    var x := Layout(a, org);
    var y := Layout(b, org + |x| + 2);
    ProducesLoopHead(a, k, b, c);
    RepeatAt(h + x, op, y, org, c.stack);
    var end := org + |x| + |y| + 4;
    assert (h + x) + ([op, end] + (y + [br, org])) == h + (x + [op, end] + y + [br, org]);
    TakesToken([TBegin] + Tokens(a) + [TWhile(k)] + Tokens(b), TRepeat, c,
               Laid(b, AfterWhile(a, k, c)), Laid(While(a, k, b), c));
  }

  /** The compiler inside begin a while b until. */
  ghost function AfterUntil(a: Tree, k: Test, b: Tree, e: Test, c: CState): CState
  {
    var x := Layout(a, |c.heap|);
    var y := Layout(b, |c.heap| + |x| + 2);
    CState((c.heap + x) + [Xt(TestPrim(k))] + [0] + (y + [Xt(TestPrim(e)), Wrap(|c.heap|)]),
           [Wrap(|c.heap| + |x| + 1)] + c.stack)
  }

  lemma ProducesWhileUntil(a: Tree, k: Test, b: Tree, e: Test, t: Tree, c: CState)
    requires |c.heap| + |Layout(WhileUntil(a, k, b, e, t), |c.heap|)| < TWO63
    requires Takes(Tokens(a), Begin(c), Laid(a, Begin(c)))
    requires Takes(Tokens(b), AfterWhile(a, k, c), Laid(b, AfterWhile(a, k, c)))
    requires Takes(Tokens(t), AfterUntil(a, k, b, e, c), Laid(t, AfterUntil(a, k, b, e, c)))
    ensures Takes(Tokens(WhileUntil(a, k, b, e, t)), c, Laid(WhileUntil(a, k, b, e, t), c))
  {
    hide EmitAll, Takes, Emit, Layout, Tokens;
    UnfoldWhileUntil(a, k, b, e, t, |c.heap|);
    var h, s, org, op, ope := c.heap, c.stack, |c.heap|, Xt(TestPrim(k)), Xt(TestPrim(e));
    var x := Layout(a, org);
    var y := Layout(b, org + |x| + 2);
    var z := Layout(t, org + |x| + |y| + 4);
    var head := [TBegin] + Tokens(a) + [TWhile(k)] + Tokens(b);
    ProducesLoopHead(a, k, b, c);
    UntilAt((h + x) + [op] + [0] + y, [org + |x| + 1] + s, e, org);
    assert (h + x) + [op] + [0] + y + [ope, org] == (h + x) + [op] + [0] + (y + [ope, org]);
    var g := AfterUntil(a, k, b, e, c);
    TakesToken(head, TUntil(e), c, Laid(b, AfterWhile(a, k, c)), g);
    TakesTree(head + [TUntil(e)], t, c, g);
    var end := org + |x| + |y| + |z| + 4;
    assert Laid(t, g).heap == (h + x) + [op] + [0] + (y + [ope, org] + z);
    ThenAt(h + x, op, y + [ope, org] + z, s);
    assert (h + x) + ([op, end] + (y + [ope, org] + z)) == h + (x + [op, end] + y + [ope, org] + z);
    TakesToken(head + [TUntil(e)] + Tokens(t), TThen, c, Laid(t, g), Laid(WhileUntil(a, k, b, e, t), c));
  }

  ghost function AfterFor(c: CState): CState { Begin(Compiling(OpenIf(c, QueryTest), ToR)) }

  lemma ProducesFor(a: Tree, c: CState)
    requires |c.heap| + |Layout(For(a), |c.heap|)| < TWO63
    requires Takes(Tokens(a), AfterFor(c), Laid(a, AfterFor(c)))
    ensures Takes(Tokens(For(a)), c, Laid(For(a), c))
  {
    hide EmitAll, Takes, Layout, Tokens, CloseLoop;
    UnfoldFor(a, |c.heap|);
    var h, org := c.heap, |c.heap|;
    var x := Layout(a, org + 3);
    TakesFirst(TFor, c, AfterFor(c));
    TakesTree([TFor], a, c, AfterFor(c));
    assert Laid(a, AfterFor(c)).heap == h + [Xt(Q0Branch)] + [0] + ([Xt(ToR)] + x);
    CloseLoopAt(h, Xt(Q0Branch), [Xt(ToR)] + x, Next, org + 3, c.stack);
    var end := org + |x| + 5;
    assert [Xt(Q0Branch), end] + (([Xt(ToR)] + x) + [Xt(Next), org + 3]) ==
           [Xt(Q0Branch), end, Xt(ToR)] + x + [Xt(Next), org + 3];
    TakesToken([TFor] + Tokens(a), TNext, c, Laid(a, AfterFor(c)), Laid(For(a), c));
  }

  ghost function AfterDo(c: CState): CState { Begin(Mark(Compiling(c, Do))) }

  lemma ProducesDo(a: Tree, plus: bool, c: CState)
    requires |c.heap| + |Layout(DoLoop(a, plus), |c.heap|)| < TWO63
    requires Takes(Tokens(a), AfterDo(c), Laid(a, AfterDo(c)))
    ensures Takes(Tokens(DoLoop(a, plus)), c, Laid(DoLoop(a, plus), c))
  {
    hide EmitAll, Takes, Layout, Tokens, CloseLoop;
    UnfoldDo(a, plus, |c.heap|);
    var h, org, p := c.heap, |c.heap|, LoopPrim(plus);
    var x := Layout(a, org + 2);
    TakesFirst(TDo, c, AfterDo(c));
    TakesTree([TDo], a, c, AfterDo(c));
    CloseLoopAt(h, Xt(Do), x, p, org + 2, c.stack);
    assert [Xt(Do), org + |x| + 4] + (x + [Xt(p), org + 2]) == [Xt(Do), org + |x| + 4] + x + [Xt(p), org + 2];
    TakesToken([TDo] + Tokens(a), TLoop(plus), c, Laid(a, AfterDo(c)), Laid(DoLoop(a, plus), c));
  }
}
