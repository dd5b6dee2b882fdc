/** From source text to running program: colon definitions compiled one after another,
    and executed by mu_execute. */
module Program {
  import opened Cells
  import opened Machine
  import opened Inner
  import opened Control
  import opened Structured
  import opened CompilerCorrect

  /** : name t ;  The name has been laid down already; : adds the code field, and ;
      compiles ^ after the text. */
  function Colon(t: Tree, c: CState): Option<CState>
  {
    match EmitAll(Tokens(t), Comma(c, Code(DoColon)))
    case None => None
    case Some(d) => Emit(TWord(Exit), d)
  }

  function DefinitionSize(t: Tree, org: int): nat { |Layout(t, org + 1)| + 2 }

  /** The environment after a name entry and a colon definition. */
  function Define(env: Env, name: seq<Cell>, t: Tree): Env
    requires |env.code| + |name| < TWO63
  {
    var xt := |env.code| + |name|;
    Env(env.program[xt := t], env.clauses,
        env.code + name + ([Code(DoColon)] + (Layout(t, xt + 1) + [Xt(Exit)])))
  }

  /** The compiling words build exactly that, and the program stays loaded. */
  lemma DefineLoaded(env: Env, name: seq<Cell>, t: Tree, stack: seq<Cell>)
    requires Loaded(env)
    requires |env.code| + |name| + DefinitionSize(t, |env.code| + |name|) < TWO63
    ensures Loaded(Define(env, name, t))
    ensures Colon(t, CState(env.code + name, stack)) == Some(CState(Define(env, name, t).code, stack))
  {
    hide EmitAll, Tokens, Layout, Placed, KernelLoaded;
    var xt := |env.code| + |name|;
    var h, x := env.code + name, Layout(t, xt + 1);
    var next := Define(env, name, t);
    Compiles(t, CState(h + [Code(DoColon)], stack));
    assert (h + [Code(DoColon)]) + x + [Xt(Exit)] == h + ([Code(DoColon)] + (x + [Xt(Exit)]));
    KernelStays(env.code, next.code);
    NewWordPlaced(env, name, t);
    forall w | w in next.program && w != xt
      ensures 0 < w < |next.code| && next.code[w] == Code(DoColon)
      ensures Placed(next, w + 1, Layout(next.program[w], w + 1) + [Xt(Exit)])
    {
      assert next.code[w] == env.code[w];
      PlacedStays(env, next, w + 1, Layout(env.program[w], w + 1) + [Xt(Exit)]);
    }
    forall a | a in next.clauses ensures Placed(next, a, Layout(next.clauses[a], a) + [Xt(Exit)]) {
      PlacedStays(env, next, a, Layout(env.clauses[a], a) + [Xt(Exit)]);
    }
  }

  lemma KernelStays(code: seq<Cell>, more: seq<Cell>)
    requires KernelLoaded(code) && code <= more
    ensures KernelLoaded(more) && |code| > 0
  {}

  lemma PlacedStays(env: Env, next: Env, org: int, c: seq<Cell>)
    requires Placed(env, org, c) && env.code <= next.code
    ensures Placed(next, org, c)
  {
    assert next.code[org..org + |c|] == env.code[org..org + |c|];
  }

  lemma NewWordPlaced(env: Env, name: seq<Cell>, t: Tree)
    requires |env.code| + |name| < TWO63
    ensures var xt := |env.code| + |name|;
            var next := Define(env, name, t);
            next.code[xt] == Code(DoColon) && Placed(next, xt + 1, Layout(t, xt + 1) + [Xt(Exit)])
  {
    hide Layout;
    var xt := |env.code| + |name|;
    var next := Define(env, name, t);
    var c := Layout(t, xt + 1) + [Xt(Exit)];
    assert next.code[xt + 1..xt + 1 + |c|] == c;
  }

  /** mu_execute on a word of the program. For every budget of CALLs the outcome is the one
      the structural evaluator gives: the word has returned with that data stack, that
      memory, those calls of outside routines and that much budget left, and with RP and IP
      as they were; or it is still running. */
  lemma ExecutesProgram(env: Env, xt: Cell, w: World, rs: seq<Cell>, ip: Cell, junk: Cell -> Cell, fuel: nat)
    requires Loaded(env) && Called(env, xt, w).Some? && w.rs == []
    ensures var s := State([xt] + w.ds, rs, env.code + w.data, ip, w.out, junk);
            var (text, _, start) := Called(env, xt, w).value;
            match EvalColon(env, text, start, fuel)
            case Ends(_, w1, left) =>
              NestedExecute(s, fuel + 1) == Done(State(w1.ds, rs, env.code + w1.data, ip, w1.out, junk), left)
            case Unfinished => NestedExecute(s, fuel + 1).Pending?
            case Undefined => true
  {
    hide Run, EvalColon, NestedExecute, Called, Loaded, Layout, Placed;
    var s := State([xt] + w.ds, rs, env.code + w.data, ip, w.out, junk);
    NestedIsFlat(s, fuel + 1);
    var s1 := s.(ds := w.ds);
    assert s.ds[1..] == w.ds;
    var (text, org, start) := Called(env, xt, w).value;
    var f := Frame([], ip, rs, junk);
    CalledPlaced(env, xt, w);
    var t := At(env, start, f, org);
    assert Call(xt, s1, fuel + 1) == Done(t, fuel) by { CallsWord(env, s1, xt, w, fuel); }
    KernelThere(env, s1);
    SimColon(env, text, org, start, f, |rs|, fuel);
    match EvalColon(env, text, start, fuel)
    case Ends(_, w1, left) => RunStops(|rs|, Returned(env, w1, f), left);
    case other =>
  }

  lemma CallsWord(env: Env, s: State, xt: Cell, w: World, fuel: nat)
    requires Loaded(env) && Called(env, xt, w).Some? && w.rs == []
    requires s == State(w.ds, s.rs, env.code + w.data, s.ip, w.out, s.junk)
    requires var (text, org, start) := Called(env, xt, w).value; 0 <= org < TWO63 && start.rs == []
    ensures var (text, org, start) := Called(env, xt, w).value;
            Call(xt, s, fuel + 1) == Done(At(env, start, Frame([], s.ip, s.rs, s.junk), org), fuel)
  {
    hide Layout, Placed;
    assert Fill([], []) == [];
    if xt in env.program { ColonCalled(env, xt, s); } else { DoesCalled(env, xt, w, s); }
  }

  lemma RunStops(saved: nat, s: State, fuel: nat)
    requires |s.rs| <= saved
    ensures Run(saved, s, fuel) == Done(s, fuel)
  {}

  // ----- branch targets -----

  /** Every marked cell of t's code holds an address inside that code, or its end. */
  ghost predicate Resolved(t: Tree, org: int)
  {
    forall p :: p in Targets(t, org) ==> ResolvedAt(Layout(t, org), org, p)
  }

  ghost predicate ResolvedAt(code: seq<Cell>, org: int, p: int)
  {
    org <= p < org + |code| && org <= code[p - org] <= org + |code|
  }

  /** A part's marked cells stay resolved inside the whole. */
  lemma PartResolved(x: seq<Cell>, part: int, code: seq<Cell>, org: int, p: int)
    requires org <= part && part + |x| <= org + |code| && code[part - org..part - org + |x|] == x
    requires ResolvedAt(x, part, p)
    ensures ResolvedAt(code, org, p)
  {
    assert x[p - part] == code[p - org];
  }

  lemma PartsResolved(t: Tree, part: int, code: seq<Cell>, org: int)
    requires Resolved(t, part)
    requires var x := Layout(t, part);
             org <= part && part + |x| <= org + |code| && code[part - org..part - org + |x|] == x
    ensures forall p :: p in Targets(t, part) ==> ResolvedAt(code, org, p)
  {
    hide Layout, Targets;
    forall p | p in Targets(t, part) ensures ResolvedAt(code, org, p) {
      PartResolved(Layout(t, part), part, code, org, p);
    }
  }

  /** Compiling a well-nested text leaves no branch unresolved. */
  lemma {:induction false} TargetsResolved(t: Tree, org: nat)
    requires org + |Layout(t, org)| < TWO63
    ensures Resolved(t, org)
    decreases t
  {
    hide Layout, Targets, Resolved, LayIf, LayIfElse, LayBack, LayWhile, LayWhileUntil, LayFor, LayDo;
    ShorterParts(t, org);
    match t
    case Empty => LeafResolved(t, org);
    case Word(p) => LeafResolved(t, org);
    case Literal(v) => LeafResolved(t, org);
    case CallWord(xt) => LeafResolved(t, org);
    case Seq(a, b) =>
      TargetsResolved(a, org);
      TargetsResolved(b, org + |Layout(a, org)|);
      SeqResolved(a, b, org);
    case If(k, a) =>
      TargetsResolved(a, org + 2);
      IfResolved(k, a, org);
    case IfElse(k, a, b) =>
      TargetsResolved(a, org + 2);
      TargetsResolved(b, org + |Layout(a, org + 2)| + 4);
      IfElseResolved(k, a, b, org);
    case Until(a, k) =>
      TargetsResolved(a, org);
      BackResolved(t, a, org);
    case Again(a) =>
      TargetsResolved(a, org);
      BackResolved(t, a, org);
    case While(a, k, b) =>
      TargetsResolved(a, org);
      TargetsResolved(b, org + |Layout(a, org)| + 2);
      WhileResolved(a, k, b, org);
    case WhileUntil(a, k, b, e, c) =>
      var n := |Layout(a, org)|;
      TargetsResolved(a, org);
      TargetsResolved(b, org + n + 2);
      TargetsResolved(c, org + n + |Layout(b, org + n + 2)| + 4);
      WhileUntilResolved(a, k, b, e, c, org);
    case For(a) =>
      TargetsResolved(a, org + 3);
      ForResolved(a, org);
    case DoLoop(a, plus) =>
      TargetsResolved(a, org + 2);
      DoResolved(a, plus, org);
  }

  /** The parts of a construct end before it does. */
  lemma ShorterParts(t: Tree, org: int)
    ensures match t
      case Seq(a, b) => |Layout(t, org)| == |Layout(a, org)| + |Layout(b, org + |Layout(a, org)|)|
      case If(k, a) => |Layout(t, org)| == |Layout(a, org + 2)| + 2
      case IfElse(k, a, b) =>
        var n := |Layout(a, org + 2)|;
        |Layout(t, org)| == n + |Layout(b, org + n + 4)| + 4
      case Until(a, k) => |Layout(t, org)| == |Layout(a, org)| + 2
      case Again(a) => |Layout(t, org)| == |Layout(a, org)| + 2
      case While(a, k, b) =>
        var n := |Layout(a, org)|;
        |Layout(t, org)| == n + |Layout(b, org + n + 2)| + 4
      case WhileUntil(a, k, b, e, c) =>
        var n := |Layout(a, org)|;
        var m := |Layout(b, org + n + 2)|;
        |Layout(t, org)| == n + m + |Layout(c, org + n + m + 4)| + 4
      case For(a) => |Layout(t, org)| == |Layout(a, org + 3)| + 5
      case DoLoop(a, plus) => |Layout(t, org)| == |Layout(a, org + 2)| + 4
      case other => true
  {
    hide Layout;
    match t
    case Seq(a, b) => UnfoldSeq(a, b, org);
    case If(k, a) => UnfoldIf(k, a, org);
    case IfElse(k, a, b) => UnfoldIfElse(k, a, b, org);
    case Until(a, k) => UnfoldUntil(a, k, org);
    case Again(a) => UnfoldAgain(a, org);
    case While(a, k, b) => UnfoldWhile(a, k, b, org);
    case WhileUntil(a, k, b, e, c) => UnfoldWhileUntil(a, k, b, e, c, org);
    case For(a) => UnfoldFor(a, org);
    case DoLoop(a, plus) => UnfoldDo(a, plus, org);
    case other =>
  }

  lemma LeafResolved(t: Tree, org: int)
    requires t.Empty? || t.Word? || t.Literal? || t.CallWord?
    ensures Resolved(t, org)
  {
    hide Layout;
  }

  lemma SeqResolved(a: Tree, b: Tree, org: nat)
    requires Resolved(a, org) && Resolved(b, org + |Layout(a, org)|)
    ensures Resolved(Seq(a, b), org)
  {
    hide Layout;
    UnfoldSeq(a, b, org);
    var code := Layout(Seq(a, b), org);
    PartsResolved(a, org, code, org);
    PartsResolved(b, org + |Layout(a, org)|, code, org);
  }

  // The constructs with one part.

  lemma IfResolved(k: Test, a: Tree, org: nat)
    requires Resolved(a, org + 2) && org + |Layout(If(k, a), org)| < TWO63
    ensures Resolved(If(k, a), org)
  {
    hide Layout;
    UnfoldIf(k, a, org);
    PartsResolved(a, org + 2, Layout(If(k, a), org), org);
  }

  lemma BackResolved(t: Tree, a: Tree, org: nat)
    requires (t.Until? || t.Again?) && t.a == a
    requires Resolved(a, org) && org + |Layout(t, org)| < TWO63
    ensures Resolved(t, org)
  {
    hide Layout;
    if t.Until? { UnfoldUntil(a, t.test, org); } else { UnfoldAgain(a, org); }
    PartsResolved(a, org, Layout(t, org), org);
  }

  lemma ForResolved(a: Tree, org: nat)
    requires Resolved(a, org + 3) && org + |Layout(For(a), org)| < TWO63
    ensures Resolved(For(a), org)
  {
    hide Layout;
    UnfoldFor(a, org);
    PartsResolved(a, org + 3, Layout(For(a), org), org);
  }

  lemma DoResolved(a: Tree, plus: bool, org: nat)
    requires Resolved(a, org + 2) && org + |Layout(DoLoop(a, plus), org)| < TWO63
    ensures Resolved(DoLoop(a, plus), org)
  {
    hide Layout;
    UnfoldDo(a, plus, org);
    PartsResolved(a, org + 2, Layout(DoLoop(a, plus), org), org);
  }

  lemma CutIfElse(k: Test, org: int, x: seq<Cell>, y: seq<Cell>)
    requires 0 <= org && org + |x| + |y| + 4 < TWO63
    ensures var c := LayIfElse(k, org, x, y);
            var n := |x|;
            |c| == n + |y| + 4 && c[2..n + 2] == x && c[n + 4..n + 4 + |y|] == y
            && c[1] == org + n + 4 && c[n + 3] == org + n + 4 + |y|
  {}

  lemma CutWhile(k: Test, org: int, x: seq<Cell>, y: seq<Cell>)
    requires 0 <= org && org + |x| + |y| + 4 < TWO63
    ensures var c := LayWhile(k, org, x, y);
            var n := |x|;
            |c| == n + |y| + 4 && c[0..n] == x && c[n + 2..n + 2 + |y|] == y
            && c[n + 1] == org + n + |y| + 4 && c[n + |y| + 3] == org
  {}

  lemma CutWhileUntil(k: Test, e: Test, org: int, x: seq<Cell>, y: seq<Cell>, z: seq<Cell>)
    requires 0 <= org && org + |x| + |y| + |z| + 4 < TWO63
    ensures var c := LayWhileUntil(k, e, org, x, y, z);
            var n, m := |x|, |y|;
            |c| == n + m + |z| + 4 && c[0..n] == x && c[n + 2..n + 2 + m] == y
            && c[n + m + 4..n + m + 4 + |z|] == z
            && c[n + 1] == org + n + m + |z| + 4 && c[n + m + 3] == org
  {}

  lemma IfElseResolved(k: Test, a: Tree, b: Tree, org: nat)
    requires Resolved(a, org + 2) && Resolved(b, org + |Layout(a, org + 2)| + 4)
    requires org + |Layout(IfElse(k, a, b), org)| < TWO63
    ensures Resolved(IfElse(k, a, b), org)
  {
    hide Layout, LayIfElse, Targets;
    UnfoldIfElse(k, a, b, org);
    ShorterParts(IfElse(k, a, b), org);
    var x := Layout(a, org + 2);
    CutIfElse(k, org, x, Layout(b, org + |x| + 4));
    var code := Layout(IfElse(k, a, b), org);
    PartsResolved(a, org + 2, code, org);
    PartsResolved(b, org + |x| + 4, code, org);
    assert ResolvedAt(code, org, org + 1) && ResolvedAt(code, org, org + |x| + 3);
    assert Targets(IfElse(k, a, b), org) ==
           {org + 1, org + |x| + 3} + Targets(a, org + 2) + Targets(b, org + |x| + 4)
    by { UnfoldTargets(k, a, b, org); }
  }

  lemma UnfoldTargets(k: Test, a: Tree, b: Tree, org: int)
    ensures var n := |Layout(a, org + 2)|;
            Targets(IfElse(k, a, b), org) ==
            {org + 1, org + n + 3} + Targets(a, org + 2) + Targets(b, org + n + 4)
  {
    hide Layout;
  }

  lemma WhileResolved(a: Tree, k: Test, b: Tree, org: nat)
    requires Resolved(a, org) && Resolved(b, org + |Layout(a, org)| + 2)
    requires org + |Layout(While(a, k, b), org)| < TWO63
    ensures Resolved(While(a, k, b), org)
  {
    hide Layout, LayWhile;
    UnfoldWhile(a, k, b, org);
    ShorterParts(While(a, k, b), org);
    var x := Layout(a, org);
    CutWhile(k, org, x, Layout(b, org + |x| + 2));
    var code := Layout(While(a, k, b), org);
    PartsResolved(a, org, code, org);
    PartsResolved(b, org + |x| + 2, code, org);
  }

  lemma {:induction false} MarksOfWhileUntil(t: Tree, org: int)
    requires t.WhileUntil?
    ensures var n := |Layout(t.a, org)|;
            var m := |Layout(t.b, org + n + 2)|;
            Targets(t, org) ==
            Marks(org + n + 1, org + n + m + 3,
                  Targets(t.a, org), Targets(t.b, org + n + 2), Targets(t.c, org + n + m + 4))
  {
    hide Layout, Marks;
  }

  lemma WhileUntilResolved(a: Tree, k: Test, b: Tree, e: Test, c: Tree, org: nat)
    requires var n := |Layout(a, org)|;
             Resolved(a, org) && Resolved(b, org + n + 2) && Resolved(c, org + n + |Layout(b, org + n + 2)| + 4)
    requires org + |Layout(WhileUntil(a, k, b, e, c), org)| < TWO63
    ensures Resolved(WhileUntil(a, k, b, e, c), org)
  {
    hide Layout, LayWhileUntil, Targets;
    UnfoldWhileUntil(a, k, b, e, c, org);
    ShorterParts(WhileUntil(a, k, b, e, c), org);
    var x := Layout(a, org);
    var y := Layout(b, org + |x| + 2);
    CutWhileUntil(k, e, org, x, y, Layout(c, org + |x| + |y| + 4));
    var code := Layout(WhileUntil(a, k, b, e, c), org);
    PartsResolved(a, org, code, org);
    PartsResolved(b, org + |x| + 2, code, org);
    PartsResolved(c, org + |x| + |y| + 4, code, org);
    MarksOfWhileUntil(WhileUntil(a, k, b, e, c), org);
  }
}
