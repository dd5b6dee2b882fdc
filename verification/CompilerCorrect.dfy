/** Compiled control structures mean what they say: running the layout of a tree on
    the virtual machine agrees with the structural evaluator, whatever way the tree
    ends, and also while it is still running. */
module CompilerCorrect {
  import opened Cells
  import opened Machine
  import opened Inner
  import opened Control
  import opened Structured

  /** The cells c stand at org in the code. */
  ghost predicate Placed(env: Env, org: int, c: seq<Cell>)
  {
    0 <= org && org + |c| <= |env.code| && env.code[org..org + |c|] == c
  }

  /** The program is loaded: kernel code fields, and each colon word and does> clause
      compiled. */
  ghost predicate Loaded(env: Env)
  {
    |env.code| < TWO63 && KernelLoaded(env.code)
    && (forall xt :: xt in env.program ==>
          0 < xt < |env.code| && env.code[xt] == Code(DoColon)
          && Placed(env, xt + 1, Layout(env.program[xt], xt + 1) + [Xt(Exit)]))
    && (forall a :: a in env.clauses ==> Placed(env, a, Layout(env.clauses[a], a) + [Xt(Exit)]))
  }

  /** The number of open do loops recorded in rs. */
  function Slots(rs: seq<RCell>): nat
  {
    if rs == [] then 0 else (if rs[0].LoopExit? then 1 else 0) + Slots(rs[1..])
  }

  /** rs as machine cells, with the exit addresses filled in, innermost loop first. */
  function Fill(rs: seq<RCell>, exits: seq<Cell>): (r: seq<Cell>)
    requires |exits| == Slots(rs)
    ensures |r| == |rs|
  {
    if rs == [] then []
    else match rs[0]
      case Num(c) => [c] + Fill(rs[1..], exits)
      case LoopExit => [exits[0]] + Fill(rs[1..], exits[1..])
  }

  /** Where the machine runs: exits of the open loops, the return address of the word
      and what lay below it, and unused memory. */
  datatype Frame = Frame(exits: seq<Cell>, ret: Cell, below: seq<Cell>, junk: Cell -> Cell)

  /** The machine state for w, about to execute the cell at ip. */
  ghost function At(env: Env, w: World, f: Frame, ip: int): State
    requires |f.exits| == Slots(w.rs) && 0 <= ip < TWO63
  {
    State(w.ds, Fill(w.rs, f.exits) + ([f.ret] + f.below), env.code + w.data, ip, w.out, f.junk)
  }

  /** The machine state once the word has returned. */
  ghost function Returned(env: Env, w: World, f: Frame): State
  {
    State(w.ds, f.below, env.code + w.data, f.ret, w.out, f.junk)
  }

  /** What the machine does for an outcome of a piece of code that ends before end. */
  ghost predicate Matches(env: Env, o: Outcome, f: Frame, end: int, saved: nat, s: State, fuel: nat)
    requires 0 <= end < TWO63
  {
    match o
    case Ends(Through, w, left) =>
      Slots(w.rs) == |f.exits| && Run(saved, s, fuel) == Run(saved, At(env, w, f, end), left)
    case Ends(Leaving, w, left) =>
      |f.exits| > 0 && Slots(w.rs) == |f.exits| - 1 && 0 <= f.exits[0]
      && Run(saved, s, fuel) == Run(saved, At(env, w, f.(exits := f.exits[1..]), f.exits[0]), left)
    case Ends(Exiting, w, left) =>
      w.rs == [] && Run(saved, s, fuel) == Run(saved, Returned(env, w, f), left)
    case Unfinished => Run(saved, s, fuel).Pending?
    case Undefined => true
  }

  // ----- single steps -----

  /** The machine is inside a word: above the bound, with p next. */
  ghost predicate Ready(env: Env, s: State, saved: nat, p: Prim)
  {
    Loaded(env) && env.code <= s.heap && |s.rs| > saved
    && 0 <= s.ip < |env.code| && env.code[s.ip] == Xt(p)
  }

  lemma KernelThere(env: Env, s: State)
    requires Loaded(env) && env.code <= s.heap
    ensures KernelLoaded(s.heap) && |env.code| < TWO63
  {
    hide Layout, Placed;
  }

  lemma Steps(env: Env, s: State, saved: nat, p: Prim, t: State, fuel: nat)
    requires Ready(env, s, saved, p) && !p.Execute?
    requires fuel > 0 ==> Routine(p, Xt(p) + 1, s.(ip := s.ip + 1)) == Some(t)
    ensures fuel > 0 ==> Run(saved, s, fuel) == Run(saved, t, fuel - 1)
    ensures fuel == 0 ==> Run(saved, s, fuel).Pending?
  {
    hide Routine, KernelLoaded, Loaded, Code, Decode;
    KernelThere(env, s);
    KernelWord(s.heap, p);
    assert AtIp(s) == Some(Xt(p));
    assert Call(Xt(p), Skip(s), fuel) ==
           if fuel == 0 then Pending(Xt(p), Skip(s)) else Lift(Routine(p, Xt(p) + 1, Skip(s)), fuel - 1);
  }

  // ----- the return stack -----

  lemma {:induction false} FillAt(rs: seq<RCell>, exits: seq<Cell>, i: nat)
    requires |exits| == Slots(rs) && i < |rs| && rs[i].Num?
    ensures Fill(rs, exits)[i] == rs[i].c
  {
    if i > 0 {
      FillAt(rs[1..], if rs[0].LoopExit? then exits[1..] else exits, i - 1);
    }
  }

  lemma FillPush(v: Cell, rs: seq<RCell>, exits: seq<Cell>)
    requires |exits| == Slots(rs)
    ensures Slots([Num(v)] + rs) == Slots(rs)
    ensures Fill([Num(v)] + rs, exits) == [v] + Fill(rs, exits)
  {
    assert ([Num(v)] + rs)[1..] == rs;
  }

  lemma FillPop(rs: seq<RCell>, exits: seq<Cell>)
    requires |exits| == Slots(rs) && TopNums(rs, 1)
    ensures Slots(rs[1..]) == Slots(rs)
    ensures Fill(rs, exits) == [rs[0].c] + Fill(rs[1..], exits)
  {}

  lemma FillOpen(index: Cell, limit: Cell, exit: Cell, rs: seq<RCell>, exits: seq<Cell>)
    requires |exits| == Slots(rs)
    ensures Slots([Num(index), Num(limit), LoopExit] + rs) == Slots(rs) + 1
    ensures Fill([Num(index), Num(limit), LoopExit] + rs, [exit] + exits) ==
            [index, limit, exit] + Fill(rs, exits)
  {
    var r := [LoopExit] + rs;
    assert r[1..] == rs && ([exit] + exits)[1..] == exits;
    assert Fill(r, [exit] + exits) == [exit] + Fill(rs, exits);
    FillPush(limit, r, [exit] + exits);
    FillPush(index, [Num(limit)] + r, [exit] + exits);
    assert [Num(index)] + ([Num(limit)] + r) == [Num(index), Num(limit), LoopExit] + rs;
    assert [index] + ([limit] + ([exit] + Fill(rs, exits))) == [index, limit, exit] + Fill(rs, exits);
  }

  lemma FillLoop(rs: seq<RCell>, exits: seq<Cell>)
    requires |exits| == Slots(rs) && TopLoop(rs)
    ensures |exits| > 0 && Slots(rs[3..]) == |exits| - 1
    ensures Fill(rs, exits) == [rs[0].c, rs[1].c, exits[0]] + Fill(rs[3..], exits[1..])
  {
    assert rs[1..][1..] == rs[2..] && rs[2..][1..] == rs[3..];
    assert Slots(rs[2..]) == 1 + Slots(rs[3..]);
    assert Slots(rs[1..]) == Slots(rs[2..]);
    assert [exits[0]] + exits[1..] == exits;
    assert [rs[0], rs[1], rs[2]] + rs[3..] == rs;
    FillOpen(rs[0].c, rs[1].c, exits[0], rs[3..], exits[1..]);
  }

  // ----- kernel words -----

  /** A kernel word to which the evaluator gives a meaning does just that. */
  lemma SimpleRuns(env: Env, p: Prim, w: World, w1: World, f: Frame, ip: int)
    requires Simple(env, p, w) == Some(w1) && |f.exits| == Slots(w.rs) && 0 <= ip < TWO63
    ensures !p.Execute? && Slots(w1.rs) == |f.exits|
    ensures Routine(p, Xt(p) + 1, At(env, w, f, ip)) == Some(At(env, w1, f, ip))
  {
    hide Fill, Slots, Code, Routine, At;
    if IsAlu(p) {
      AluRuns(env, p, w, w1, f, ip);
    } else if p.Action1? || p.Action2? {
      ActionRuns(env, p, w, w1, f, ip);
    } else if p.Fetch? || p.Store? || p.PlusStore? {
      MemoryRuns(env, p, w, w1, f, ip);
    } else if p.LoopI? || p.LoopJ? || p.LoopK? {
      IndexRuns(env, p, w, w1, f, ip);
    } else if p.TwoToR? {
      TwoPushed(env, w, w1, f, ip);
    } else if p.TwoRFrom? || p.TwoRFetch? || p.TwoRDrop? {
      TwoTaken(env, p, w, w1, f, ip);
    } else {
      ReturnStackRuns(env, p, w, w1, f, ip);
    }
  }

  lemma TwoPushed(env: Env, w: World, w1: World, f: Frame, ip: int)
    requires Simple(env, TwoToR, w) == Some(w1) && |f.exits| == Slots(w.rs) && 0 <= ip < TWO63
    ensures Slots(w1.rs) == |f.exits|
    ensures Routine(TwoToR, Xt(TwoToR) + 1, At(env, w, f, ip)) == Some(At(env, w1, f, ip))
  {
    hide Fill, Slots, Code;
    var fill, base := Fill(w.rs, f.exits), [f.ret] + f.below;
    var one := [Num(w.ds[1])] + w.rs;
    FillPush(w.ds[1], w.rs, f.exits);
    FillPush(w.ds[0], one, f.exits);
    assert [Num(w.ds[0])] + one == w1.rs;
    assert [w.ds[0], w.ds[1]] + (fill + base) == Fill(w1.rs, f.exits) + base;
  }

  lemma TwoTaken(env: Env, p: Prim, w: World, w1: World, f: Frame, ip: int)
    requires p.TwoRFrom? || p.TwoRFetch? || p.TwoRDrop?
    requires Simple(env, p, w) == Some(w1) && |f.exits| == Slots(w.rs) && 0 <= ip < TWO63
    ensures Slots(w1.rs) == |f.exits|
    ensures Routine(p, Xt(p) + 1, At(env, w, f, ip)) == Some(At(env, w1, f, ip))
  {
    hide Fill, Slots, Code;
    var fill, base := Fill(w.rs, f.exits), [f.ret] + f.below;
    FillPop(w.rs, f.exits);
    FillPop(w.rs[1..], f.exits);
    assert w.rs[1..][1..] == w.rs[2..];
    assert (fill + base)[2..] == Fill(w.rs[2..], f.exits) + base;
  }

  lemma AluRuns(env: Env, p: Prim, w: World, w1: World, f: Frame, ip: int)
    requires IsAlu(p)
    requires Simple(env, p, w) == Some(w1) && |f.exits| == Slots(w.rs) && 0 <= ip < TWO63
    ensures Slots(w1.rs) == |f.exits|
    ensures Routine(p, Xt(p) + 1, At(env, w, f, ip)) == Some(At(env, w1, f, ip))
  {
    hide Fill, Slots, Alu, Code, IsAlu;
  }

  lemma ActionRuns(env: Env, p: Prim, w: World, w1: World, f: Frame, ip: int)
    requires p.Action1? || p.Action2?
    requires Simple(env, p, w) == Some(w1) && |f.exits| == Slots(w.rs) && 0 <= ip < TWO63
    ensures Slots(w1.rs) == |f.exits|
    ensures Routine(p, Xt(p) + 1, At(env, w, f, ip)) == Some(At(env, w1, f, ip))
  {
    hide Fill, Slots, Alu;
  }

  lemma ReturnStackRuns(env: Env, p: Prim, w: World, w1: World, f: Frame, ip: int)
    requires p.ToR? || p.RFrom? || p.RFetch? || p.RDrop?
    requires Simple(env, p, w) == Some(w1) && |f.exits| == Slots(w.rs) && 0 <= ip < TWO63
    ensures Slots(w1.rs) == |f.exits|
    ensures Routine(p, Xt(p) + 1, At(env, w, f, ip)) == Some(At(env, w1, f, ip))
  {
    hide Fill, Slots, Code;
    var fill, base := Fill(w.rs, f.exits), [f.ret] + f.below;
    if p.ToR? {
      FillPush(w.ds[0], w.rs, f.exits);
      assert [w.ds[0]] + fill + base == [w.ds[0]] + (fill + base);
    } else {
      FillPop(w.rs, f.exits);
      assert (fill + base)[1..] == Fill(w.rs[1..], f.exits) + base;
    }
  }

  lemma IndexRuns(env: Env, p: Prim, w: World, w1: World, f: Frame, ip: int)
    requires p.LoopI? || p.LoopJ? || p.LoopK?
    requires Simple(env, p, w) == Some(w1) && |f.exits| == Slots(w.rs) && 0 <= ip < TWO63
    ensures Slots(w1.rs) == |f.exits|
    ensures Routine(p, Xt(p) + 1, At(env, w, f, ip)) == Some(At(env, w1, f, ip))
  {
    hide Fill, Slots, Code;
    var k := if p.LoopI? then 0 else if p.LoopJ? then 3 else 6;
    FillAt(w.rs, f.exits, k);
    FillAt(w.rs, f.exits, k + 1);
  }

  lemma MemoryRuns(env: Env, p: Prim, w: World, w1: World, f: Frame, ip: int)
    requires p.Fetch? || p.Store? || p.PlusStore?
    requires Simple(env, p, w) == Some(w1) && |f.exits| == Slots(w.rs) && 0 <= ip < TWO63
    ensures Slots(w1.rs) == |f.exits|
    ensures Routine(p, Xt(p) + 1, At(env, w, f, ip)) == Some(At(env, w1, f, ip))
  {
    hide Fill, Slots, Code;
    var a := w.ds[0];
    if !p.Fetch? {
      var v := if p.Store? then w.ds[1] else Add((env.code + w.data)[a], w.ds[1]);
      assert (env.code + w.data)[a := v] == env.code + w.data[a - |env.code| := v];
    }
  }

  // ----- placing code -----

  lemma SplitPlaced(env: Env, org: int, x: seq<Cell>, y: seq<Cell>)
    requires Placed(env, org, x + y)
    ensures Placed(env, org, x) && Placed(env, org + |x|, y)
  {
    var c := env.code;
    assert c[org..org + |x|] == c[org..org + |x + y|][..|x|] == x;
    assert c[org + |x|..org + |x| + |y|] == c[org..org + |x + y|][|x|..] == y;
  }

  lemma PlacedPair(env: Env, org: int, a: Cell, b: Cell)
    requires Placed(env, org, [a, b])
    ensures env.code[org] == a && env.code[org + 1] == b
  {
    var c := env.code[org..org + 2];
    assert c[0] == a && c[1] == b;
  }

  lemma PlacedIfElse(env: Env, k: Test, org: int, x: seq<Cell>, y: seq<Cell>)
    requires Loaded(env) && Placed(env, org, LayIfElse(k, org, x, y))
    ensures var mid := org + |x| + 4;
            |LayIfElse(k, org, x, y)| == |x| + |y| + 4
            && Placed(env, org, [Xt(TestPrim(k)), mid]) && Placed(env, org + 2, x)
            && Placed(env, mid - 2, [Xt(Branch), mid + |y|]) && Placed(env, mid, y)
  {
    var mid := org + |x| + 4;
    SplitPlaced(env, org, [Xt(TestPrim(k)), mid] + x + [Xt(Branch), mid + |y|], y);
    SplitPlaced(env, org, [Xt(TestPrim(k)), mid] + x, [Xt(Branch), mid + |y|]);
    SplitPlaced(env, org, [Xt(TestPrim(k)), mid], x);
  }

  lemma PlacedWhile(env: Env, k: Test, org: int, x: seq<Cell>, y: seq<Cell>)
    requires Loaded(env) && Placed(env, org, LayWhile(k, org, x, y))
    ensures var end := org + |x| + |y| + 4;
            |LayWhile(k, org, x, y)| == |x| + |y| + 4
            && Placed(env, org, x) && Placed(env, org + |x|, [Xt(TestPrim(k)), end])
            && Placed(env, org + |x| + 2, y) && Placed(env, end - 2, [Xt(Branch), org])
  {
    var end := org + |x| + |y| + 4;
    SplitPlaced(env, org, x + [Xt(TestPrim(k)), end] + y, [Xt(Branch), org]);
    SplitPlaced(env, org, x + [Xt(TestPrim(k)), end], y);
    SplitPlaced(env, org, x, [Xt(TestPrim(k)), end]);
  }

  lemma PlacedWhileUntil(env: Env, k: Test, e: Test, org: int, x: seq<Cell>, y: seq<Cell>, z: seq<Cell>)
    requires Loaded(env) && Placed(env, org, LayWhileUntil(k, e, org, x, y, z))
    ensures var mid := org + |x| + |y| + 4;
            |LayWhileUntil(k, e, org, x, y, z)| == |x| + |y| + |z| + 4
            && Placed(env, org, x) && Placed(env, org + |x|, [Xt(TestPrim(k)), mid + |z|])
            && Placed(env, org + |x| + 2, y) && Placed(env, mid - 2, [Xt(TestPrim(e)), org])
            && Placed(env, mid, z)
  {
    var mid := org + |x| + |y| + 4;
    SplitPlaced(env, org, x + [Xt(TestPrim(k)), mid + |z|] + y + [Xt(TestPrim(e)), org], z);
    SplitPlaced(env, org, x + [Xt(TestPrim(k)), mid + |z|] + y, [Xt(TestPrim(e)), org]);
    SplitPlaced(env, org, x + [Xt(TestPrim(k)), mid + |z|], y);
    SplitPlaced(env, org, x, [Xt(TestPrim(k)), mid + |z|]);
  }

  // ----- tests and branches -----

  /** The common ground of the lemmas below. */
  ghost predicate Running(env: Env, w: World, f: Frame, saved: nat)
  {
    Loaded(env) && |env.code| < TWO63 && |f.exits| == Slots(w.rs) && saved <= |f.below| &&
           (forall e :: e in f.exits ==> 0 <= e)
  }

  lemma TestRuns(env: Env, k: Test, w: World, f: Frame, ip: int, dest: Cell, saved: nat, fuel: nat)
    requires Running(env, w, f, saved) && 0 <= dest
    requires Placed(env, ip, [Xt(TestPrim(k)), dest])
    ensures fuel == 0 ==> Run(saved, At(env, w, f, ip), fuel).Pending?
    ensures fuel > 0 && TestTop(k, w).Some? ==>
              var (zero, w1) := TestTop(k, w).value;
              w1.rs == w.rs
              && Run(saved, At(env, w, f, ip), fuel) ==
                 Run(saved, At(env, w1, f, if zero then dest else ip + 2), fuel - 1)
  {
    hide Fill, Slots, Run, Code;
    PlacedPair(env, ip, Xt(TestPrim(k)), dest);
    var s := At(env, w, f, ip);
    assert s.heap[ip] == env.code[ip] && s.heap[ip + 1] == env.code[ip + 1];
    match TestTop(k, w)
    case None => Steps(env, s, saved, TestPrim(k), s, 0);
    case Some((zero, w1)) =>
      Steps(env, s, saved, TestPrim(k), At(env, w1, f, if zero then dest else ip + 2), fuel);
  }

  lemma BranchRuns(env: Env, w: World, f: Frame, ip: int, dest: Cell, saved: nat, fuel: nat)
    requires Running(env, w, f, saved) && 0 <= dest
    requires Placed(env, ip, [Xt(Branch), dest])
    ensures fuel == 0 ==> Run(saved, At(env, w, f, ip), fuel).Pending?
    ensures fuel > 0 ==> Run(saved, At(env, w, f, ip), fuel) == Run(saved, At(env, w, f, dest), fuel - 1)
  {
    hide Fill, Slots, Run, Code;
    PlacedPair(env, ip, Xt(Branch), dest);
    var s := At(env, w, f, ip);
    assert s.heap[ip] == env.code[ip] && s.heap[ip + 1] == env.code[ip + 1];
    Steps(env, s, saved, Branch, At(env, w, f, dest), fuel);
  }

  // ----- the simulation -----

  /** Compiled code and evaluator agree, for every tree and every budget. */
  lemma {:induction false} Simulates(env: Env, t: Tree, org: int, w: World, f: Frame, saved: nat, fuel: nat)
    requires Running(env, w, f, saved) && Placed(env, org, Layout(t, org))
    ensures Matches(env, Eval(env, t, w, fuel), f, org + |Layout(t, org)|, saved, At(env, w, f, org), fuel)
    decreases fuel, Weight(t), 2
  {
    hide Run, Fill, Slots, Layout, Eval, At, Loaded;
    match t
    case Empty => assert Layout(t, org) == [] &&
           Eval(env, t, w, fuel) == Ends(Through, w, fuel) by { UnfoldEmpty(env, org, w, fuel); }
    case Word(p) => SimWord(env, p, org, w, f, saved, fuel);
    case Literal(v) => SimLiteral(env, v, org, w, f, saved, fuel);
    case CallWord(xt) => SimCall(env, xt, org, w, f, saved, fuel);
    case Seq(a, b) => SimSeq(env, a, b, org, w, f, saved, fuel);
    case If(k, a) => SimIf(env, k, a, org, w, f, saved, fuel);
    case IfElse(k, a, b) => SimIfElse(env, k, a, b, org, w, f, saved, fuel);
    case Until(a, k) => SimUntil(env, a, k, org, w, f, saved, fuel);
    case Again(a) => SimAgain(env, a, org, w, f, saved, fuel);
    case While(a, k, b) => SimWhile(env, a, k, b, org, w, f, saved, fuel);
    case WhileUntil(a, k, b, e, c) => SimWhileUntil(env, a, k, b, e, c, org, w, f, saved, fuel);
    case For(a) => SimFor(env, a, org, w, f, saved, fuel);
    case DoLoop(a, plus) => SimDo(env, a, plus, org, w, f, saved, fuel);
  }

  lemma UnfoldEmpty(env: Env, org: int, w: World, fuel: nat)
    ensures Layout(Empty, org) == [] && Eval(env, Empty, w, fuel) == Ends(Through, w, fuel)
  {}

  lemma {:induction false} SimWord(env: Env, p: Prim, org: int, w: World, f: Frame, saved: nat, fuel: nat)
    requires Running(env, w, f, saved) && Placed(env, org, Layout(Word(p), org))
    ensures Matches(env, Eval(env, Word(p), w, fuel), f, org + |Layout(Word(p), org)|, saved, At(env, w, f, org), fuel)
    decreases fuel, Weight(Word(p)), 1
  {
    hide Run, Fill, Slots, Code, EvalWord, EvalExecute, Loaded, At, Matches;
    assert Layout(Word(p), org) == [Xt(p)];
    assert env.code[org] == env.code[org..org + 1][0] == Xt(p);
    if p.Execute? {
      SimExecute(env, org, w, f, saved, fuel);
    } else {
      SimPlain(env, p, org, w, f, saved, fuel);
    }
  }

  /** A routine called by the machine, in whatever way it got there, does what the word means. */
  lemma RoutineMatches(env: Env, p: Prim, ip: int, w: World, f: Frame, saved: nat, fuel: nat, s: State, budget: nat)
    requires Running(env, w, f, saved) && !p.Execute? && 0 <= ip <= |env.code| && fuel > 0
    requires Run(saved, s, budget) == Resume(saved, Call(Xt(p), At(env, w, f, ip), fuel))
    ensures Matches(env, EvalWord(env, p, w, fuel), f, ip, saved, s, budget)
  {
    hide Run, Fill, Slots, Code, Call, Loaded, Simple, Routine, At;
    KernelCalled(env, p, w, f, ip, fuel);
    if p.Exit? || p.Leave? || p.QLeave? {
      LeaverRuns(env, p, ip, w, f, saved, fuel);
    } else if Simple(env, p, w).Some? {
      SimpleRuns(env, p, w, Simple(env, p, w).value, f, ip);
    }
  }

  lemma KernelCalled(env: Env, p: Prim, w: World, f: Frame, ip: int, fuel: nat)
    requires Loaded(env) && |f.exits| == Slots(w.rs) && !p.Execute? && 0 <= ip < TWO63 && fuel > 0
    ensures Call(Xt(p), At(env, w, f, ip), fuel) == Lift(Routine(p, Xt(p) + 1, At(env, w, f, ip)), fuel - 1)
  {
    hide Fill, Slots, Code, Loaded, Routine, KernelLoaded, Decode;
    var s := At(env, w, f, ip);
    KernelThere(env, s);
    KernelWord(s.heap, p);
  }

  lemma SimPlain(env: Env, p: Prim, org: int, w: World, f: Frame, saved: nat, fuel: nat)
    requires Running(env, w, f, saved) && !p.Execute?
    requires 0 <= org < |env.code| && env.code[org] == Xt(p)
    ensures Matches(env, if fuel == 0 then Unfinished else EvalWord(env, p, w, fuel), f, org + 1,
                    saved, At(env, w, f, org), fuel)
  {
    hide Run, Fill, Slots, Code, Call, Loaded, EvalWord, At;
    if fuel == 0 {
      CallPending(env, Xt(p), w, f, org, saved);
    } else {
      CellCalls(env, Xt(p), w, f, org, saved, fuel);
      RoutineMatches(env, p, org + 1, w, f, saved, fuel, At(env, w, f, org), fuel);
    }
  }

  /** execute goes straight to the routine of what is on the stack. */
  lemma ExecuteCalls(env: Env, ip: int, w: World, f: Frame, saved: nat, fuel: nat)
    requires Running(env, w, f, saved) && 0 < ip <= |env.code| && |w.ds| > 0 && fuel > 0
    ensures Call(Xt(Execute), At(env, w, f, ip), fuel) ==
            Call(w.ds[0], At(env, w.(ds := w.ds[1..]), f, ip), fuel - 1)
  {
    hide Fill, Slots, Code, KernelLoaded, Loaded, Routine, Decode;
    var s := At(env, w, f, ip);
    KernelThere(env, s);
    KernelWord(s.heap, Execute);
  }

  lemma {:induction false} SimExecute(env: Env, org: int, w: World, f: Frame, saved: nat, fuel: nat)
    requires Running(env, w, f, saved) && 0 <= org < |env.code| && env.code[org] == Xt(Execute)
    ensures Matches(env, if fuel == 0 then Unfinished else EvalExecute(env, w, fuel), f, org + 1,
                    saved, At(env, w, f, org), fuel)
    decreases fuel, 0, 2
  {
    hide Run, Fill, Slots, Code, Call, Loaded, At, EvalExecute;
    if fuel == 0 {
      CallPending(env, Xt(Execute), w, f, org, saved);
    } else {
      CellCalls(env, Xt(Execute), w, f, org, saved, fuel);
      ExecuteMatches(env, org + 1, w, f, saved, fuel, At(env, w, f, org), fuel);
    }
  }

  /** execute called by the machine, in whatever way it got there. */
  lemma {:induction false} ExecuteMatches(env: Env, ip: int, w: World, f: Frame, saved: nat, fuel: nat, s: State,
                                          budget: nat)
    requires Running(env, w, f, saved) && 0 < ip <= |env.code| && fuel > 0
    requires Run(saved, s, budget) == Resume(saved, Call(Xt(Execute), At(env, w, f, ip), fuel))
    ensures Matches(env, EvalExecute(env, w, fuel), f, ip, saved, s, budget)
    decreases fuel, 0, 1
  {
    hide Run, Fill, Slots, Code, Call, Loaded, EvalWord, At, EvalCall, Called;
    if |w.ds| > 0 {
      ExecuteCalls(env, ip, w, f, saved, fuel);
      var xt, w1 := w.ds[0], w.(ds := w.ds[1..]);
      if fuel == 1 {
        NoCall(xt, At(env, w1, f, ip), saved);
      } else if 1 <= xt <= CODES {
        if Decode(xt).Some? {
          DecodeOnly(xt);
          if Decode(xt).value.Execute? {
            ExecuteMatches(env, ip, w1, f, saved, fuel - 1, s, budget);
          } else {
            RoutineMatches(env, Decode(xt).value, ip, w1, f, saved, fuel - 1, s, budget);
          }
        }
      } else {
        SimCalled(env, xt, ip, w1, f, saved, fuel - 1, s, budget);
      }
    }
  }

  lemma NoCall(xt: Cell, s: State, saved: nat)
    ensures Resume(saved, Call(xt, s, 0)).Pending?
  {}

  lemma DecodeOnly(xt: Cell)
    requires 1 <= xt <= CODES && Decode(xt).Some?
    ensures Code(Decode(xt).value) == xt
  {
    hide DecodeControl, DecodeMemory, DecodeKernel, Code;
    DecodeControlOnly(xt);
    DecodeMemoryOnly(xt);
    DecodeKernelOnly(xt);
  }

  lemma DecodeControlOnly(c: Cell)
    ensures DecodeControl(c).Some? ==> Code(DecodeControl(c).value) == c
  {}

  lemma DecodeMemoryOnly(c: Cell)
    ensures DecodeMemory(c).Some? ==> Code(DecodeMemory(c).value) == c
  {}

  lemma DecodeKernelOnly(c: Cell)
    ensures DecodeKernel(c).Some? ==> Code(DecodeKernel(c).value) == c
  {}

  /** What a routine makes of the machine, for an outcome that leaves this much budget. */
  ghost predicate Goes(env: Env, o: Outcome, t: Option<State>, f: Frame, ip: int, budget: int)
    requires 0 <= ip < TWO63
  {
    match o
    case Ends(Through, w, left) => left == budget && Slots(w.rs) == |f.exits| && t == Some(At(env, w, f, ip))
    case Ends(Leaving, w, left) =>
      left == budget && |f.exits| > 0 && Slots(w.rs) == |f.exits| - 1 && 0 <= f.exits[0]
      && t == Some(At(env, w, f.(exits := f.exits[1..]), f.exits[0]))
    case Ends(Exiting, w, left) => left == budget && w.rs == [] && t == Some(Returned(env, w, f))
    case other => true
  }

  /** The words that leave, as routines. */
  lemma LeaverRuns(env: Env, p: Prim, ip: int, w: World, f: Frame, saved: nat, fuel: nat)
    requires Running(env, w, f, saved) && p in {Exit, Leave, QLeave} && 0 <= ip < TWO63 && fuel > 0
    ensures Goes(env, EvalWord(env, p, w, fuel), Routine(p, Xt(p) + 1, At(env, w, f, ip)), f, ip, fuel - 1)
  {
    hide Run, Fill, Slots, Code, Simple, Loaded;
    var base := [f.ret] + f.below;
    if p.Exit? {
      if w.rs == [] {
        assert Fill(w.rs, f.exits) + base == base by { assert |Fill(w.rs, f.exits)| == 0; }
        assert base[1..] == f.below;
      }
    } else if TopLoop(w.rs) {
      FillLoop(w.rs, f.exits);
      var top := [w.rs[0].c, w.rs[1].c, f.exits[0]];
      var rest := Fill(w.rs[3..], f.exits[1..]);
      assert top + rest + base == top + (rest + base);
      assert (top + (rest + base))[3..] == rest + base;
      assert f.exits[0] in f.exits;
    }
  }

  lemma SimLeavers(env: Env, p: Prim, org: int, w: World, f: Frame, saved: nat, fuel: nat)
    requires Running(env, w, f, saved) && p in {Exit, Leave, QLeave}
    requires 0 <= org < |env.code| && env.code[org] == Xt(p)
    ensures Matches(env, if fuel == 0 then Unfinished else EvalWord(env, p, w, fuel), f, org + 1,
                    saved, At(env, w, f, org), fuel)
  {
    SimPlain(env, p, org, w, f, saved, fuel);
  }

  lemma SimLiteral(env: Env, v: Cell, org: int, w: World, f: Frame, saved: nat, fuel: nat)
    requires Running(env, w, f, saved) && Placed(env, org, Layout(Literal(v), org))
    ensures Matches(env, Eval(env, Literal(v), w, fuel), f, org + |Layout(Literal(v), org)|,
                    saved, At(env, w, f, org), fuel)
  {
    hide Run, Fill, Slots, Code, Loaded, KernelLoaded;
    assert Layout(Literal(v), org) == [Xt(Lit), v];
    PlacedPair(env, org, Xt(Lit), v);
    var s := At(env, w, f, org);
    assert s.heap[org] == env.code[org] && s.heap[org + 1] == env.code[org + 1];
    Steps(env, s, saved, Lit, At(env, w.(ds := [v] + w.ds), f, org + 2), fuel);
  }

  lemma {:induction false} SimSeq(env: Env, a: Tree, b: Tree, org: int, w: World, f: Frame, saved: nat, fuel: nat)
    requires Running(env, w, f, saved) && Placed(env, org, Layout(Seq(a, b), org))
    ensures Matches(env, Eval(env, Seq(a, b), w, fuel), f, org + |Layout(Seq(a, b), org)|,
                    saved, At(env, w, f, org), fuel)
    decreases fuel, Weight(Seq(a, b)), 1
  {
    hide Run, Fill, Slots, Layout, Code, At, Loaded;
    UnfoldSeq(a, b, org);
    var x := Layout(a, org);
    SplitPlaced(env, org, x, Layout(b, org + |x|));
    Simulates(env, a, org, w, f, saved, fuel);
    match Eval(env, a, w, fuel)
    case Ends(Through, w1, f1) => Simulates(env, b, org + |x|, w1, f, saved, f1);
    case other =>
  }

  lemma {:induction false} SimIf(env: Env, k: Test, a: Tree, org: int, w: World, f: Frame, saved: nat, fuel: nat)
    requires Running(env, w, f, saved) && Placed(env, org, Layout(If(k, a), org))
    ensures Matches(env, Eval(env, If(k, a), w, fuel), f, org + |Layout(If(k, a), org)|,
                    saved, At(env, w, f, org), fuel)
    decreases fuel, Weight(If(k, a)), 1
  {
    hide Run, Fill, Slots, Layout, Code, At, Loaded;
    UnfoldIf(k, a, org);
    var x := Layout(a, org + 2);
    SplitPlaced(env, org, [Xt(TestPrim(k)), org + 2 + |x|], x);
    TestRuns(env, k, w, f, org, org + 2 + |x|, saved, fuel);
    if fuel > 0 && TestTop(k, w).Some? {
      var (zero, w1) := TestTop(k, w).value;
      if !zero { Simulates(env, a, org + 2, w1, f, saved, fuel - 1); }
    }
  }

  lemma {:induction false} SimIfElse(env: Env, k: Test, a: Tree, b: Tree, org: int, w: World, f: Frame, saved: nat,
                                     fuel: nat)
    requires Running(env, w, f, saved) && Placed(env, org, Layout(IfElse(k, a, b), org))
    ensures Matches(env, Eval(env, IfElse(k, a, b), w, fuel), f, org + |Layout(IfElse(k, a, b), org)|,
                    saved, At(env, w, f, org), fuel)
    decreases fuel, Weight(IfElse(k, a, b)), 1
  {
    hide Run, Fill, Slots, Layout, Code, At, Loaded, TestTop, TestPrim, Xt, Weight, Placed;
    hide LayIfElse;
    UnfoldIfElse(k, a, b, org);
    var x := Layout(a, org + 2);
    var mid := org + |x| + 4;
    var y := Layout(b, mid);
    PlacedIfElse(env, k, org, x, y);
    TestRuns(env, k, w, f, org, mid, saved, fuel);
    if fuel > 0 && TestTop(k, w).Some? {
      var (zero, w1) := TestTop(k, w).value;
      if zero {
        Simulates(env, b, mid, w1, f, saved, fuel - 1);
      } else {
        Simulates(env, a, org + 2, w1, f, saved, fuel - 1);
        match Eval(env, a, w1, fuel - 1)
        case Ends(Through, w2, f2) => BranchRuns(env, w2, f, mid - 2, mid + |y|, saved, f2);
        case other =>
      }
    }
  }

  predicate RanThrough(o: Outcome) { o.Ends? && o.how == Through }

  lemma EvalUntil(env: Env, a: Tree, k: Test, w: World, fuel: nat)
    ensures var o := Eval(env, a, w, fuel);
            Eval(env, Until(a, k), w, fuel) ==
            if !RanThrough(o) then o
            else if o.fuel == 0 then Unfinished
            else if TestTop(k, o.w).None? then Undefined
            else
              var (zero, w1) := TestTop(k, o.w).value;
              if zero then Eval(env, Until(a, k), w1, o.fuel - 1) else Ends(Through, w1, o.fuel - 1)
  {
    hide TestTop;
  }

  lemma {:induction false} SimUntil(env: Env, a: Tree, k: Test, org: int, w: World, f: Frame, saved: nat, fuel: nat)
    requires Running(env, w, f, saved) && Placed(env, org, Layout(Until(a, k), org))
    ensures Matches(env, Eval(env, Until(a, k), w, fuel), f, org + |Layout(Until(a, k), org)|,
                    saved, At(env, w, f, org), fuel)
    decreases fuel, Weight(Until(a, k)), 1
  {
    hide Run, Fill, Slots, Layout, Code, At, Loaded, TestTop, TestPrim, Eval;
    EvalUntil(env, a, k, w, fuel);
    UnfoldUntil(a, k, org);
    var x := Layout(a, org);
    SplitPlaced(env, org, x, [Xt(TestPrim(k)), org]);
    Simulates(env, a, org, w, f, saved, fuel);
    match Eval(env, a, w, fuel)
    case Ends(Through, w1, f1) =>
      TestRuns(env, k, w1, f, org + |x|, org, saved, f1);
      if f1 > 0 && TestTop(k, w1).Some? {
        var (zero, w2) := TestTop(k, w1).value;
        if zero { Simulates(env, Until(a, k), org, w2, f, saved, f1 - 1); }
      }
    case other =>
  }

  lemma EvalAgain(env: Env, a: Tree, w: World, fuel: nat)
    ensures var o := Eval(env, a, w, fuel);
            Eval(env, Again(a), w, fuel) ==
            if !RanThrough(o) then o
            else if o.fuel == 0 then Unfinished else Eval(env, Again(a), o.w, o.fuel - 1)
  {}

  lemma {:induction false} SimAgain(env: Env, a: Tree, org: int, w: World, f: Frame, saved: nat, fuel: nat)
    requires Running(env, w, f, saved) && Placed(env, org, Layout(Again(a), org))
    ensures Matches(env, Eval(env, Again(a), w, fuel), f, org + |Layout(Again(a), org)|,
                    saved, At(env, w, f, org), fuel)
    decreases fuel, Weight(Again(a)), 1
  {
    hide Run, Fill, Slots, Layout, Code, At, Loaded, Eval;
    EvalAgain(env, a, w, fuel);
    UnfoldAgain(a, org);
    var x := Layout(a, org);
    SplitPlaced(env, org, x, [Xt(Branch), org]);
    Simulates(env, a, org, w, f, saved, fuel);
    match Eval(env, a, w, fuel)
    case Ends(Through, w1, f1) =>
      BranchRuns(env, w1, f, org + |x|, org, saved, f1);
      if f1 > 0 { Simulates(env, Again(a), org, w1, f, saved, f1 - 1); }
    case other =>
  }

  lemma UnfoldEval(env: Env, a: Tree, k: Test, b: Tree, e: Test, c: Tree, w: World, fuel: nat)
    ensures Eval(env, While(a, k, b), w, fuel) == EvalWhile(env, a, k, b, w, fuel)
    ensures Eval(env, WhileUntil(a, k, b, e, c), w, fuel) == EvalWhileUntil(env, a, k, b, e, c, w, fuel)
  {
    hide EvalWhile, EvalWhileUntil;
  }

  /** What the machine does for the first part of a while loop: go to end, or through b. */
  ghost predicate HeadMatches(env: Env, h: Head, f: Frame, end: int, behind: int, saved: nat, s: State, fuel: nat)
    requires 0 <= end < TWO63 && 0 <= behind < TWO63
  {
    match h
    case Ended(o) => Matches(env, o, f, end, saved, s, fuel)
    case BodyDone(w, left) => Matches(env, Ends(Through, w, left), f, behind, saved, s, fuel)
  }

  /** begin a while b, whose while leads to end. */
  lemma {:induction false} SimHead(env: Env, a: Tree, k: Test, b: Tree, org: int, end: Cell, w: World, f: Frame,
                                   saved: nat, fuel: nat)
    requires Running(env, w, f, saved) && 0 <= end
    requires Placed(env, org, Layout(a, org))
    requires var test := org + |Layout(a, org)|;
             Placed(env, test, [Xt(TestPrim(k)), end]) && Placed(env, test + 2, Layout(b, test + 2))
    ensures var test := org + |Layout(a, org)|;
            HeadMatches(env, EvalHead(env, a, k, b, w, fuel), f, end, test + 2 + |Layout(b, test + 2)|, saved,
                        At(env, w, f, org), fuel)
    decreases fuel, Weight(a) + Weight(b), 3
  {
    hide Run, Fill, Slots, Layout, Code, At, Eval, EvalHead, Loaded, Matches, HeadMatches;
    var test := org + |Layout(a, org)|;
    Simulates(env, a, org, w, f, saved, fuel);
    if RanThrough(Eval(env, a, w, fuel)) {
      var w1, f1 := Eval(env, a, w, fuel).w, Eval(env, a, w, fuel).fuel;
      SimHeadTest(env, a, k, b, org, test, end, w, w1, f, saved, fuel, f1);
    } else {
      HeadLeft(env, a, k, b, w, f, test, end, test + 2 + |Layout(b, test + 2)|, saved, At(env, w, f, org), fuel);
    }
  }

  /** a has not run through. */
  lemma HeadLeft(env: Env, a: Tree, k: Test, b: Tree, w: World, f: Frame, test: int, end: int, behind: int, saved: nat,
                 s: State, fuel: nat)
    requires 0 <= test < TWO63 && 0 <= end < TWO63 && 0 <= behind < TWO63
    requires Matches(env, Eval(env, a, w, fuel), f, test, saved, s, fuel)
    requires !RanThrough(Eval(env, a, w, fuel))
    ensures HeadMatches(env, EvalHead(env, a, k, b, w, fuel), f, end, behind, saved, s, fuel)
  {
    hide Run, Fill, Slots, At, Eval, TestTop;
  }

  /** a has run through: the test, and then b. */
  lemma {:induction false} SimHeadTest(env: Env, a: Tree, k: Test, b: Tree, org: int, test: int, end: Cell, w: World,
                                       w1: World, f: Frame, saved: nat, fuel: nat, f1: nat)
    requires Running(env, w, f, saved) && 0 <= end && 0 <= org < TWO63 && 0 <= test
    requires Placed(env, test, [Xt(TestPrim(k)), end]) && Placed(env, test + 2, Layout(b, test + 2))
    requires Eval(env, a, w, fuel) == Ends(Through, w1, f1) && f1 <= fuel
    requires Matches(env, Ends(Through, w1, f1), f, test, saved, At(env, w, f, org), fuel)
    ensures HeadMatches(env, EvalHead(env, a, k, b, w, fuel), f, end, test + 2 + |Layout(b, test + 2)|, saved,
                        At(env, w, f, org), fuel)
    decreases fuel, Weight(b), 3
  {
    hide Run, Fill, Slots, Layout, Code, At, Eval, Loaded;
    TestRuns(env, k, w1, f, test, end, saved, f1);
    if f1 > 0 && TestTop(k, w1).Some? && !TestTop(k, w1).value.0 {
      Simulates(env, b, test + 2, TestTop(k, w1).value.1, f, saved, f1 - 1);
    }
  }

  lemma {:induction false} SimWhile(env: Env, a: Tree, k: Test, b: Tree, org: int, w: World, f: Frame, saved: nat,
                                    fuel: nat)
    requires Running(env, w, f, saved) && Placed(env, org, Layout(While(a, k, b), org))
    ensures Matches(env, Eval(env, While(a, k, b), w, fuel), f, org + |Layout(While(a, k, b), org)|,
                    saved, At(env, w, f, org), fuel)
    decreases fuel, Weight(While(a, k, b)), 1
  {
    hide Run, Fill, Slots, Layout, Code, At, Eval, EvalHead, LayWhile, Loaded;
    UnfoldEval(env, a, k, b, k, b, w, fuel);
    UnfoldWhile(a, k, b, org);
    var x := Layout(a, org);
    var y := Layout(b, org + |x| + 2);
    var end := org + |x| + |y| + 4;
    PlacedWhile(env, k, org, x, y);
    SimHead(env, a, k, b, org, end, w, f, saved, fuel);
    match EvalHead(env, a, k, b, w, fuel)
    case Ended(o) =>
    case BodyDone(w1, f1) =>
      BranchRuns(env, w1, f, end - 2, org, saved, f1);
      if f1 > 0 {
        Simulates(env, While(a, k, b), org, w1, f, saved, f1 - 1);
        UnfoldEval(env, a, k, b, k, b, w1, f1 - 1);
      }
  }

  lemma {:induction false} SimWhileUntil(env: Env, a: Tree, k: Test, b: Tree, e: Test, c: Tree, org: int, w: World,
                                         f: Frame, saved: nat, fuel: nat)
    requires Running(env, w, f, saved) && Placed(env, org, Layout(WhileUntil(a, k, b, e, c), org))
    ensures Matches(env, Eval(env, WhileUntil(a, k, b, e, c), w, fuel), f,
                    org + |Layout(WhileUntil(a, k, b, e, c), org)|, saved, At(env, w, f, org), fuel)
    decreases fuel, Weight(WhileUntil(a, k, b, e, c)), 1
  {
    hide Run, Fill, Slots, Layout, Code, At, Eval, EvalHead, LayWhileUntil, Loaded;
    UnfoldEval(env, a, k, b, e, c, w, fuel);
    UnfoldWhileUntil(a, k, b, e, c, org);
    var x := Layout(a, org);
    var y := Layout(b, org + |x| + 2);
    var mid := org + |x| + |y| + 4;
    var z := Layout(c, mid);
    PlacedWhileUntil(env, k, e, org, x, y, z);
    SimHead(env, a, k, b, org, mid + |z|, w, f, saved, fuel);
    match EvalHead(env, a, k, b, w, fuel)
    case Ended(o) =>
    case BodyDone(w1, f1) =>
      TestRuns(env, e, w1, f, mid - 2, org, saved, f1);
      if f1 > 0 && TestTop(e, w1).Some? {
        var (zero, w2) := TestTop(e, w1).value;
        if zero {
          Simulates(env, WhileUntil(a, k, b, e, c), org, w2, f, saved, f1 - 1);
          UnfoldEval(env, a, k, b, e, c, w2, f1 - 1);
        } else {
          Simulates(env, c, mid, w2, f, saved, f1 - 1);
        }
      }
  }

  lemma EvalForUnfold(env: Env, a: Tree, w: World, fuel: nat)
    ensures Eval(env, For(a), w, fuel) ==
            if fuel == 0 then Unfinished
            else if TestTop(QueryTest, w).None? then Undefined
            else if TestTop(QueryTest, w).value.0 then Ends(Through, TestTop(QueryTest, w).value.1, fuel - 1)
            else if fuel == 1 then Unfinished
            else EvalFor(env, a, w.(ds := w.ds[1..], rs := [Num(w.ds[0])] + w.rs), fuel - 2)
    ensures TestTop(QueryTest, w).Some? && !TestTop(QueryTest, w).value.0 ==> |w.ds| > 0
  {
    hide EvalFor;
  }

  lemma {:induction false} SimFor(env: Env, a: Tree, org: int, w: World, f: Frame, saved: nat, fuel: nat)
    requires Running(env, w, f, saved) && Placed(env, org, Layout(For(a), org))
    ensures Matches(env, Eval(env, For(a), w, fuel), f, org + |Layout(For(a), org)|, saved, At(env, w, f, org), fuel)
    decreases fuel, Weight(For(a)), 1
  {
    hide Run, Fill, Slots, Layout, Code, At, Loaded, Eval, EvalFor;
    EvalForUnfold(env, a, w, fuel);
    UnfoldFor(a, org);
    var x := Layout(a, org + 3);
    var end := org + |x| + 5;
    SplitPlaced(env, org, [Xt(Q0Branch), end, Xt(ToR)] + x, [Xt(Next), org + 3]);
    SplitPlaced(env, org, [Xt(Q0Branch), end, Xt(ToR)], x);
    assert [Xt(Q0Branch), end, Xt(ToR)] == [Xt(Q0Branch), end] + [Xt(ToR)];
    SplitPlaced(env, org, [Xt(Q0Branch), end], [Xt(ToR)]);
    TestRuns(env, QueryTest, w, f, org, end, saved, fuel);
    if fuel > 0 && TestTop(QueryTest, w).Some? && !TestTop(QueryTest, w).value.0 {
      var w1 := w.(ds := w.ds[1..], rs := [Num(w.ds[0])] + w.rs);
      FillPush(w.ds[0], w.rs, f.exits);
      PushRuns(env, w, f, org + 2, saved, fuel - 1);
      if fuel > 1 { SimForLoop(env, a, org, w1, f, saved, fuel - 2); }
    }
  }

  /** The push that for compiles. */
  lemma PushRuns(env: Env, w: World, f: Frame, ip: int, saved: nat, fuel: nat)
    requires Running(env, w, f, saved) && Placed(env, ip, [Xt(ToR)]) && |w.ds| > 0
    ensures var w1 := w.(ds := w.ds[1..], rs := [Num(w.ds[0])] + w.rs);
            Slots(w1.rs) == |f.exits|
            && (fuel > 0 ==> Run(saved, At(env, w, f, ip), fuel) == Run(saved, At(env, w1, f, ip + 1), fuel - 1))
            && (fuel == 0 ==> Run(saved, At(env, w, f, ip), fuel).Pending?)
  {
    hide Run, Fill, Slots, Code, Routine;
    var s := At(env, w, f, ip);
    assert env.code[ip] == env.code[ip..ip + 1][0];
    assert s.heap[ip] == env.code[ip];
    var w1 := w.(ds := w.ds[1..], rs := [Num(w.ds[0])] + w.rs);
    SimpleRuns(env, ToR, w, w1, f, ip + 1);
    Steps(env, s, saved, ToR, At(env, w1, f, ip + 1), fuel);
  }

  /** The loop part of for: the body is at org + 3 and (next) follows it. */
  lemma {:induction false} SimForLoop(env: Env, a: Tree, org: int, w: World, f: Frame, saved: nat, fuel: nat)
    requires Running(env, w, f, saved) && Placed(env, org + 3, Layout(a, org + 3))
    requires Placed(env, org + 3 + |Layout(a, org + 3)|, [Xt(Next), org + 3]) && 0 <= org
    ensures Matches(env, EvalFor(env, a, w, fuel), f, org + |Layout(a, org + 3)| + 5,
                    saved, At(env, w, f, org + 3), fuel)
    decreases fuel, Weight(a), 3
  {
    hide Run, Fill, Slots, Layout, Code, At, Loaded;
    var ip := org + 3 + |Layout(a, org + 3)|;
    Simulates(env, a, org + 3, w, f, saved, fuel);
    match Eval(env, a, w, fuel)
    case Ends(Through, w1, f1) =>
      NextRuns(env, w1, f, ip, org + 3, saved, f1);
      if f1 > 0 && TopNums(w1.rs, 1) {
        var count := Sub(w1.rs[0].c, 1);
        if count != 0 { SimForLoop(env, a, org, w1.(rs := [Num(count)] + w1.rs[1..]), f, saved, f1 - 1); }
      }
    case other =>
  }

  lemma NextRuns(env: Env, w: World, f: Frame, ip: int, dest: Cell, saved: nat, fuel: nat)
    requires Running(env, w, f, saved) && 0 <= dest
    requires Placed(env, ip, [Xt(Next), dest])
    ensures fuel == 0 ==> Run(saved, At(env, w, f, ip), fuel).Pending?
    ensures fuel > 0 && TopNums(w.rs, 1) ==>
              var count := Sub(w.rs[0].c, 1);
              var w1 := w.(rs := if count == 0 then w.rs[1..] else [Num(count)] + w.rs[1..]);
              Slots(w1.rs) == |f.exits|
              && Run(saved, At(env, w, f, ip), fuel) ==
                 Run(saved, At(env, w1, f, if count == 0 then ip + 2 else dest), fuel - 1)
  {
    hide Fill, Slots, Run, Code, Loaded, Call, Xt;
    PlacedPair(env, ip, Xt(Next), dest);
    var s := At(env, w, f, ip);
    assert s.heap[ip] == env.code[ip] && s.heap[ip + 1] == env.code[ip + 1];
    if fuel == 0 {
      Steps(env, s, saved, Next, s, 0);
    } else if TopNums(w.rs, 1) {
      var count := Sub(w.rs[0].c, 1);
      FillPop(w.rs, f.exits);
      var base := [f.ret] + f.below;
      var rest := Fill(w.rs[1..], f.exits);
      FillPush(count, w.rs[1..], f.exits);
      assert [w.rs[0].c] + rest + base == [w.rs[0].c] + (rest + base);
      assert [count] + rest + base == [count] + (rest + base);
      var w1 := w.(rs := if count == 0 then w.rs[1..] else [Num(count)] + w.rs[1..]);
      Steps(env, s, saved, Next, At(env, w1, f, if count == 0 then ip + 2 else dest), fuel);
    }
  }

  lemma EvalDoUnfold(env: Env, a: Tree, plus: bool, w: World, fuel: nat)
    ensures Eval(env, DoLoop(a, plus), w, fuel) ==
            if fuel == 0 then Unfinished
            else if |w.ds| < 2 then Undefined
            else EvalDo(env, a, plus, OpenLoop(w), fuel - 1)
  {
    hide EvalDo, OpenLoop;
  }

  lemma {:induction false} SimDo(env: Env, a: Tree, plus: bool, org: int, w: World, f: Frame, saved: nat, fuel: nat)
    requires Running(env, w, f, saved) && Placed(env, org, Layout(DoLoop(a, plus), org))
    ensures Matches(env, Eval(env, DoLoop(a, plus), w, fuel), f, org + |Layout(DoLoop(a, plus), org)|,
                    saved, At(env, w, f, org), fuel)
    decreases fuel, Weight(DoLoop(a, plus)), 1
  {
    hide Run, Fill, Slots, Layout, Code, At, Loaded, Eval, EvalDo, OpenLoop;
    EvalDoUnfold(env, a, plus, w, fuel);
    UnfoldDo(a, plus, org);
    var x := Layout(a, org + 2);
    var end := org + |x| + 4;
    SplitPlaced(env, org, [Xt(Do), end] + x, [Xt(LoopPrim(plus)), org + 2]);
    SplitPlaced(env, org, [Xt(Do), end], x);
    DoRuns(env, w, f, org, end, saved, fuel);
    if fuel > 0 && |w.ds| >= 2 {
      SimDoLoop(env, a, plus, org, OpenLoop(w), f.(exits := [end] + f.exits), saved, fuel - 1);
    }
  }

  lemma DoRuns(env: Env, w: World, f: Frame, ip: int, exit: Cell, saved: nat, fuel: nat)
    requires Running(env, w, f, saved) && 0 <= exit
    requires Placed(env, ip, [Xt(Do), exit])
    ensures fuel == 0 ==> Run(saved, At(env, w, f, ip), fuel).Pending?
    ensures fuel > 0 && |w.ds| >= 2 ==>
              var g := f.(exits := [exit] + f.exits);
              Running(env, OpenLoop(w), g, saved)
              && Run(saved, At(env, w, f, ip), fuel) == Run(saved, At(env, OpenLoop(w), g, ip + 2), fuel - 1)
  {
    hide Fill, Slots, Run, Code;
    PlacedPair(env, ip, Xt(Do), exit);
    var s := At(env, w, f, ip);
    assert s.heap[ip] == env.code[ip] && s.heap[ip + 1] == env.code[ip + 1];
    if fuel == 0 {
      Steps(env, s, saved, Do, s, 0);
    } else if |w.ds| >= 2 {
      var index := Sub(w.ds[0], w.ds[1]);
      FillOpen(index, w.ds[1], exit, w.rs, f.exits);
      var base := [f.ret] + f.below;
      assert [index, w.ds[1], exit] + Fill(w.rs, f.exits) + base ==
             [index, w.ds[1], exit] + (Fill(w.rs, f.exits) + base);
      Steps(env, s, saved, Do, At(env, OpenLoop(w), f.(exits := [exit] + f.exits), ip + 2), fuel);
    }
  }

  /** The loop part of do: the body is at org + 2, (loop) or (+loop) follows it, and
      the innermost exit address points just past that. */
  lemma {:induction false} SimDoLoop(env: Env, a: Tree, plus: bool, org: int, w: World, f: Frame, saved: nat, fuel: nat)
    requires Running(env, w, f, saved) && Placed(env, org + 2, Layout(a, org + 2)) && 0 <= org
    requires Placed(env, org + 2 + |Layout(a, org + 2)|, [Xt(LoopPrim(plus)), org + 2])
    requires |f.exits| > 0 && f.exits[0] == org + |Layout(a, org + 2)| + 4
    ensures Matches(env, EvalDo(env, a, plus, w, fuel), f.(exits := f.exits[1..]), org + |Layout(a, org + 2)| + 4,
                    saved, At(env, w, f, org + 2), fuel)
    decreases fuel, Weight(a), 3
  {
    hide Run, Fill, Slots, Layout, Code, At, Loaded, Eval;
    var ip := org + 2 + |Layout(a, org + 2)|;
    Simulates(env, a, org + 2, w, f, saved, fuel);
    match Eval(env, a, w, fuel)
    case Ends(Through, w1, f1) =>
      LoopRuns(env, plus, w1, f, ip, org + 2, saved, f1);
      if f1 > 0 && LoopEnd(plus, w1).Some? {
        var (again, w2) := LoopEnd(plus, w1).value;
        if again { SimDoLoop(env, a, plus, org, w2, f, saved, f1 - 1); }
      }
    case other =>
  }

  lemma LoopRuns(env: Env, plus: bool, w: World, f: Frame, ip: int, dest: Cell, saved: nat, fuel: nat)
    requires Running(env, w, f, saved) && 0 <= dest
    requires Placed(env, ip, [Xt(LoopPrim(plus)), dest])
    ensures fuel == 0 ==> Run(saved, At(env, w, f, ip), fuel).Pending?
    ensures fuel > 0 && LoopEnd(plus, w).Some? ==>
              var (again, w1) := LoopEnd(plus, w).value;
              |f.exits| > 0
              && (var g := if again then f else f.(exits := f.exits[1..]);
                  Slots(w1.rs) == |g.exits|
                  && Run(saved, At(env, w, f, ip), fuel) ==
                     Run(saved, At(env, w1, g, if again then dest else ip + 2), fuel - 1))
  {
    hide Fill, Slots, Run, Code, Loaded, Call, Xt, Layout;
    PlacedPair(env, ip, Xt(LoopPrim(plus)), dest);
    var s := At(env, w, f, ip);
    assert s.heap[ip] == env.code[ip] && s.heap[ip + 1] == env.code[ip + 1];
    if fuel == 0 {
      Steps(env, s, saved, LoopPrim(plus), s, 0);
    } else if LoopEnd(plus, w).Some? {
      var (again, w1) := LoopEnd(plus, w).value;
      FillLoop(w.rs, f.exits);
      var base := [f.ret] + f.below;
      var rest := Fill(w.rs[3..], f.exits[1..]);
      var top := [w.rs[0].c, w.rs[1].c, f.exits[0]];
      assert top + rest + base == top + (rest + base);
      assert (top + (rest + base))[3..] == rest + base;
      if again {
        var index := w1.rs[0].c;
        FillOpen(index, w.rs[1].c, f.exits[0], w.rs[3..], f.exits[1..]);
        assert [f.exits[0]] + f.exits[1..] == f.exits;
        assert [Num(index), Num(w.rs[1].c), LoopExit] + w.rs[3..] == w1.rs;
        assert [index] + (top + (rest + base))[1..] == [index, w.rs[1].c, f.exits[0]] + rest + base;
        Steps(env, s, saved, LoopPrim(plus), At(env, w1, f, dest), fuel);
      } else {
        Steps(env, s, saved, LoopPrim(plus), At(env, w1, f.(exits := f.exits[1..]), ip + 2), fuel);
      }
    }
  }

  lemma {:induction false} SimCall(env: Env, xt: Cell, org: int, w: World, f: Frame, saved: nat, fuel: nat)
    requires Running(env, w, f, saved) && Placed(env, org, Layout(CallWord(xt), org))
    ensures Matches(env, Eval(env, CallWord(xt), w, fuel), f, org + |Layout(CallWord(xt), org)|,
                    saved, At(env, w, f, org), fuel)
    decreases fuel, Weight(CallWord(xt)), 1
  {
    hide Run, Fill, Slots, Code, At, Loaded, Layout, EvalCall, Call;
    CallCell(env, xt, org);
    if fuel == 0 {
      CallPending(env, xt, w, f, org, saved);
    } else {
      CellCalls(env, xt, w, f, org, saved, fuel);
      SimCalled(env, xt, org + 1, w, f, saved, fuel, At(env, w, f, org), fuel);
    }
  }

  lemma CellCalls(env: Env, xt: Cell, w: World, f: Frame, org: int, saved: nat, fuel: nat)
    requires Running(env, w, f, saved) && 0 <= org < |env.code| && env.code[org] == xt
    ensures Run(saved, At(env, w, f, org), fuel) == Resume(saved, Call(xt, At(env, w, f, org + 1), fuel))
  {
    hide Fill, Slots, Loaded, Call;
    var s := At(env, w, f, org);
    assert s.heap[org] == env.code[org];
    assert Skip(s) == At(env, w, f, org + 1);
  }

  /** A word of the program, called from before ip, in whatever way the machine got there. */
  lemma {:induction false} SimCalled(env: Env, xt: Cell, ip: int, w: World, f: Frame, saved: nat, fuel: nat,
                                     s: State, budget: nat)
    requires Running(env, w, f, saved) && 0 < ip <= |env.code| && fuel > 0
    requires Run(saved, s, budget) == Resume(saved, Call(xt, At(env, w, f, ip), fuel))
    ensures Matches(env, EvalCall(env, xt, w, fuel), f, ip, saved, s, budget)
    decreases fuel, 0, 0
  {
    hide Run, Fill, Slots, Code, At, Loaded, Layout, EvalColon, Called, Call;
    if Called(env, xt, w).Some? {
      var (t, org, w1) := Called(env, xt, w).value;
      var inner := Frame([], ip, At(env, w, f, ip).rs, f.junk);
      NestRuns(env, xt, w, f, ip, saved, fuel);
      SimColon(env, t, org, w1, inner, saved, fuel - 1);
      CalledReturns(env, EvalColon(env, t, w1, fuel - 1), w, f, ip, saved, s, budget, fuel - 1,
                    At(env, w1, inner, org), org);
    }
  }

  /** A called word that has returned leaves the caller just behind the call. */
  lemma CalledReturns(env: Env, o: Outcome, w: World, f: Frame, ip: int, saved: nat, s: State, fuel: nat, left: nat,
                      t: State, end: int)
    requires Running(env, w, f, saved) && 0 < ip <= |env.code| && 0 <= end < TWO63
    requires o.Ends? ==> o.how == Exiting
    requires Matches(env, o, Frame([], ip, At(env, w, f, ip).rs, f.junk), end, saved, t, left)
    requires Run(saved, s, fuel) == Run(saved, t, left)
    ensures Matches(env, if o.Ends? then Ends(Through, o.w.(rs := w.rs), o.fuel) else o, f, ip, saved, s, fuel)
  {
    hide Run, Fill, Slots, Loaded;
    if o.Ends? {
      assert Returned(env, o.w, Frame([], ip, At(env, w, f, ip).rs, f.junk)) == At(env, o.w.(rs := w.rs), f, ip);
    }
  }

  lemma CallCell(env: Env, xt: Cell, org: int)
    requires Placed(env, org, Layout(CallWord(xt), org))
    ensures 0 <= org < |env.code| && env.code[org] == xt && |Layout(CallWord(xt), org)| == 1
  {
    assert Layout(CallWord(xt), org) == [xt];
    assert env.code[org] == env.code[org..org + 1][0];
  }

  lemma CallPending(env: Env, xt: Cell, w: World, f: Frame, org: int, saved: nat)
    requires Running(env, w, f, saved) && 0 <= org < |env.code| && env.code[org] == xt
    ensures Run(saved, At(env, w, f, org), 0).Pending?
  {
    hide Run, Fill, Slots, Loaded;
    var s := At(env, w, f, org);
    assert s.heap[org] == env.code[org];
    PendingCall(s, saved, xt);
  }

  lemma CalledPlaced(env: Env, xt: Cell, w: World)
    requires Loaded(env) && Called(env, xt, w).Some?
    ensures var (t, org, w1) := Called(env, xt, w).value;
            Placed(env, org, Layout(t, org) + [Xt(Exit)]) && 0 <= org < TWO63 && w1.rs == []
  {
    hide Layout;
  }

  lemma PendingCall(s: State, saved: nat, xt: Cell)
    requires |s.rs| > saved && AtIp(s) == Some(xt)
    ensures Run(saved, s, 0).Pending?
  {}

  /** Entering a word of the program. */
  lemma NestRuns(env: Env, xt: Cell, w: World, f: Frame, ip: int, saved: nat, fuel: nat)
    requires Running(env, w, f, saved) && Called(env, xt, w).Some? && fuel > 0 && 0 < ip <= |env.code|
    ensures var (t, org, w1) := Called(env, xt, w).value;
            var s := At(env, w, f, ip);
            var inner := Frame([], ip, s.rs, f.junk);
            Placed(env, org, Layout(t, org) + [Xt(Exit)]) && w1.rs == []
            && Running(env, w1, inner, saved) && 0 <= org < TWO63
            && Resume(saved, Call(xt, s, fuel)) == Run(saved, At(env, w1, inner, org), fuel - 1)
  {
    hide Routine, Fill, Run, Call, Layout, Called, Loaded;
    CalledPlaced(env, xt, w);
    var (t, org, w1) := Called(env, xt, w).value;
    var s := At(env, w, f, ip);
    var inner := Frame([], ip, s.rs, f.junk);
    assert |Fill([], [])| == 0 && Slots([]) == 0;
    CallEnters(env, xt, w, f, ip, fuel);
  }

  lemma CallEnters(env: Env, xt: Cell, w: World, f: Frame, ip: int, fuel: nat)
    requires Loaded(env) && |f.exits| == Slots(w.rs) && Called(env, xt, w).Some? && fuel > 0 && 0 < ip <= |env.code|
    requires var (t, org, w1) := Called(env, xt, w).value; w1.rs == [] && 0 <= org < TWO63
    ensures var (t, org, w1) := Called(env, xt, w).value;
            var s := At(env, w, f, ip);
            Call(xt, s, fuel) == Done(At(env, w1, Frame([], ip, s.rs, f.junk), org), fuel - 1)
  {
    hide Layout, Placed, Fill;
    var s := At(env, w, f, ip);
    assert Fill([], []) == [] by { assert |Fill([], [])| == 0; }
    if xt in env.program {
      ColonCalled(env, xt, s);
    } else {
      DoesCalled(env, xt, w, s);
    }
  }

  lemma ColonCalled(env: Env, xt: Cell, s: State)
    requires Loaded(env) && xt in env.program && env.code <= s.heap
    ensures 0 < xt < TWO63 - 1 && Fun(s.heap, xt) == Some(DoColon)
  {
    hide Layout, Placed, KernelLoaded;
    DecodeCode(DoColon);
    assert s.heap[xt] == env.code[xt];
  }

  lemma DoesCalled(env: Env, xt: Cell, w: World, s: State)
    requires Clause(env, xt, w).Some? && s.heap == env.code + w.data
    ensures 0 <= xt && xt + 1 < |s.heap| && Fun(s.heap, xt) == Some(DoDoes)
    ensures s.heap[xt + 1] == Clause(env, xt, w).value
  {
    DecodeCode(DoDoes);
  }

  /** A whole colon word, from its first cell to the return. */
  lemma {:induction false} SimColon(env: Env, t: Tree, org: int, w: World, f: Frame, saved: nat, fuel: nat)
    requires Running(env, w, f, saved) && w.rs == []
    requires Placed(env, org, Layout(t, org) + [Xt(Exit)])
    ensures Matches(env, EvalColon(env, t, w, fuel), f, org, saved, At(env, w, f, org), fuel)
    decreases fuel, Weight(t), 3
  {
    hide Run, Fill, Layout, Code, At, Loaded;
    var x := Layout(t, org);
    SplitPlaced(env, org, x, [Xt(Exit)]);
    Simulates(env, t, org, w, f, saved, fuel);
    match Eval(env, t, w, fuel)
    case Ends(Through, w1, f1) =>
      assert env.code[org + |x|] == env.code[org + |x|..org + |x| + 1][0];
      SimLeavers(env, Exit, org + |x|, w1, f, saved, f1);
    case other =>
  }
}
