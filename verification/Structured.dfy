/** A structural evaluator for control-structure trees: it walks the tree and knows
    nothing of addresses, branches or backpatching. One unit of fuel is spent for each
    threaded cell the compiled code would execute. */
module Structured {
  import opened Cells
  import opened Machine
  import opened Control

  /** What a running word has put on the return stack: numbers, and for each open
      do loop the place where its exit address is kept. */
  datatype RCell = Num(c: Cell) | LoopExit

  /** rs holds only what the current word has pushed since it was entered; data is the
      heap above the code. */
  datatype World = World(ds: seq<Cell>, rs: seq<RCell>, data: seq<Cell>, out: seq<Event>)

  /** How a piece of a word ends: by reaching its end, by leave, or by ^. */
  datatype Ending = Through | Leaving | Exiting

  datatype Outcome = Ends(how: Ending, w: World, fuel: nat) | Unfinished | Undefined

  /** The colon words of a program by xt, its does> clauses by address, and the heap below
      the data. Words made by create may stand in the code or in the data. */
  datatype Env = Env(program: map<Cell, Tree>, clauses: map<Cell, Tree>, code: seq<Cell>)

  predicate TopNums(rs: seq<RCell>, n: nat)
  {
    |rs| >= n && forall i :: 0 <= i < n ==> rs[i].Num?
  }

  /** The contents of an open do loop: index, limit, exit address. */
  predicate TopLoop(rs: seq<RCell>) { |rs| >= 3 && rs[0].Num? && rs[1].Num? && rs[2].LoopExit? }

  function DataFetch(env: Env, w: World, a: Cell): Option<Cell>
  {
    if 0 <= a < |env.code| then Some(env.code[a])
    else if |env.code| <= a < |env.code| + |w.data| then Some(w.data[a - |env.code|])
    else None
  }

  /** Stores may not touch the code. */
  function DataStore(env: Env, w: World, a: Cell, v: Cell): Option<World>
  {
    if |env.code| <= a < |env.code| + |w.data| then Some(w.(data := w.data[a - |env.code| := v])) else None
  }

  /** A kernel word standing alone in the text. None: no meaning is given to it, as
      when it would disturb what the enclosing constructs keep on the return stack. */
  function Simple(env: Env, p: Prim, w: World): Option<World>
  {
    if IsAlu(p) then (match Alu(p, w.ds) case None => None case Some(d) => Some(w.(ds := d)))
    else match p
      case ToR => if |w.ds| < 1 then None else Some(w.(rs := [Num(w.ds[0])] + w.rs, ds := w.ds[1..]))
      case RFrom => if !TopNums(w.rs, 1) then None else Some(w.(ds := [w.rs[0].c] + w.ds, rs := w.rs[1..]))
      case RFetch => if !TopNums(w.rs, 1) then None else Some(w.(ds := [w.rs[0].c] + w.ds))
      case RDrop => if !TopNums(w.rs, 1) then None else Some(w.(rs := w.rs[1..]))
      case TwoToR =>
        if |w.ds| < 2 then None else Some(w.(rs := [Num(w.ds[0]), Num(w.ds[1])] + w.rs, ds := w.ds[2..]))
      case TwoRFrom =>
        if !TopNums(w.rs, 2) then None else Some(w.(ds := [w.rs[0].c, w.rs[1].c] + w.ds, rs := w.rs[2..]))
      case TwoRFetch => if !TopNums(w.rs, 2) then None else Some(w.(ds := [w.rs[0].c, w.rs[1].c] + w.ds))
      case TwoRDrop => if !TopNums(w.rs, 2) then None else Some(w.(rs := w.rs[2..]))
      case LoopI => if !TopNums(w.rs, 2) then None else Some(w.(ds := [Add(w.rs[0].c, w.rs[1].c)] + w.ds))
      case LoopJ =>
        if |w.rs| < 5 || !w.rs[3].Num? || !w.rs[4].Num? then None
        else Some(w.(ds := [Add(w.rs[3].c, w.rs[4].c)] + w.ds))
      case LoopK =>
        if |w.rs| < 8 || !w.rs[6].Num? || !w.rs[7].Num? then None
        else Some(w.(ds := [Add(w.rs[6].c, w.rs[7].c)] + w.ds))
      case Fetch =>
        if |w.ds| < 1 then None
        else (match DataFetch(env, w, w.ds[0]) case None => None case Some(v) => Some(w.(ds := [v] + w.ds[1..])))
      case Store => if |w.ds| < 2 then None else DataStore(env, w.(ds := w.ds[2..]), w.ds[0], w.ds[1])
      case PlusStore =>
        if |w.ds| < 2 then None
        else (match DataFetch(env, w, w.ds[0])
              case None => None
              case Some(v) => DataStore(env, w.(ds := w.ds[2..]), w.ds[0], Add(v, w.ds[1])))
      case Action1 =>
        if |w.ds| < 1 then None
        else Some(w.(ds := w.ds[1..], out := w.out + [Event(Xt(p), [w.ds[0]])]))
      case Action2 =>
        if |w.ds| < 2 then None
        else Some(w.(ds := w.ds[2..], out := w.out + [Event(Xt(p), [w.ds[1], w.ds[0]])]))
      case other => None
  }

  /** Test the top of the stack: whether it is zero, and what the test leaves. */
  function TestTop(k: Test, w: World): Option<(bool, World)>
  {
    if |w.ds| < 1 then None
    else
      var zero := w.ds[0] == 0;
      Some((zero, match k
        case KeepTest => w
        case QueryTest => if zero then w.(ds := w.ds[1..]) else w
        case PlainTest => w.(ds := w.ds[1..])))
  }

  /** The end of a do loop's body: Some(true, _) to go round again. */
  function LoopEnd(plus: bool, w: World): Option<(bool, World)>
  {
    if !TopLoop(w.rs) || (plus && |w.ds| < 1) then None
    else
      var before := w.rs[0].c;
      var index := if plus then Add(before, w.ds[0]) else Add(before, 1);
      var w1 := if plus then w.(ds := w.ds[1..]) else w;
      var done := if plus then (index < 0) != (before < 0) else index == 0;
      if done then Some((false, w1.(rs := w.rs[3..])))
      else Some((true, w1.(rs := [Num(index)] + w.rs[1..])))
  }

  /** The number of constructs in t. */
  function Weight(t: Tree): nat
  {
    1 + match t
      case Empty => 0 case Word(p) => 0 case Literal(v) => 0 case CallWord(xt) => 0
      case Seq(a, b) => Weight(a) + Weight(b)
      case If(k, a) => Weight(a)
      case IfElse(k, a, b) => Weight(a) + Weight(b)
      case Until(a, k) => Weight(a)
      case Again(a) => Weight(a)
      case While(a, k, b) => Weight(a) + Weight(b)
      case WhileUntil(a, k, b, e, c) => Weight(a) + Weight(b) + Weight(c)
      case For(a) => Weight(a)
      case DoLoop(a, plus) => Weight(a)
  }

  /** Run t. */
  function Eval(env: Env, t: Tree, w: World, fuel: nat): (r: Outcome)
    ensures r.Ends? ==> r.fuel <= fuel
    decreases fuel, Weight(t), 1
  {
    match t
    case Empty => Ends(Through, w, fuel)
    case Word(p) =>
      if fuel == 0 then Unfinished else if p.Execute? then EvalExecute(env, w, fuel) else EvalWord(env, p, w, fuel)
    case Literal(v) => if fuel == 0 then Unfinished else Ends(Through, w.(ds := [v] + w.ds), fuel - 1)
    case CallWord(xt) => if fuel == 0 then Unfinished else EvalCall(env, xt, w, fuel)
    case Seq(a, b) =>
      (match Eval(env, a, w, fuel)
       case Ends(Through, w1, f1) => Eval(env, b, w1, f1)
       case other => other)
    case If(k, a) =>
      if fuel == 0 then Unfinished
      else (match TestTop(k, w)
            case None => Undefined
            case Some((zero, w1)) =>
              if zero then Ends(Through, w1, fuel - 1) else Eval(env, a, w1, fuel - 1))
    case IfElse(k, a, b) =>
      if fuel == 0 then Unfinished
      else (match TestTop(k, w)
            case None => Undefined
            case Some((zero, w1)) =>
              if zero then Eval(env, b, w1, fuel - 1)
              else match Eval(env, a, w1, fuel - 1)
                case Ends(Through, w2, f2) => if f2 == 0 then Unfinished else Ends(Through, w2, f2 - 1)
                case other => other)
    case Until(a, k) =>
      (match Eval(env, a, w, fuel)
       case Ends(Through, w1, f1) =>
         if f1 == 0 then Unfinished
         else (match TestTop(k, w1)
               case None => Undefined
               case Some((zero, w2)) =>
                 if zero then Eval(env, t, w2, f1 - 1) else Ends(Through, w2, f1 - 1))
       case other => other)
    case Again(a) =>
      (match Eval(env, a, w, fuel)
       case Ends(Through, w1, f1) => if f1 == 0 then Unfinished else Eval(env, t, w1, f1 - 1)
       case other => other)
    case While(a, k, b) => EvalWhile(env, a, k, b, w, fuel)
    case WhileUntil(a, k, b, e, c) => EvalWhileUntil(env, a, k, b, e, c, w, fuel)
    case For(a) =>
      if fuel == 0 then Unfinished
      else (match TestTop(QueryTest, w)
            case None => Undefined
            case Some((zero, w1)) =>
              if zero then Ends(Through, w1, fuel - 1)
              else if fuel == 1 then Unfinished
              else EvalFor(env, a, w.(ds := w.ds[1..], rs := [Num(w.ds[0])] + w.rs), fuel - 2))
    case DoLoop(a, plus) =>
      if fuel == 0 then Unfinished
      else if |w.ds| < 2 then Undefined
      else EvalDo(env, a, plus, OpenLoop(w), fuel - 1)
  }

  /** begin a while b: either it has ended, or b has been run through. */
  datatype Head = Ended(o: Outcome) | BodyDone(w: World, fuel: nat)

  function EvalHead(env: Env, a: Tree, k: Test, b: Tree, w: World, fuel: nat): (r: Head)
    ensures r.Ended? && r.o.Ends? ==> r.o.fuel <= fuel
    ensures r.BodyDone? ==> r.fuel < fuel
    decreases fuel, Weight(a) + Weight(b), 3
  {
    match Eval(env, a, w, fuel)
    case Ends(Through, w1, f1) =>
      if f1 == 0 then Ended(Unfinished)
      else (match TestTop(k, w1)
            case None => Ended(Undefined)
            case Some((zero, w2)) =>
              if zero then Ended(Ends(Through, w2, f1 - 1))
              else match Eval(env, b, w2, f1 - 1)
                case Ends(Through, w3, f3) => BodyDone(w3, f3)
                case other => Ended(other))
    case other => Ended(other)
  }

  /** begin a while b repeat */
  function EvalWhile(env: Env, a: Tree, k: Test, b: Tree, w: World, fuel: nat): (r: Outcome)
    ensures r.Ends? ==> r.fuel <= fuel
    decreases fuel, Weight(a) + Weight(b), 4
  {
    match EvalHead(env, a, k, b, w, fuel)
    case Ended(o) => o
    case BodyDone(w1, f1) => if f1 == 0 then Unfinished else EvalWhile(env, a, k, b, w1, f1 - 1)
  }

  /** begin a while b until c then */
  function EvalWhileUntil(env: Env, a: Tree, k: Test, b: Tree, e: Test, c: Tree, w: World, fuel: nat): (r: Outcome)
    ensures r.Ends? ==> r.fuel <= fuel
    decreases fuel, Weight(a) + Weight(b) + Weight(c), 4
  {
    match EvalHead(env, a, k, b, w, fuel)
    case Ended(o) => o
    case BodyDone(w1, f1) =>
      if f1 == 0 then Unfinished
      else (match TestTop(e, w1)
            case None => Undefined
            case Some((zero, w2)) =>
              if zero then EvalWhileUntil(env, a, k, b, e, c, w2, f1 - 1) else Eval(env, c, w2, f1 - 1))
  }

  /** do  ( limit start) */
  function OpenLoop(w: World): World
    requires |w.ds| >= 2
  {
    w.(ds := w.ds[2..], rs := [Num(Sub(w.ds[0], w.ds[1])), Num(w.ds[1]), LoopExit] + w.rs)
  }

  /** A kernel word, or one of the ways out: ^, leave, ?leave. */
  function EvalWord(env: Env, p: Prim, w: World, fuel: nat): (r: Outcome)
    requires fuel > 0
    ensures r.Ends? ==> r.fuel < fuel
  {
    if p.Exit? then if w.rs == [] then Ends(Exiting, w, fuel - 1) else Undefined
    else if p.Leave? then if TopLoop(w.rs) then Ends(Leaving, w.(rs := w.rs[3..]), fuel - 1) else Undefined
    else if p.QLeave? then
      if |w.ds| < 1 then Undefined
      else if w.ds[0] == 0 then Ends(Through, w.(ds := w.ds[1..]), fuel - 1)
      else if TopLoop(w.rs) then Ends(Leaving, w.(ds := w.ds[1..], rs := w.rs[3..]), fuel - 1)
      else Undefined
    else match Simple(env, p, w)
      case None => Undefined
      case Some(w1) => Ends(Through, w1, fuel - 1)
  }

  /** execute: a kernel word, ^, leave and execute itself included, or a word of the program. */
  function EvalExecute(env: Env, w: World, fuel: nat): (r: Outcome)
    requires fuel > 0
    ensures r.Ends? ==> r.fuel < fuel
    decreases fuel, 0, 1
  {
    if |w.ds| < 1 then Undefined
    else if fuel == 1 then Unfinished
    else if 1 <= w.ds[0] <= CODES then
      if Decode(w.ds[0]).None? then Undefined
      else if Decode(w.ds[0]).value.Execute? then EvalExecute(env, w.(ds := w.ds[1..]), fuel - 1)
      else EvalWord(env, Decode(w.ds[0]).value, w.(ds := w.ds[1..]), fuel - 1)
    else EvalCall(env, w.ds[0], w.(ds := w.ds[1..]), fuel - 1)
  }

  /** The does> clause of a word made by create, as the two cells before its body say. */
  function Clause(env: Env, xt: Cell, w: World): Option<Cell>
  {
    if xt < TWO63 - 2 && DataFetch(env, w, xt) == Some(Code(DoDoes)) && DataFetch(env, w, xt + 1).Some?
       && DataFetch(env, w, xt + 1).value in env.clauses
    then DataFetch(env, w, xt + 1) else None
  }

  /** The text that a word of the program runs, where its code begins, and the world it
      starts in, with a return stack of its own. A does> clause finds the address of the
      body on the stack. */
  function Called(env: Env, xt: Cell, w: World): Option<(Tree, int, World)>
  {
    if xt in env.program then Some((env.program[xt], xt as int + 1, w.(rs := [])))
    else match Clause(env, xt, w)
      case None => None
      case Some(a) => Some((env.clauses[a], a as int, w.(rs := [], ds := [Wrap(xt as int + 2)] + w.ds)))
  }

  /** Call another word of the program: it must give its return stack back empty. */
  function EvalCall(env: Env, xt: Cell, w: World, fuel: nat): (r: Outcome)
    requires fuel > 0
    ensures r.Ends? ==> r.fuel < fuel
    decreases fuel, 0, 0
  {
    if Called(env, xt, w).None? then Undefined
    else match EvalColon(env, Called(env, xt, w).value.0, Called(env, xt, w).value.2, fuel - 1)
      case Ends(_, w1, f1) => Ends(Through, w1.(rs := w.rs), f1)
      case other => other
  }

  /** The body of a colon word, with the ^ that ; compiles. */
  function EvalColon(env: Env, t: Tree, w: World, fuel: nat): (r: Outcome)
    ensures r.Ends? ==> r.how == Exiting && r.w.rs == [] && r.fuel <= fuel
    decreases fuel, Weight(t), 2
  {
    match Eval(env, t, w, fuel)
    case Ends(Exiting, w1, f1) => if w1.rs == [] then Ends(Exiting, w1, f1) else Undefined
    case Ends(Leaving, _, _) => Undefined
    case Ends(Through, w1, f1) =>
      if f1 == 0 then Unfinished else if w1.rs == [] then Ends(Exiting, w1, f1 - 1) else Undefined
    case other => other
  }

  /** The body of a for loop and (next), until the count runs out. */
  function EvalFor(env: Env, a: Tree, w: World, fuel: nat): (r: Outcome)
    ensures r.Ends? ==> r.fuel <= fuel
    decreases fuel, Weight(a), 2
  {
    match Eval(env, a, w, fuel)
    case Ends(Through, w1, f1) =>
      if f1 == 0 then Unfinished
      else if !TopNums(w1.rs, 1) then Undefined
      else
        var count := Sub(w1.rs[0].c, 1);
        if count == 0 then Ends(Through, w1.(rs := w1.rs[1..]), f1 - 1)
        else EvalFor(env, a, w1.(rs := [Num(count)] + w1.rs[1..]), f1 - 1)
    case other => other
  }

  /** The body of a do loop and its end, until the loop is done or left. */
  function EvalDo(env: Env, a: Tree, plus: bool, w: World, fuel: nat): (r: Outcome)
    ensures r.Ends? ==> r.fuel <= fuel
    decreases fuel, Weight(a), 2
  {
    match Eval(env, a, w, fuel)
    case Ends(Through, w1, f1) =>
      if f1 == 0 then Unfinished
      else (match LoopEnd(plus, w1)
            case None => Undefined
            case Some((again, w2)) =>
              if again then EvalDo(env, a, plus, w2, f1 - 1) else Ends(Through, w2, f1 - 1))
    case Ends(Leaving, w1, f1) => Ends(Through, w1, f1)
    case other => other
  }
}
