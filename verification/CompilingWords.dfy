/** The compiling words as mu/startup.mu4 defines them: they store into the heap at
    here, leave addresses on the stack, and come back later to fill in marked cells. */
module CompilingWords {
  import opened Cells
  import opened Machine
  import opened Control

  class Compiler {
    var heap: array<Cell>
    var hp: nat            // here
    var stack: seq<Cell>   // the data stack while compiling, top first

    constructor (capacity: nat)
      requires capacity < TWO63
      ensures Valid() && Abs() == CState([], []) && heap.Length == capacity && fresh(heap)
    {
      heap := new Cell[capacity](_ => 0);
      hp, stack := 0, [];
    }

    ghost predicate Valid()
      reads this
    {
      hp <= heap.Length < TWO63
    }

    ghost function Abs(): CState
      reads this, heap
      requires Valid()
    {
      CState(heap[..hp], stack)
    }

    /** There is room for n more cells. */
    ghost predicate Room(n: nat)
      reads this
    {
      hp + n <= heap.Length
    }

    /** , */
    method Comma(v: Cell)
      requires Valid() && Room(1)
      modifies this`hp, heap
      ensures Valid() && hp == old(hp) + 1 && Abs() == Control.Comma(old(Abs()), v)
    {
      heap[hp] := v;
      hp := hp + 1;
    }

    /** compile p */
    method Compile(p: Prim)
      requires Valid() && Room(1)
      modifies this`hp, heap
      ensures Valid() && hp == old(hp) + 1 && Abs() == Compiling(old(Abs()), p)
    {
      Comma(Xt(p));
    }

    /** mark  ( - src)  here  0 , */
    method Mark()
      requires Valid() && Room(1)
      modifies this`hp, this`stack, heap
      ensures Valid() && hp == old(hp) + 1 && Abs() == Control.Mark(old(Abs()))
    {
      stack := [hp] + stack;
      Comma(0);
    }

    /** <resolve  ( dest src)  ! */
    method BackResolve()
      requires Valid() && Control.BackResolve(Abs()).Some?
      modifies this`stack, heap
      ensures Valid() && Control.BackResolve(old(Abs())) == Some(Abs())
    {
      heap[stack[0]] := stack[1];
      stack := stack[2..];
    }

    /** then  ( src)  here >resolve */
    method Then()
      requires Valid() && Control.Then(Abs()).Some?
      modifies this`stack, heap
      ensures Valid() && Control.Then(old(Abs())) == Some(Abs())
    {
      stack := [hp] + stack;            // here
      stack := [stack[1], stack[0]] + stack[2..];  // swap
      assert stack[2..] == old(stack)[1..];
      BackResolve();
    }

    method Swap()
      requires Valid() && SwapTop(Abs()).Some?
      modifies this`stack
      ensures Valid() && SwapTop(old(Abs())) == Some(Abs())
    {
      stack := [stack[1], stack[0]] + stack[2..];
    }

    method If(k: Test)
      requires Valid() && Room(2)
      modifies this`hp, this`stack, heap
      ensures Valid() && hp == old(hp) + 2 && Abs() == OpenIf(old(Abs()), k)
    {
      Compile(TestPrim(k));
      Mark();
    }

    method Begin()
      requires Valid()
      modifies this`stack
      ensures Valid() && Abs() == Control.Begin(old(Abs()))
    {
      stack := [hp] + stack;
    }

    method Again()
      requires Valid() && Room(2) && AgainWord(Abs()).Some?
      modifies this`hp, this`stack, heap
      ensures Valid() && hp == old(hp) + 2 && AgainWord(old(Abs())) == Some(Abs())
    {
      Compile(Branch);
      Mark();
      BackResolve();
    }

    method Else()
      requires Valid() && Room(2) && Emit(TElse, Abs()).Some?
      modifies this`hp, this`stack, heap
      ensures Valid() && hp == old(hp) + 2 && Emit(TElse, old(Abs())) == Some(Abs())
    {
      Compile(Branch);
      Mark();
      Swap();
      Then();
    }

    method Close(p: Prim)
      requires Valid() && Room(2) && CloseLoop(Abs(), p).Some?
      modifies this`hp, this`stack, heap
      ensures Valid() && hp == old(hp) + 2 && CloseLoop(old(Abs()), p) == Some(Abs())
    {
      Compile(p);
      Mark();
      BackResolve();
      Then();
    }

    /** Compile one token. */
    method EmitToken(t: Token)
      requires Valid() && Room(CellsOf(t)) && Emit(t, Abs()).Some?
      modifies this`hp, this`stack, heap
      ensures Valid() && hp == old(hp) + CellsOf(t) && Emit(t, old(Abs())) == Some(Abs())
    {
      match t
      case TWord(p) => Compile(p);
      case TLiteral(v) => Compile(Lit); Comma(v);
      case TCall(xt) => Comma(xt);
      case TIf(k) => If(k);
      case TElse => Else();
      case TThen => Then();
      case TBegin => Begin();
      case TUntil(k) => If(k); BackResolve();
      case TAgain => Again();
      case TWhile(k) => If(k); Swap();
      case TRepeat => Again(); Then();
      case TFor => If(QueryTest); Compile(ToR); Begin();
      case TNext => Close(Next);
      case TDo => Compile(Do); Mark(); Begin();
      case TLoop(plus) => Close(LoopPrim(plus));
    }

    /** Compile a well-nested text: the heap gains exactly its layout at here, and the
        stack is as it was. */
    method CompileText(t: Tree)
      requires Valid() && Room(|Layout(t, hp)|)
      modifies this`hp, this`stack, heap
      ensures Valid() && stack == old(stack)
      ensures hp == old(hp) + |Layout(t, old(hp))|
      ensures heap[..hp] == old(heap[..hp]) + Layout(t, old(hp))
    {
      var ts := Tokens(t);
      var i := 0;
      Compiles(t, Abs());
      ghost var end := EmitAll(ts, Abs());
      while i < |ts|
        invariant 0 <= i <= |ts| && Valid() && EmitAll(ts[i..], Abs()) == end
      {
        assert ts[i..][0] == ts[i] && ts[i..][1..] == ts[i + 1..];
        EmitGrows(ts[i], Abs());
        EmitAllGrows(ts[i + 1..], Emit(ts[i], Abs()).value);
        EmitToken(ts[i]);
        i := i + 1;
      }
    }
  }

  /** The cells that compiling a token takes. */
  function CellsOf(t: Token): nat
  {
    if t.TThen? || t.TBegin? then 0 else if t.TWord? || t.TCall? then 1 else if t.TFor? then 3 else 2
  }

  lemma EmitGrows(t: Token, c: CState)
    requires Emit(t, c).Some?
    ensures |Emit(t, c).value.heap| == |c.heap| + CellsOf(t)
  {}

  lemma {:induction false} EmitAllGrows(ts: seq<Token>, c: CState)
    requires EmitAll(ts, c).Some?
    ensures |EmitAll(ts, c).value.heap| >= |c.heap|
    decreases |ts|
  {
    if ts != [] {
      EmitGrows(ts[0], c);
      EmitAllGrows(ts[1..], Emit(ts[0], c).value);
    }
  }
}
