/** The threaded virtual machine of src/engine-itc.c, src/kernel.c and
    src/muforth.h, as pure state transformers.

    Addresses count cells. Cell a of the heap has address a; the return stack
    occupies the addresses just below RSTACK_BASE, so the cell RP[k] has address
    RSTACK_BASE - |rs| + k. Both stacks are listed top first. */
module Machine {
  import opened Cells

  /** One past the highest cell of the return stack (RP0). */
  const RSTACK_BASE: Cell := 0x4000_0000_0000

  /** The C routines a code field can point to. */
  datatype Prim =
    // mu_do_colon and mu_do_does
    | DoColon | DoDoes
    // threading
    | Exit | Lit | Execute
    // control structure run-times
    | Branch | Equal0Branch | ZeroBranch | Q0Branch | Next
    | Do | Loop | PlusLoop | Leave | QLeave | LoopI | LoopJ | LoopK
    // return stack
    | RFetch | ToR | RFrom | TwoRFetch | TwoToR | TwoRFrom | RDrop | TwoRDrop
    | RpFetch | RpStore | RpPlusStore
    // memory
    | Fetch | Store | PlusStore
    // arithmetic and stack manipulation (kernel.c)
    | Nope | Plus | AndWord | OrWord | XorWord | Negate | InvertWord
    | TwoStar | TwoSlash | ULess | Less | ZeroLess | ZeroEqual
    | Dup | Over | Swap | Drop | TwoDrop | Star
    // C routines outside the kernel, taking one or two arguments
    | Action1 | Action2

  /** An observable call of a C routine outside the kernel: its xt and arguments. */
  datatype Event = Event(xt: Cell, args: seq<Cell>)

  datatype State = State(
    ds: seq<Cell>,        // data stack
    rs: seq<Cell>,        // return stack
    heap: seq<Cell>,
    ip: Cell,
    out: seq<Event>,
    junk: Cell -> Cell)   // what unused return-stack memory holds

  datatype Option<+T> = None | Some(value: T)

  /** The value CODE(f) a code field holds for routine f. */
  function Code(p: Prim): (c: Cell)
    ensures 1 <= c <= CODES
  {
    match p
    case DoColon => 1 case DoDoes => 2
    case Exit => 3 case Lit => 4 case Execute => 5
    case Branch => 6 case Equal0Branch => 7 case ZeroBranch => 8 case Q0Branch => 9 case Next => 10
    case Do => 11 case Loop => 12 case PlusLoop => 13 case Leave => 14 case QLeave => 15
    case LoopI => 16 case LoopJ => 17 case LoopK => 18
    case RFetch => 19 case ToR => 20 case RFrom => 21 case TwoRFetch => 22 case TwoToR => 23
    case TwoRFrom => 24 case RDrop => 25 case TwoRDrop => 26
    case RpFetch => 27 case RpStore => 28 case RpPlusStore => 29
    case Fetch => 30 case Store => 31 case PlusStore => 32
    case Nope => 33 case Plus => 34 case AndWord => 35 case OrWord => 36 case XorWord => 37
    case Negate => 38 case InvertWord => 39 case TwoStar => 40 case TwoSlash => 41
    case ULess => 42 case Less => 43 case ZeroLess => 44 case ZeroEqual => 45
    case Dup => 46 case Over => 47 case Swap => 48 case Drop => 49 case TwoDrop => 50
    case Star => 51 case Action1 => 52 case Action2 => 53
  }

  const CODES: Cell := 53

  /** FUN: the routine a code field value denotes. */
  function Decode(c: Cell): Option<Prim>
  {
    if c <= 18 then DecodeControl(c) else if c <= 32 then DecodeMemory(c) else DecodeKernel(c)
  }

  function DecodeControl(c: Cell): Option<Prim>
  {
    if c == 1 then Some(DoColon) else if c == 2 then Some(DoDoes)
    else if c == 3 then Some(Exit) else if c == 4 then Some(Lit) else if c == 5 then Some(Execute)
    else if c == 6 then Some(Branch) else if c == 7 then Some(Equal0Branch)
    else if c == 8 then Some(ZeroBranch) else if c == 9 then Some(Q0Branch) else if c == 10 then Some(Next)
    else if c == 11 then Some(Do) else if c == 12 then Some(Loop) else if c == 13 then Some(PlusLoop)
    else if c == 14 then Some(Leave) else if c == 15 then Some(QLeave)
    else if c == 16 then Some(LoopI) else if c == 17 then Some(LoopJ) else if c == 18 then Some(LoopK)
    else None
  }

  function DecodeMemory(c: Cell): Option<Prim>
  {
    if c == 19 then Some(RFetch) else if c == 20 then Some(ToR) else if c == 21 then Some(RFrom)
    else if c == 22 then Some(TwoRFetch) else if c == 23 then Some(TwoToR) else if c == 24 then Some(TwoRFrom)
    else if c == 25 then Some(RDrop) else if c == 26 then Some(TwoRDrop)
    else if c == 27 then Some(RpFetch) else if c == 28 then Some(RpStore) else if c == 29 then Some(RpPlusStore)
    else if c == 30 then Some(Fetch) else if c == 31 then Some(Store) else if c == 32 then Some(PlusStore)
    else None
  }

  function DecodeKernel(c: Cell): Option<Prim>
  {
    if c == 33 then Some(Nope) else if c == 34 then Some(Plus) else if c == 35 then Some(AndWord)
    else if c == 36 then Some(OrWord) else if c == 37 then Some(XorWord) else if c == 38 then Some(Negate)
    else if c == 39 then Some(InvertWord) else if c == 40 then Some(TwoStar) else if c == 41 then Some(TwoSlash)
    else if c == 42 then Some(ULess) else if c == 43 then Some(Less) else if c == 44 then Some(ZeroLess)
    else if c == 45 then Some(ZeroEqual) else if c == 46 then Some(Dup) else if c == 47 then Some(Over)
    else if c == 48 then Some(Swap) else if c == 49 then Some(Drop) else if c == 50 then Some(TwoDrop)
    else if c == 51 then Some(Star) else if c == 52 then Some(Action1) else if c == 53 then Some(Action2)
    else None
  }

  lemma DecodeCode(p: Prim)
    ensures Decode(Code(p)) == Some(p)
  {}

  /** The routine an execution token leads to: *W after W = UNHEAPIFY(xt). */
  function Fun(heap: seq<Cell>, xt: Cell): Option<Prim>
  {
    if 0 <= xt < |heap| then Decode(heap[xt]) else None
  }

  /** The execution token of a kernel word. The model lets the code field of a
      kernel word stand at the address equal to its code value. */
  function Xt(p: Prim): Cell { Code(p) }

  /** The heap holds the code fields of the kernel words. */
  ghost predicate KernelLoaded(heap: seq<Cell>)
  {
    |heap| > CODES && forall k: Cell :: 1 <= k <= CODES ==> heap[k] == k
  }

  lemma KernelWord(heap: seq<Cell>, p: Prim)
    requires KernelLoaded(heap)
    ensures Fun(heap, Xt(p)) == Some(p)
  {
    hide Code, Decode;
    DecodeCode(p);
  }

  // Memory and the return stack

  /** The address in RP. */
  function RpOf(s: State): int { RSTACK_BASE - |s.rs| }

  function Read(s: State, a: Cell): Option<Cell>
  {
    if 0 <= a < |s.heap| then Some(s.heap[a])
    else if RpOf(s) <= a < RSTACK_BASE then Some(s.rs[a - RpOf(s)])
    else None
  }

  function Write(s: State, a: Cell, v: Cell): Option<State>
  {
    if 0 <= a < |s.heap| then Some(s.(heap := s.heap[a := v]))
    else if RpOf(s) <= a < RSTACK_BASE then Some(s.(rs := s.rs[a - RpOf(s) := v]))
    else None
  }

  /** Move RP so that the return stack holds depth cells. Cells that come into
      view hold whatever the memory held. */
  function SetDepth(s: State, depth: int): Option<State>
  {
    if depth < 0 || depth > TWO63 then None
    else if depth <= |s.rs| then Some(s.(rs := s.rs[|s.rs| - depth..]))
    else Some(s.(rs := Exposed(s, depth) + s.rs))
  }

  function Exposed(s: State, depth: int): (r: seq<Cell>)
    requires |s.rs| < depth <= TWO63
    ensures |r| == depth - |s.rs|
  {
    seq(depth - |s.rs|, i requires 0 <= i < depth - |s.rs| => s.junk(RSTACK_BASE - depth + i))
  }

  /** The cell IP points to. */
  function AtIp(s: State): Option<Cell>
  {
    if 0 <= s.ip < |s.heap| then Some(s.heap[s.ip]) else None
  }

  function Jump(s: State): Option<State>
  {
    match AtIp(s) case None => None case Some(d) => Some(s.(ip := d))
  }

  function Skip(s: State): State { s.(ip := Add(s.ip, 1)) }

  function Push(s: State, v: Cell): State { s.(ds := [v] + s.ds) }

  function RPush(s: State, v: Cell): State { s.(rs := [v] + s.rs) }

  // The kernel words that touch nothing but the data stack

  predicate IsAlu(p: Prim)
  {
    p.Nope? || p.Plus? || p.AndWord? || p.OrWord? || p.XorWord? || p.Negate? || p.InvertWord?
    || p.TwoStar? || p.TwoSlash? || p.ULess? || p.Less? || p.ZeroLess? || p.ZeroEqual?
    || p.Dup? || p.Over? || p.Swap? || p.Drop? || p.TwoDrop? || p.Star?
  }

  function Alu(p: Prim, ds: seq<Cell>): Option<seq<Cell>>
    requires IsAlu(p)
  {
    if p.Nope? then Some(ds)
    else if |ds| < 1 then None
    else if p.Negate? then Some([Sub(0, ds[0])] + ds[1..])
    else if p.InvertWord? then Some([Invert(ds[0])] + ds[1..])
    else if p.TwoStar? then Some([Mul(ds[0], 2)] + ds[1..])
    else if p.TwoSlash? then Some([ds[0] / 2] + ds[1..])
    else if p.ZeroLess? then Some([Flag(ds[0] < 0)] + ds[1..])
    else if p.ZeroEqual? then Some([Flag(ds[0] == 0)] + ds[1..])
    else if p.Dup? then Some([ds[0]] + ds)
    else if p.Drop? then Some(ds[1..])
    else if |ds| < 2 then None
    else if p.Plus? then Some([Add(ds[1], ds[0])] + ds[2..])
    else if p.AndWord? then Some([And(ds[1], ds[0])] + ds[2..])
    else if p.OrWord? then Some([Or(ds[1], ds[0])] + ds[2..])
    else if p.XorWord? then Some([Xor(ds[1], ds[0])] + ds[2..])
    else if p.Star? then Some([Mul(ds[1], ds[0])] + ds[2..])
    else if p.ULess? then Some([Flag(Unsigned(ds[1]) < Unsigned(ds[0]))] + ds[2..])
    else if p.Less? then Some([Flag(ds[1] < ds[0])] + ds[2..])
    else if p.Over? then Some([ds[1]] + ds)
    else if p.Swap? then Some([ds[1], ds[0]] + ds[2..])
    else assert p.TwoDrop?; Some(ds[2..])
  }

  /** One C routine other than mu_execute, run with W already past the code
      field. None stands for an access outside the stacks and the heap. */
  function Routine(p: Prim, w: int, s: State): Option<State>
    requires !p.Execute?
  {
    if IsAlu(p) then
      match Alu(p, s.ds) case None => None case Some(d) => Some(s.(ds := d))
    else match p
      case DoColon => Some(RPush(s, s.ip).(ip := Wrap(w)))
      case DoDoes =>
        if 0 <= w < |s.heap| then Some(Push(RPush(s, s.ip).(ip := s.heap[w]), Wrap(w + 1))) else None
      case Exit => if |s.rs| < 1 then None else Some(s.(ip := s.rs[0], rs := s.rs[1..]))
      case Lit => (match AtIp(s) case None => None case Some(v) => Some(Push(Skip(s), v)))
      case Branch => Jump(s)
      case Equal0Branch =>
        if |s.ds| < 1 then None else if s.ds[0] == 0 then Jump(s) else Some(Skip(s))
      case ZeroBranch =>
        if |s.ds| < 1 then None
        else if s.ds[0] == 0 then Jump(s.(ds := s.ds[1..])) else Some(Skip(s.(ds := s.ds[1..])))
      case Q0Branch =>
        if |s.ds| < 1 then None else if s.ds[0] == 0 then Jump(s.(ds := s.ds[1..])) else Some(Skip(s))
      case Next =>
        if |s.rs| < 1 then None
        else
          var count := Sub(s.rs[0], 1);
          if count == 0 then Some(Skip(s.(rs := s.rs[1..])))
          else Jump(s.(rs := [count] + s.rs[1..]))
      case Do =>
        if |s.ds| < 2 || AtIp(s).None? then None
        else Some(Skip(s.(ds := s.ds[2..],
                          rs := [Sub(s.ds[0], s.ds[1]), s.ds[1], AtIp(s).value] + s.rs)))
      case Loop =>
        if |s.rs| < 3 then None
        else
          var index := Add(s.rs[0], 1);
          if index == 0 then Some(Skip(s.(rs := s.rs[3..])))
          else Jump(s.(rs := [index] + s.rs[1..]))
      case PlusLoop =>
        if |s.rs| < 3 || |s.ds| < 1 then None
        else
          var index := Add(s.rs[0], s.ds[0]);
          // (index ^ previous) < 0: the sign bits differ
          if (index < 0) != (s.rs[0] < 0) then Some(Skip(s.(rs := s.rs[3..], ds := s.ds[1..])))
          else Jump(s.(rs := [index] + s.rs[1..], ds := s.ds[1..]))
      case Leave => if |s.rs| < 3 then None else Some(s.(ip := s.rs[2], rs := s.rs[3..]))
      case QLeave =>
        if |s.ds| < 1 then None
        else if s.ds[0] == 0 then Some(s.(ds := s.ds[1..]))
        else if |s.rs| < 3 then None
        else Some(s.(ds := s.ds[1..], ip := s.rs[2], rs := s.rs[3..]))
      case LoopI => if |s.rs| < 2 then None else Some(Push(s, Add(s.rs[0], s.rs[1])))
      case LoopJ => if |s.rs| < 5 then None else Some(Push(s, Add(s.rs[3], s.rs[4])))
      case LoopK => if |s.rs| < 8 then None else Some(Push(s, Add(s.rs[6], s.rs[7])))
      case RFetch => if |s.rs| < 1 then None else Some(Push(s, s.rs[0]))
      case ToR => if |s.ds| < 1 then None else Some(RPush(s.(ds := s.ds[1..]), s.ds[0]))
      case RFrom => if |s.rs| < 1 then None else Some(Push(s.(rs := s.rs[1..]), s.rs[0]))
      case TwoRFetch => if |s.rs| < 2 then None else Some(s.(ds := [s.rs[0], s.rs[1]] + s.ds))
      case TwoToR => if |s.ds| < 2 then None else Some(s.(rs := [s.ds[0], s.ds[1]] + s.rs, ds := s.ds[2..]))
      case TwoRFrom => if |s.rs| < 2 then None else Some(s.(ds := [s.rs[0], s.rs[1]] + s.ds, rs := s.rs[2..]))
      case RDrop => if |s.rs| < 1 then None else Some(s.(rs := s.rs[1..]))
      case TwoRDrop => if |s.rs| < 2 then None else Some(s.(rs := s.rs[2..]))
      case RpFetch => Some(Push(s, Wrap(RpOf(s))))
      case RpStore => if |s.ds| < 1 then None else SetDepth(s.(ds := s.ds[1..]), RSTACK_BASE - s.ds[0])
      case RpPlusStore => if |s.ds| < 1 then None else SetDepth(s.(ds := s.ds[1..]), |s.rs| - s.ds[0])
      case Fetch =>
        if |s.ds| < 1 then None
        else (match Read(s, s.ds[0]) case None => None case Some(v) => Some(s.(ds := [v] + s.ds[1..])))
      case Store => if |s.ds| < 2 then None else Write(s.(ds := s.ds[2..]), s.ds[0], s.ds[1])
      case PlusStore =>
        if |s.ds| < 2 then None
        else (match Read(s, s.ds[0])
              case None => None
              case Some(v) => Write(s.(ds := s.ds[2..]), s.ds[0], Add(v, s.ds[1])))
      case Action1 =>
        if |s.ds| < 1 then None
        else Some(s.(ds := s.ds[1..], out := s.out + [Event(Wrap(w - 1), [s.ds[0]])]))
      case Action2 =>
        if |s.ds| < 2 then None
        else Some(s.(ds := s.ds[2..], out := s.out + [Event(Wrap(w - 1), [s.ds[1], s.ds[0]])]))
  }
}
