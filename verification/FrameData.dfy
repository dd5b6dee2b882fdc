/** The frames that preserve, on-exit, on-exit2 and room build on the return stack, as
    values, and what their cleanup words are to do. */
module FrameData {
  import opened Cells
  import opened Machine
  import opened Inner
  import opened Image

  /** What a routine filed by on-exit or on-exit2 does, given its arguments with the top of
      the stack first, the value of unwinding, and user memory: it changes user memory and
      calls routines outside the model. */
  datatype Effect = Effect(
    memory: (seq<Cell>, Cell, seq<Cell>) -> seq<Cell>,
    calls: (seq<Cell>, Cell, seq<Cell>) -> seq<Event>)

  datatype Frame =
    | Preserved(variable: Cell, value: Cell)              // preserve: address and saved value
    | OnExit(xt: Cell, v: Cell, fx: Effect)               // on-exit: cleanup routine and value
    | OnExit2(xt: Cell, v1: Cell, v2: Cell, fx: Effect)   // on-exit2
    | Room(cells: seq<Cell>)                              // room: local cells, lowest first

  /** The cleanup word stored in the frame. */
  function CleanupWord(f: Frame): Cell
  {
    match f
    case Preserved(_, _) => RESTORE
    case OnExit(_, _, _) => CLEANUP
    case OnExit2(_, _, _, _) => CLEANUP2
    case Room(_) => UNROOM
  }

  /** What lies above the link in the frame. */
  function Payload(f: Frame): seq<Cell>
  {
    match f
    case Preserved(a, v) => [v, a]
    case OnExit(xt, v, _) => [v, xt]
    case OnExit2(xt, v1, v2, _) => [v1, v2, xt]
    case Room(cells) => [Wrap(|cells|)] + cells
  }

  /** What a filed routine finds on the data stack. */
  function Arguments(f: Frame): seq<Cell>
    requires f.OnExit? || f.OnExit2?
  {
    if f.OnExit? then [f.v] else [f.v2, f.v1]
  }

  // ----- filed routines -----

  /** User memory after the routine. */
  function Affected(fx: Effect, args: seq<Cell>, h: seq<Cell>): (r: seq<Cell>)
    ensures |r| == |h|
  {
    if |h| <= USER then h
    else
      var m := fx.memory(args, h[UNWINDING_VALUE], h[USER..]);
      if |m| == |h| - USER then h[..USER] + m else h
  }

  /** The outside calls of the routine. */
  function CallsOf(fx: Effect, args: seq<Cell>, h: seq<Cell>): seq<Event>
  {
    if |h| <= USER then [] else fx.calls(args, h[UNWINDING_VALUE], h[USER..])
  }

  /** The machine when the routine, executed with n arguments, has returned. */
  function Cleaned(s: State, n: nat, fx: Effect): State
    requires n <= |s.ds|
  {
    s.(ds := s.ds[n..], heap := Affected(fx, s.ds[..n], s.heap), out := s.out + CallsOf(fx, s.ds[..n], s.heap))
  }

  /** With this code in a heap of this size, the word xt does fx and does not throw: called
      with n arguments, whatever else is on the stacks and in memory, it returns after some
      number of CALLs with its arguments dropped, and IP and the return stack as they were. */
  ghost predicate Cleans(code: seq<Cell>, size: nat, xt: Cell, n: nat, fx: Effect)
  {
    forall g: nat, s: State :: CleansAt(code, size, xt, n, fx, g, s)
  }

  ghost predicate CleansAt(code: seq<Cell>, size: nat, xt: Cell, n: nat, fx: Effect, g: nat, s: State)
  {
    Loaded(s.heap) && |s.heap| == size && s.heap[..VARIABLES] == code && n <= |s.ds| && g < |s.rs| < 0x1000_0000 ==>
      exists k: nat :: CleansIn(xt, n, fx, g, s, k)
  }

  ghost predicate CleansIn(xt: Cell, n: nat, fx: Effect, g: nat, s: State, k: nat)
    requires n <= |s.ds|
  {
    forall fuel: nat :: Resume(g, Call(xt, s, fuel + k)) == Run(g, Cleaned(s, n, fx), fuel)
  }

  lemma CleansHere(code: seq<Cell>, size: nat, xt: Cell, n: nat, fx: Effect, g: nat, s: State) returns (k: nat)
    requires Cleans(code, size, xt, n, fx)
    requires Loaded(s.heap) && |s.heap| == size && s.heap[..VARIABLES] == code
    requires n <= |s.ds| && g < |s.rs| < 0x1000_0000
    ensures CleansIn(xt, n, fx, g, s, k)
  {
    assert CleansAt(code, size, xt, n, fx, g, s);
    k :| CleansIn(xt, n, fx, g, s, k);
  }

  // ----- frames -----

  /** A frame whose cleanup can be run: it restores a user variable, or drops local cells, or
      calls a routine that does what its effect says. */
  ghost predicate Sane(h: seq<Cell>, f: Frame)
  {
    match f
    case Preserved(a, _) => USER <= a < |h|
    case OnExit(xt, _, fx) => VARIABLES <= |h| && Cleans(h[..VARIABLES], |h|, xt, 1, fx)
    case OnExit2(xt, _, _, fx) => VARIABLES <= |h| && Cleans(h[..VARIABLES], |h|, xt, 2, fx)
    case Room(cells) => |cells| < 0x1000_0000
  }

  /** The heap after the frame's cleanup. */
  function Restored(f: Frame, h: seq<Cell>): (r: seq<Cell>)
    ensures |r| == |h|
  {
    if f.Room? then h
    else if f.Preserved? then if USER <= f.variable < |h| then h[f.variable := f.value] else h
    else Affected(f.fx, Arguments(f), h)
  }

  /** The calls of outside routines after the frame's cleanup, which finds the heap h. */
  function Noted(f: Frame, h: seq<Cell>, out: seq<Event>): seq<Event>
  {
    if f.OnExit? || f.OnExit2? then out + CallsOf(f.fx, Arguments(f), h) else out
  }

  /** Frames stay sane as long as the code does not change. */
  lemma SaneKept(h: seq<Cell>, k: seq<Cell>, f: Frame)
    requires Sane(h, f) && |k| == |h| && |h| >= VARIABLES && k[..VARIABLES] == h[..VARIABLES]
    ensures Sane(k, f)
  {}

  /** Cleanups change user memory only. */
  lemma RestoredBelow(f: Frame, h: seq<Cell>)
    requires |h| > USER
    ensures Restored(f, h)[..USER] == h[..USER] && Restored(f, h)[..VARIABLES] == h[..VARIABLES]
  {
    var k := Restored(f, h);
    assert k[..USER] == h[..USER];
    assert k[..VARIABLES] == k[..USER][..VARIABLES];
  }

  /** ... and do not look at fp and cf. */
  lemma RestoredElsewhere(f: Frame, h: seq<Cell>, a: int, v: Cell)
    requires 0 <= a < USER < |h| && a != UNWINDING_VALUE
    ensures Restored(f, h[a := v]) == Restored(f, h)[a := v]
    ensures Restored(f, h)[a] == h[a]
    ensures forall out: seq<Event> :: Noted(f, h[a := v], out) == Noted(f, h, out)
  {
    assert h[a := v][USER..] == h[USER..] && h[a := v][..USER] == h[..USER][a := v];
    if f.Preserved? && USER <= f.variable < |h| {
      assert h[a := v][f.variable := f.value] == h[f.variable := f.value][a := v];
    }
  }
}
