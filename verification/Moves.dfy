/** Moves that code makes between the frame words: the loop words and the two-cell words,
    which take several cells on or off the return stack in one CALL; stores into local cells
    by address; and a whole catch of a word that returns by itself. */
module Moves {
  import opened Cells
  import opened Machine
  import opened Inner
  import opened Image
  import opened FrameData
  import opened Steps
  import opened WordCells
  import opened FrameWords
  import opened Protocol
  import opened Exceptions

  lemma OneCall(g: nat, s: State, p: Prim, t: State)
    requires Here(g, s, Xt(p)) && !p.Execute? && Routine(p, Xt(p) + 1, s.(ip := s.ip + 1)) == Some(t)
    ensures Leads(g, s, t)
  {
    hide Run, Routine, Loaded;
    forall fuel: nat ensures Run(g, s, fuel + 1) == Run(g, t, fuel) { Routines(g, s, fuel, p, t); }
    assert LeadsIn(g, s, t, 1);
  }

  lemma Effects1(a: Act, s: State)
    requires IsFree(a)
    ensures AllFree([a]) && Effects([a], s) == Effect1(a, s)
  {
    hide Effect1;
    assert [a][1..] == [];
    if Effect1(a, s).Some? { assert Effects([], Effect1(a, s).value) == Effect1(a, s); }
  }

  lemma EffectsNext(a: Act, acts: seq<Act>, s: State)
    requires IsFree(a) && AllFree(acts) && Effect1(a, s).Some?
    ensures AllFree([a] + acts) && Effects([a] + acts, s) == Effects(acts, Effect1(a, s).value)
  {
    hide Effect1, IsFree;
    assert ([a] + acts)[1..] == acts;
  }

  /** The first n cells come off. */
  function Pops(n: nat): seq<Act> { if n == 0 then [] else [Pop] + Pops(n - 1) }

  lemma {:induction false} PopsTake(n: nat, s: State)
    requires n <= |s.rs|
    ensures AllFree(Pops(n)) && Effects(Pops(n), s) == Some(s.(rs := s.rs[n..]))
  {
    if n == 0 {
      assert s.rs[0..] == s.rs;
    } else {
      var t := s.(rs := s.rs[1..]);
      PopsTake(n - 1, t);
      EffectsNext(Pop, Pops(n - 1), s);
      assert t.rs[n - 1..] == s.rs[n..];
    }
  }

  /** cells go on, the last one first. */
  function Pushes(cells: seq<Cell>): seq<Act>
  {
    if cells == [] then [] else [Push(cells[|cells| - 1])] + Pushes(cells[..|cells| - 1])
  }

  lemma {:induction false} PushesAdd(cells: seq<Cell>, s: State)
    ensures AllFree(Pushes(cells)) && Effects(Pushes(cells), s) == Some(s.(rs := cells + s.rs))
    decreases |cells|
  {
    if cells == [] {
      assert cells + s.rs == s.rs;
    } else {
      var c, rest := cells[|cells| - 1], cells[..|cells| - 1];
      var t := s.(rs := [c] + s.rs);
      PushesAdd(rest, t);
      EffectsNext(Push(c), Pushes(rest), s);
      assert rest + t.rs == cells + s.rs;
    }
  }

  // ----- loops -----

  /** (do) makes one move of three cells. */
  lemma DoMoves(g: nat, s: State)
    requires Here(g, s, Xt(Do)) && s.ip + 1 < VARIABLES && |s.ds| >= 2
    ensures |s.heap| > USER
    ensures var loop := [Sub(s.ds[0], s.ds[1]), s.ds[1], s.heap[s.ip + 1]];
            AllFree(Pushes(loop))
            && Freely(g, Pushes(loop), s, s.(ip := s.ip + 2, ds := s.ds[2..], rs := loop + s.rs))
  {
    hide Loaded, Pushes, Leads, Sub;
    VariableCells(s.heap);
    var loop := [Sub(s.ds[0], s.ds[1]), s.ds[1], s.heap[s.ip + 1]];
    OneCall(g, s, Do, s.(ip := s.ip + 2, ds := s.ds[2..], rs := loop + s.rs));
    PushesAdd(loop, s);
  }

  /** What (loop) and (+loop) do to the machine: the index is changed, or all three cells come
      off. */
  function LoopActs(index: Cell, done: bool): seq<Act> { if done then Pops(3) else [Change(0, index)] }

  function Looped(s: State, index: Cell, done: bool, d: seq<Cell>): State
    requires |s.rs| >= 3 && 0 <= s.ip && s.ip + 1 < VARIABLES < |s.heap|
  {
    if done then s.(ip := s.ip + 2, ds := d, rs := s.rs[3..])
    else s.(ip := s.heap[s.ip + 1], ds := d, rs := s.rs[0 := index])
  }

  lemma LoopMade(s: State, index: Cell, done: bool, d: seq<Cell>)
    requires |s.rs| >= 3 && 0 <= s.ip && s.ip + 1 < VARIABLES < |s.heap|
    ensures AllFree(LoopActs(index, done))
    ensures Effects(LoopActs(index, done), s).Some?
    ensures var t := Looped(s, index, done, d);
            t == Effects(LoopActs(index, done), s).value.(ds := t.ds, ip := t.ip)
  {
    hide Pops, Effects, AllFree;
    if done { PopsTake(3, s); } else { Effects1(Change(0, index), s); }
  }

  /** (loop) */
  lemma LoopMoves(g: nat, s: State)
    requires Here(g, s, Xt(Loop)) && s.ip + 1 < VARIABLES && |s.rs| >= 3
    ensures |s.heap| > USER
    ensures var index := Add(s.rs[0], 1);
            AllFree(LoopActs(index, index == 0))
            && Freely(g, LoopActs(index, index == 0), s, Looped(s, index, index == 0, s.ds))
  {
    hide Loaded, LoopActs, Leads, Add, Effects, AllFree;
    VariableCells(s.heap);
    assert Add(s.ip + 1, 1) == s.ip + 2 by { Small(s.ip); }
    var index := Add(s.rs[0], 1);
    LoopMade(s, index, index == 0, s.ds);
    assert [index] + s.rs[1..] == s.rs[0 := index];
    OneCall(g, s, Loop, Looped(s, index, index == 0, s.ds));
  }

  /** (+loop) */
  lemma PlusLoopMoves(g: nat, s: State)
    requires Here(g, s, Xt(PlusLoop)) && s.ip + 1 < VARIABLES && |s.rs| >= 3 && |s.ds| >= 1
    ensures |s.heap| > USER
    ensures var index := Add(s.rs[0], s.ds[0]);
            var done := (index < 0) != (s.rs[0] < 0);
            AllFree(LoopActs(index, done)) && Freely(g, LoopActs(index, done), s, Looped(s, index, done, s.ds[1..]))
  {
    hide Loaded, LoopActs, Leads, Add, Effects, AllFree;
    VariableCells(s.heap);
    assert Add(s.ip + 1, 1) == s.ip + 2 by { Small(s.ip); }
    var index := Add(s.rs[0], s.ds[0]);
    var done := (index < 0) != (s.rs[0] < 0);
    LoopMade(s, index, done, s.ds[1..]);
    assert [index] + s.rs[1..] == s.rs[0 := index];
    OneCall(g, s, PlusLoop, Looped(s, index, done, s.ds[1..]));
  }

  lemma Small(a: Cell)
    requires 0 <= a < VARIABLES
    ensures Add(a + 1, 1) == a + 2
  {}

  /** leave takes the loop's cells off, from anywhere in the loop where they are on top. */
  lemma LeaveMoves(g: nat, s: State)
    requires Here(g, s, Xt(Leave)) && |s.rs| >= 3
    ensures AllFree(Pops(3)) && Freely(g, Pops(3), s, s.(ip := s.rs[2], rs := s.rs[3..]))
  {
    hide Loaded, Pops, Leads;
    OneCall(g, s, Leave, s.(ip := s.rs[2], rs := s.rs[3..]));
    PopsTake(3, s);
  }

  // ----- two cells at once -----

  lemma TwoToRMoves(g: nat, s: State)
    requires Here(g, s, Xt(TwoToR)) && |s.ds| >= 2
    ensures var cells := [s.ds[0], s.ds[1]];
            AllFree(Pushes(cells))
            && Freely(g, Pushes(cells), s, s.(ip := s.ip + 1, ds := s.ds[2..], rs := cells + s.rs))
  {
    hide Loaded, Pushes, Leads;
    var cells := [s.ds[0], s.ds[1]];
    OneCall(g, s, TwoToR, s.(ip := s.ip + 1, ds := s.ds[2..], rs := cells + s.rs));
    PushesAdd(cells, s);
  }

  lemma TwoRFromMoves(g: nat, s: State)
    requires Here(g, s, Xt(TwoRFrom)) && |s.rs| >= 2
    ensures AllFree(Pops(2))
            && Freely(g, Pops(2), s, s.(ip := s.ip + 1, ds := [s.rs[0], s.rs[1]] + s.ds, rs := s.rs[2..]))
  {
    hide Loaded, Pops, Leads;
    OneCall(g, s, TwoRFrom, s.(ip := s.ip + 1, ds := [s.rs[0], s.rs[1]] + s.ds, rs := s.rs[2..]));
    PopsTake(2, s);
  }

  // ----- local cells -----

  /** ! into the n-th cell of the return stack, by its address. */
  lemma LocalStoreMoves(g: nat, s: State, n: nat)
    requires Here(g, s, Xt(Store)) && |s.ds| >= 2 && n < |s.rs| < 0x1000_0000 && s.ds[0] == RSTACK_BASE - |s.rs| + n
    ensures var acts := [Change(n, s.ds[1])];
            AllFree(acts) && Freely(g, acts, s, s.(ip := s.ip + 1, ds := s.ds[2..], rs := s.rs[n := s.ds[1]]))
  {
    hide Loaded, Leads;
    VariableCells(s.heap);
    OneCall(g, s, Store, s.(ip := s.ip + 1, ds := s.ds[2..], rs := s.rs[n := s.ds[1]]));
    Effects1(Change(n, s.ds[1]), s);
  }

  // ----- a whole catch -----

  /** The stores that make k of h from a on, into the cells that differ; and calls. */
  function Stores(h: seq<Cell>, k: seq<Cell>, a: Cell): seq<Act>
    requires |h| == |k|
    decreases |k| - a
  {
    if !(0 <= a < |k| < TWO63) then []
    else (if h[a] == k[a] then [] else [Set(a, k[a])]) + Stores(h, k, a + 1)
  }

  function Notes(events: seq<Event>): seq<Act> { if events == [] then [] else [Note(events[0])] + Notes(events[1..]) }

  lemma {:induction false} StoresMake(h: seq<Cell>, k: seq<Cell>, a: Cell, s: State)
    requires USER <= a <= |s.heap| && |h| == |k| == |s.heap| < TWO63 && s.heap[..a] == k[..a] && s.heap[a..] == h[a..]
    ensures AllFree(Stores(h, k, a)) && Effects(Stores(h, k, a), s) == Some(s.(heap := k))
    decreases |k| - a
  {
    hide Effects, Effect1, AllFree;
    if a == |k| {
      assert s.heap == s.heap[..a] && k == k[..a];
      NoEffects(s);
    } else {
      var t := s.(heap := s.heap[a := k[a]]);
      OneMore(s.heap, h, k, a);
      StoresMake(h, k, a + 1, t);
      if h[a] == k[a] {
        assert t == s && [] + Stores(h, k, a + 1) == Stores(h, k, a + 1);
      } else {
        assert Effect1(Set(a, k[a]), s) == Some(t) by { SetEffect(a, k[a], s); }
        EffectsNext(Set(a, k[a]), Stores(h, k, a + 1), s);
      }
    }
  }

  lemma NoEffects(s: State)
    ensures AllFree([]) && Effects([], s) == Some(s)
  {}

  lemma SetEffect(a: Cell, v: Cell, s: State)
    requires USER <= a < |s.heap|
    ensures Effect1(Set(a, v), s) == Some(s.(heap := s.heap[a := v]))
  {}

  lemma OneMore(m: seq<Cell>, h: seq<Cell>, k: seq<Cell>, a: nat)
    requires a < |m| == |h| == |k| && m[..a] == k[..a] && m[a..] == h[a..]
    ensures m[a] == h[a] && m[a := k[a]][..a + 1] == k[..a + 1] && m[a := k[a]][a + 1..] == h[a + 1..]
  {
    assert m[a] == m[a..][0] == h[a];
    assert m[a := k[a]][..a + 1] == m[..a] + [k[a]] == k[..a + 1];
    assert m[a := k[a]][a + 1..] == m[a..][1..] == h[a..][1..] == h[a + 1..];
  }

  lemma {:induction false} NotesAdd(events: seq<Event>, s: State)
    ensures AllFree(Notes(events)) && Effects(Notes(events), s) == Some(s.(out := s.out + events))
    decreases |events|
  {
    if events == [] {
      assert s.out + events == s.out;
    } else {
      var t := s.(out := s.out + [events[0]]);
      NotesAdd(events[1..], t);
      EffectsNext(Note(events[0]), Notes(events[1..]), s);
      assert t.out + events[1..] == s.out + events;
    }
  }

  lemma {:induction false} EffectsJoin(x: seq<Act>, y: seq<Act>, s: State)
    requires AllFree(x) && AllFree(y) && Effects(x, s).Some?
    ensures AllFree(x + y) && Effects(x + y, s) == Effects(y, Effects(x, s).value)
    decreases |x|
  {
    hide Effect1, IsFree;
    if x == [] {
      assert x + y == y;
    } else {
      assert (x + y)[1..] == x[1..] + y && (x + y)[0] == x[0];
      EffectsJoin(x[1..], y, Effect1(x[0], s).value);
    }
  }

  /** catch of a word that returns by itself, a C routine too, is a move: the word's stores
      and calls. */
  lemma CatchMoves(g: nat, s: State, xt: Cell, n: nat, fx: Effect)
    requires Here(g, s, CATCH) && |s.rs| + 2 < 0x1000_0000 && s.ip + 1 < VARIABLES && s.heap[s.ip + 1] == xt
    requires Cleans(s.heap[..VARIABLES], |s.heap|, xt, n, fx) && n <= |s.ds|
    ensures var acts := Stores(s.heap, Affected(fx, s.ds[..n], s.heap), USER) + Notes(CallsOf(fx, s.ds[..n], s.heap));
            AllFree(acts)
            && Freely(g, acts, s, s.(ip := s.ip + 2, ds := [0] + s.ds[n..], heap := Affected(fx, s.ds[..n], s.heap),
                                     out := s.out + CallsOf(fx, s.ds[..n], s.heap)))
  {
    hide Loaded, Leads, Cleans, Affected, CallsOf, Stores, Notes, Effects, AllFree;
    VariableCells(s.heap);
    var k, events := Affected(fx, s.ds[..n], s.heap), CallsOf(fx, s.ds[..n], s.heap);
    AffectedBelow(fx, s.ds[..n], s.heap);
    var t := CatchReturnsRuns(g, s, xt, n, fx);
    StoresMake(s.heap, k, USER, s);
    NotesAdd(events, s.(heap := k));
    EffectsJoin(Stores(s.heap, k, USER), Notes(events), s);
  }
}
