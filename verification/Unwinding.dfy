/** The return stack as a list of frames, and what unwind and remove do to it. */
module Unwinding {
  import opened Cells
  import opened Machine
  import opened Inner
  import opened Image
  import opened FrameData
  import opened Steps
  import opened WordCells
  import opened FrameWords

  /** What a program has put on the return stack, newest first: return addresses and
      other single cells, frames with remove above them, and catch frames with the
      return into catch above them. */
  datatype Item = Plain(c: Cell) | Framed(f: Frame) | Catching(ra: Cell)

  /** A return stack with the two list heads that thread through it. */
  datatype Context = Context(rs: seq<Cell>, fp: Cell, cf: Cell)

  /** The address of a cell that has n - 1 cells above it on the return stack. */
  function Address(n: nat): Cell { Wrap(RSTACK_BASE - n) }

  /** The return stack that items make on top of base. */
  function Lay(items: seq<Item>, base: Context): Context
  {
    if items == [] then base
    else
      var b := Lay(items[1..], base);
      match items[0]
      case Plain(c) => b.(rs := [c] + b.rs)
      case Framed(f) =>
        var link := [b.fp, CleanupWord(f)] + Payload(f) + b.rs;
        Context([REMOVE_IP] + link, Address(|link|), b.cf)
      case Catching(ra) =>
        var link := [b.cf, ra] + b.rs;
        Context([CATCH_RETURN] + link, b.fp, Address(|link|))
  }

  /** The state has the return stack and list heads of c. */
  ghost predicate Holds(s: State, c: Context)
  {
    |s.heap| > USER && s.rs == c.rs && s.heap[FP_VALUE] == c.fp && s.heap[CF_VALUE] == c.cf
  }

  /** A list head is zero or the address of a cell of rs. */
  predicate Based(p: Cell, rs: seq<Cell>) { p == 0 || RSTACK_BASE - |rs| <= p < RSTACK_BASE }

  /** items contain no active catch. */
  predicate Quiet(items: seq<Item>) { forall i :: 0 <= i < |items| ==> !items[i].Catching? }

  ghost predicate AllSane(h: seq<Cell>, items: seq<Item>)
  {
    forall i :: 0 <= i < |items| && items[i].Framed? ==> Sane(h, items[i].f)
  }

  /** The heap after the cleanups of all frames in items, newest first. */
  function Undone(items: seq<Item>, h: seq<Cell>): (r: seq<Cell>)
    ensures |r| == |h|
    decreases |items|
  {
    if items == [] then h
    else Undone(items[1..], if items[0].Framed? then Restored(items[0].f, h) else h)
  }

  /** The calls of outside routines after those cleanups, the first of which finds h. */
  function UndoneOut(items: seq<Item>, h: seq<Cell>, out: seq<Event>): seq<Event>
    decreases |items|
  {
    if items == [] then out
    else if items[0].Framed? then UndoneOut(items[1..], Restored(items[0].f, h), Noted(items[0].f, h, out))
    else UndoneOut(items[1..], h, out)
  }

  // ----- sizes and addresses -----

  lemma {:induction false} LayGrows(items: seq<Item>, base: Context)
    ensures |Lay(items, base).rs| >= |base.rs|
    ensures Quiet(items) ==> Lay(items, base).cf == base.cf
  {
    if items != [] {
      LayGrows(items[1..], base);
      assert Quiet(items) ==> Quiet(items[1..]) && !items[0].Catching?;
    }
  }

  /** The list head stays inside the stack. */
  lemma {:induction false} LayBased(items: seq<Item>, base: Context)
    requires Based(base.fp, base.rs) && Based(base.cf, base.rs)
    requires |Lay(items, base).rs| < 0x1000_0000
    ensures Based(Lay(items, base).fp, Lay(items, base).rs)
    ensures Based(Lay(items, base).cf, Lay(items, base).rs)
  {
    if items != [] {
      var b := Lay(items[1..], base);
      LayBased(items[1..], base);
    }
  }

  lemma {:induction false} LayConcat(a: seq<Item>, b: seq<Item>, base: Context)
    ensures Lay(a + b, base) == Lay(a, Lay(b, base))
  {
    if a == [] {
      assert a + b == b;
    } else {
      assert (a + b)[1..] == a[1..] + b;
      LayConcat(a[1..], b, base);
    }
  }

  // ----- unwind -----

  /** Cleanups do not look at fp and cf. */
  lemma {:induction false} UndoneElsewhere(items: seq<Item>, h: seq<Cell>, a: int, v: Cell, out: seq<Event>)
    requires 0 <= a < USER < |h| && a != UNWINDING_VALUE
    ensures Undone(items, h[a := v]) == Undone(items, h)[a := v]
    ensures UndoneOut(items, h[a := v], out) == UndoneOut(items, h, out)
    decreases |items|
  {
    hide Restored, Noted;
    if items != [] {
      if items[0].Framed? {
        RestoredElsewhere(items[0].f, h, a, v);
        UndoneElsewhere(items[1..], Restored(items[0].f, h), a, v, Noted(items[0].f, h, out));
      } else {
        UndoneElsewhere(items[1..], h, a, v, out);
      }
    }
  }

  lemma AllSaneKept(h: seq<Cell>, k: seq<Cell>, items: seq<Item>)
    requires AllSane(h, items) && |k| == |h| && |h| >= VARIABLES && k[..VARIABLES] == h[..VARIABLES]
    ensures AllSane(k, items)
  {
    hide Sane;
    forall i | 0 <= i < |items| && items[i].Framed? ensures Sane(k, items[i].f) { SaneKept(h, k, items[i].f); }
  }

  lemma AllSaneRest(h: seq<Cell>, items: seq<Item>)
    requires AllSane(h, items) && items != []
    ensures AllSane(h, items[1..]) && (items[0].Framed? ==> Sane(h, items[0].f))
  {
    hide Sane;
    forall i | 0 <= i < |items[1..]| && items[1..][i].Framed? ensures Sane(h, items[1..][i].f) {
      assert items[1..][i] == items[i + 1];
    }
  }

  /** The context just inside a catch. */
  function Inside(ra: Cell, b: Context): Context
  {
    Context([CATCH_RETURN, b.cf, ra] + b.rs, b.fp, Address(|b.rs| + 2))
  }

  lemma InsideIsCatching(ra: Cell, b: Context)
    ensures Lay([Catching(ra)], b) == Inside(ra, b)
  {
    assert [CATCH_RETURN] + ([b.cf, ra] + b.rs) == [CATCH_RETURN, b.cf, ra] + b.rs;
    assert [Catching(ra)][1..] == [];
  }

  lemma LayNone(base: Context)
    ensures Lay([], base) == base
  {}

  lemma LayFirst(items: seq<Item>, base: Context)
    requires items != []
    ensures var b := Lay(items[1..], base);
            Lay(items, base) ==
            match items[0]
            case Plain(c) => b.(rs := [c] + b.rs)
            case Framed(f) =>
              Context([REMOVE_IP] + ([b.fp, CleanupWord(f)] + Payload(f) + b.rs), Address(|Payload(f)| + |b.rs| + 2),
                      b.cf)
            case Catching(ra) => Context([CATCH_RETURN] + ([b.cf, ra] + b.rs), b.fp, Address(|b.rs| + 2))
  {}

  /** Below the catch frame, fp is a frame to unlink; at the catch frame it is not. */
  lemma LoopTest(fp: Cell, cf: Cell, n: nat, m: nat)
    requires cf == Address(n) && m < 0x1000_0000
    ensures n < m && fp == Address(m) ==> fp != 0 && Unsigned(fp) < Unsigned(cf)
    ensures n <= m && (fp == 0 || RSTACK_BASE - n < fp < RSTACK_BASE) ==> !(fp != 0 && Unsigned(fp) < Unsigned(cf))
  {}

  /** The loop of unwind and what follows it, with y still above the catch frame. */
  lemma {:induction false} UnwindLoopRuns(g: nat, s: State, back: Cell, d: seq<Cell>, top: seq<Cell>, y: seq<Item>,
                                          ra: Cell, b: Context) returns (t: State)
    requires Loaded(s.heap) && s.ip == 244 && s.ds == [back] + d && g < |b.rs| && |s.rs| < 0x1000_0000
    requires Quiet(y) && AllSane(s.heap, y) && Based(b.fp, b.rs)
    requires var c := Lay(y, Inside(ra, b));
             s.rs == top + c.rs && s.heap[FP_VALUE] == c.fp && s.heap[CF_VALUE] == c.cf
    ensures t == s.(ip := back, ds := d, rs := b.rs, out := UndoneOut(y, s.heap, s.out),
                    heap := Undone(y, s.heap)[FP_VALUE := b.fp][CF_VALUE := b.cf][UNWINDING_VALUE := 0])
    ensures Loaded(t.heap) && Leads(g, s, t)
    decreases |y|
  {
    hide Run, Loaded, Code, Lay, Restored, Noted, Payload, CleanupWord, Address, Sane, AllSane, Unsigned, Leads;
    var inside := Inside(ra, b);
    VariableCells(s.heap);
    if y == [] {
      LayNone(inside);
      t := UnwindEnds(g, s, back, d, top, ra, b);
    } else {
      LayFirst(y, inside);
      var c := Lay(y[1..], inside);
      LayGrows(y[1..], inside);
      AllSaneRest(s.heap, y);
      match y[0]
      case Plain(p) =>
        assert top + ([p] + c.rs) == top + [p] + c.rs;
        t := UnwindLoopRuns(g, s, back, d, top + [p], y[1..], ra, b);
      case Framed(f) =>
        var s1 := UnwindOne(g, s, f, top + [REMOVE_IP], c, |b.rs| + 2);
        RestoredElsewhere(f, s.heap, FP_VALUE, c.fp);
        RestoredElsewhere(f, s.heap, CF_VALUE, c.cf);
        RestoredBelow(f, s.heap);
        AllSaneKept(s.heap, s1.heap, y[1..]);
        assert [] + c.rs == c.rs;
        t := UnwindLoopRuns(g, s1, back, d, [], y[1..], ra, b);
        UndoneElsewhere(y[1..], Restored(f, s.heap), FP_VALUE, c.fp, s1.out);
        LeadsTo(g, s, s1, t);
    }
  }

  /** No frame left above the catch frame. */
  lemma UnwindEnds(g: nat, s: State, back: Cell, d: seq<Cell>, top: seq<Cell>, ra: Cell, b: Context)
      returns (t: State)
    requires Loaded(s.heap) && s.ip == 244 && s.ds == [back] + d && g < |b.rs| && |s.rs| < 0x1000_0000
    requires Based(b.fp, b.rs)
    requires s.rs == top + Inside(ra, b).rs && s.heap[FP_VALUE] == b.fp && s.heap[CF_VALUE] == Inside(ra, b).cf
    ensures t == s.(ip := back, ds := d, rs := b.rs,
                    heap := s.heap[FP_VALUE := b.fp][CF_VALUE := b.cf][UNWINDING_VALUE := 0])
    ensures Loaded(t.heap) && Leads(g, s, t)
  {
    hide Run, Loaded, Code;
    t := UnwindEndsIn(g, s, 0, back, d, top, ra, b);
    forall fuel: nat ensures Run(g, s, fuel + 30) == Run(g, t, fuel) {
      var u := UnwindEndsIn(g, s, fuel, back, d, top, ra, b);
    }
    assert LeadsIn(g, s, t, 30);
  }

  lemma UnwindEndsIn(g: nat, s: State, fuel: nat, back: Cell, d: seq<Cell>, top: seq<Cell>, ra: Cell, b: Context)
      returns (t: State)
    requires Loaded(s.heap) && s.ip == 244 && s.ds == [back] + d && g < |b.rs| && |s.rs| < 0x1000_0000
    requires Based(b.fp, b.rs)
    requires s.rs == top + Inside(ra, b).rs && s.heap[FP_VALUE] == b.fp && s.heap[CF_VALUE] == Inside(ra, b).cf
    ensures t == s.(ip := back, ds := d, rs := b.rs,
                    heap := s.heap[FP_VALUE := b.fp][CF_VALUE := b.cf][UNWINDING_VALUE := 0])
    ensures Loaded(t.heap) && Run(g, s, fuel + 30) == Run(g, t, fuel)
  {
    hide Run, Loaded, Code;
    VariableCells(s.heap);
    LoopTest(b.fp, s.heap[CF_VALUE], |b.rs| + 2, |b.rs| + 2);
    var s1 := UnwindTestRuns(g, s, fuel + 20);
    assert s.rs == top + [CATCH_RETURN] + ([b.cf, ra] + b.rs);
    assert s.heap[FP_VALUE := b.fp] == s.heap;
    t := UnwindTailRuns(g, s1, fuel, back, d, top + [CATCH_RETURN], b.cf, ra, b.rs);
  }

  /** One round of unwind's loop: the newest frame is unlinked. */
  lemma UnwindOne(g: nat, s: State, f: Frame, top: seq<Cell>, c: Context, n: nat) returns (t: State)
    requires Loaded(s.heap) && s.ip == 244 && g < |c.rs| && |s.rs| < 0x1000_0000 && Sane(s.heap, f)
    requires s.rs == top + ([c.fp, CleanupWord(f)] + Payload(f) + c.rs)
    requires s.heap[FP_VALUE] == Address(|Payload(f)| + |c.rs| + 2)
    requires s.heap[CF_VALUE] == Address(n) && n < |c.rs| + 2
    ensures t == s.(rs := c.rs, heap := Restored(f, s.heap)[FP_VALUE := c.fp], out := Noted(f, s.heap, s.out))
    ensures Loaded(t.heap) && Leads(g, s, t)
  {
    hide Run, Loaded, Code, Payload, CleanupWord, Restored, Noted, Sane;
    VariableCells(s.heap);
    LoopTest(s.heap[FP_VALUE], s.heap[CF_VALUE], n, |Payload(f)| + |c.rs| + 2);
    var s1 := s.(ip := 253);
    forall fuel: nat ensures Run(g, s, fuel + 10) == Run(g, s1, fuel) { var u := UnwindTestRuns(g, s, fuel); }
    assert LeadsIn(g, s, s1, 10);
    UnwindLoopCells(s1.heap);
    assert s.rs == top + ([c.fp, CleanupWord(f)] + Payload(f)) + c.rs;
    var s2 := UnlinkRuns(g, s1, f, top, c.fp, c.rs);
    UnwindLoopCells(s2.heap);
    t := s2.(ip := 244);
    forall fuel: nat ensures Run(g, s2, fuel + 1) == Run(g, t, fuel) { var u := DoBranch(g, s2, fuel, 244); }
    assert LeadsIn(g, s2, t, 1);
    LeadsTo(g, s, s1, s2);
    LeadsTo(g, s, s2, t);
    RestoredElsewhere(f, s.heap, FP_VALUE, c.fp);
  }

  /** unwind, called inside a catch with y above the catch frame: every frame in y is
      cleaned up once, newest first, with unwinding set; the return stack and both list
      heads are what they were where catch was called; and unwind returns to its caller. */
  lemma UnwindRuns(g: nat, s: State, flags: Cell, d: seq<Cell>, y: seq<Item>, ra: Cell, b: Context) returns (t: State)
    requires Here(g, s, UNWIND) && s.ds == [flags] + d && g < |b.rs| && |s.rs| < 0x1000_0000
    requires Quiet(y) && AllSane(s.heap, y) && Based(b.fp, b.rs)
    requires Holds(s, Lay(y, Inside(ra, b)))
    ensures Holds(t, b)
    ensures var h := s.heap[UNWINDING_VALUE := flags];
            t == s.(ip := s.ip + 1, ds := d, rs := b.rs, out := UndoneOut(y, h, s.out),
                    heap := Undone(y, h)[FP_VALUE := b.fp][CF_VALUE := b.cf][UNWINDING_VALUE := 0])
    ensures Loaded(t.heap) && Leads(g, s, t)
  {
    hide Run, Loaded, Code, Lay, Sane, AllSane, Undone, UndoneOut;
    VariableCells(s.heap);
    var h := s.heap[UNWINDING_VALUE := flags];
    var s1 := s.(ip := 244, ds := [s.ip + 1] + d, heap := h);
    forall fuel: nat ensures Run(g, s, fuel + 5) == Run(g, s1, fuel) { var u := UnwindHeadRuns(g, s, fuel, flags, d); }
    var u := UnwindHeadRuns(g, s, 0, flags, d);
    assert LeadsIn(g, s, s1, 5);
    assert h[..VARIABLES] == s.heap[..VARIABLES];
    AllSaneKept(s.heap, h, y);
    assert s1.rs == [] + s.rs;
    t := UnwindLoopRuns(g, s1, s.ip + 1, d, [], y, ra, b);
    LeadsTo(g, s, s1, t);
  }

  // ----- normal return -----

  /** Returning with a frame on top of the return stack: remove unlinks that frame, its
      cleanup runs once, and the return goes on to whatever lies below. */
  lemma ReturnThroughFrame(g: nat, s: State, f: Frame, b: Context) returns (t: State)
    requires Here(g, s, Xt(Exit)) && g < |b.rs| && |s.rs| < 0x1000_0000 && Sane(s.heap, f)
    requires Holds(s, Lay([Framed(f)], b))
    ensures Holds(t, b) && Here(g, t, Xt(Exit))
    ensures t == s.(ip := REMOVE_IP + 1, rs := b.rs, heap := Restored(f, s.heap)[FP_VALUE := b.fp],
                    out := Noted(f, s.heap, s.out))
    ensures Leads(g, s, t)
  {
    hide Run, Loaded, Code, Payload, CleanupWord, Noted, Sane, Restored;
    VariableCells(s.heap);
    var link := [b.fp, CleanupWord(f)] + Payload(f) + b.rs;
    assert [Framed(f)][1..] == [];
    assert s.rs == [REMOVE_IP] + link;
    var s1 := s.(ip := REMOVE_IP, rs := link);
    forall fuel: nat ensures Run(g, s, fuel + 1) == Run(g, s1, fuel) { var u := DoExit(g, s, fuel); }
    assert LeadsIn(g, s, s1, 1);
    assert s1.rs == [] + ([b.fp, CleanupWord(f)] + Payload(f)) + b.rs;
    t := UnlinkRuns(g, s1, f, [], b.fp, b.rs);
    VariableCells(t.heap);
    RestoredElsewhere(f, s.heap, FP_VALUE, b.fp);
    RestoredElsewhere(f, s.heap, CF_VALUE, b.cf);
    LeadsTo(g, s, s1, t);
  }
}
