/** What the return-stack words do, run as threaded code: catch and the frame words
    each take the machine from the cell that calls them to the cell after. */
module FrameWords {
  import opened Cells
  import opened Machine
  import opened Inner
  import opened Image
  import opened FrameData
  import opened Steps
  import opened WordCells

  /** cell+  ( a - a+) */
  lemma CellPlusRuns(g: nat, s: State, fuel: nat) returns (t: State)
    requires Here(g, s, CELL_PLUS) && |s.ds| >= 1 && s.ds[0] < TWO63 - 1
    ensures t == s.(ip := s.ip + 1, ds := [s.ds[0] + 1] + s.ds[1..])
    ensures Run(g, s, fuel + 4) == Run(g, t, fuel)
  {
    hide Run, Loaded, Has, Code, Read;
    CellPlusCells(s.heap);
    var s1 := Enter(g, s, fuel + 3, CELL_PLUS, CellPlusBody());
    var s2 := DoLit(g, s1, fuel + 2, 1);
    var s3 := DoPlus(g, s2, fuel + 1);
    assert s3.ds == [s.ds[0] + 1] + s.ds[1..];
    t := DoExit(g, s3, fuel);
  }

  /** @+  ( a - n a+), on the heap */
  lemma AtPlusRuns(g: nat, s: State, fuel: nat) returns (t: State)
    requires Here(g, s, AT_PLUS) && |s.ds| >= 1 && 0 <= s.ds[0] < |s.heap| < TWO63
    ensures t == s.(ip := s.ip + 1, ds := [s.ds[0] + 1, s.heap[s.ds[0]]] + s.ds[1..])
    ensures Run(g, s, fuel + 9) == Run(g, t, fuel)
  {
    hide Run, Loaded, Has, Code;
    AtPlusCells(s.heap);
    var s1 := Enter(g, s, fuel + 8, AT_PLUS, AtPlusBody());
    var s2 := DoDup(g, s1, fuel + 7);
    var s3 := DoFetch(g, s2, fuel + 6);
    assert s3.ds == [s.heap[s.ds[0]]] + s.ds;
    var s4 := DoSwap(g, s3, fuel + 5);
    assert s4.ds == [s.ds[0], s.heap[s.ds[0]]] + s.ds[1..];
    var s5 := CellPlusRuns(g, s4, fuel + 1);
    assert s5.ds == [s.ds[0] + 1, s.heap[s.ds[0]]] + s.ds[1..];
    t := DoExit(g, s5, fuel);
  }

  /** -rot  ( a b c - c a b) */
  lemma MinusRotRuns(g: nat, s: State, fuel: nat) returns (t: State)
    requires Here(g, s, MINUS_ROT) && |s.ds| >= 3
    ensures t == s.(ip := s.ip + 1, ds := [s.ds[1], s.ds[2], s.ds[0]] + s.ds[3..])
    ensures Run(g, s, fuel + 6) == Run(g, t, fuel)
  {
    hide Run, Loaded, Has, Code, Read;
    MinusRotCells(s.heap);
    var s1 := Enter(g, s, fuel + 5, MINUS_ROT, MinusRotBody());
    var s2 := DoSwap(g, s1, fuel + 4);
    var s3 := DoToR(g, s2, fuel + 3);
    assert s3.ds == [s.ds[0], s.ds[2]] + s.ds[3..];
    var s4 := DoSwap(g, s3, fuel + 2);
    assert s4.ds == [s.ds[2], s.ds[0]] + s.ds[3..];
    var s5 := DoRFrom(g, s4, fuel + 1);
    assert s5.ds == [s.ds[1], s.ds[2], s.ds[0]] + s.ds[3..];
    t := DoExit(g, s5, fuel);
  }

  /** 0 */
  lemma ZeroRuns(g: nat, s: State, fuel: nat) returns (t: State)
    requires Here(g, s, ZERO)
    ensures t == s.(ip := s.ip + 1, ds := [0] + s.ds)
    ensures Run(g, s, fuel + 3) == Run(g, t, fuel)
  {
    hide Run, Loaded, Has, Code, Read;
    ZeroCells(s.heap);
    var s1 := Enter(g, s, fuel + 2, ZERO, ZeroBody());
    var s2 := DoLit(g, s1, fuel + 1, 0);
    t := DoExit(g, s2, fuel);
  }

  /** off  ( a), on the heap */
  lemma OffRuns(g: nat, s: State, fuel: nat) returns (t: State)
    requires Here(g, s, OFF) && |s.ds| >= 1 && IsData(s.ds[0]) && s.ds[0] < |s.heap|
    ensures t == s.(ip := s.ip + 1, ds := s.ds[1..], heap := s.heap[s.ds[0] := 0])
    ensures Loaded(t.heap)
    ensures Run(g, s, fuel + 7) == Run(g, t, fuel)
  {
    hide Run, Loaded, Has, Code, Read;
    OffCells(s.heap);
    var s1 := Enter(g, s, fuel + 6, OFF, OffBody());
    var s2 := ZeroRuns(g, s1, fuel + 3);
    var s3 := DoSwap(g, s2, fuel + 2);
    assert s3.ds == [s.ds[0], 0] + s.ds[1..];
    var s4 := DoStore(g, s3, fuel + 1);
    assert s4.ds == s.ds[1..];
    LoadedKept(s.heap, s.ds[0], 0);
    t := DoExit(g, s4, fuel);
  }

  /** link, called with the cleanup word cfa in the next cell: the frame is complete, and
      the caller goes on after cfa. */
  lemma LinkRuns(g: nat, s: State, fuel: nat, cfa: Cell) returns (t: State)
    requires Here(g, s, LINK) && s.ip + 1 < VARIABLES && s.heap[s.ip + 1] == cfa && |s.rs| < 0x8000_0000
    ensures t == s.(ip := s.ip + 2, rs := [s.heap[FP_VALUE], cfa] + s.rs,
                  heap := s.heap[FP_VALUE := RSTACK_BASE - |s.rs| - 2])
    ensures Loaded(t.heap)
    ensures Run(g, s, fuel + 23) == Run(g, t, fuel)
  {
    hide Run, Loaded, Has, Code;
    LinkCells(s.heap);
    VariableCells(s.heap);
    var s1 := Enter(g, s, fuel + 22, LINK, LinkBody());
    var s2 := DoRFrom(g, s1, fuel + 21);
    assert s2.rs == s.rs;
    var s3 := AtPlusRuns(g, s2, fuel + 12);
    assert s3.ds == [s.ip + 2, cfa] + s.ds;
    var s4 := DoSwap(g, s3, fuel + 11);
    assert s4.ds == [cfa, s.ip + 2] + s.ds;
    var s5 := DoToR(g, s4, fuel + 10);
    assert s5.ds == [s.ip + 2] + s.ds;
    var s6 := PushBody(g, s5, fuel + 8, FP);
    var s7 := DoFetch(g, s6, fuel + 7);
    assert s7.ds == [s.heap[FP_VALUE], s.ip + 2] + s.ds;
    var s8 := DoToR(g, s7, fuel + 6);
    assert s8.ds == [s.ip + 2] + s.ds && s8.rs == [s.heap[FP_VALUE], cfa] + s.rs;
    var s9 := DoRpFetch(g, s8, fuel + 5);
    var s10 := PushBody(g, s9, fuel + 3, FP);
    var s11 := DoStore(g, s10, fuel + 2);
    assert s11.ds == [s.ip + 2] + s.ds;
    LoadedKept(s.heap, FP_VALUE, RSTACK_BASE - |s.rs| - 2);
    var s12 := DoToR(g, s11, fuel + 1);
    assert s12.ds == s.ds;
    t := DoExit(g, s12, fuel);
  }

  /** restore, entered with its return address above value and address */
  lemma RestoreRuns(g: nat, s: State, fuel: nat, back: Cell, value: Cell, a: Cell, rest: seq<Cell>) returns (t: State)
    requires Loaded(s.heap) && s.ip == RESTORE + 1 && s.rs == [back] + [value, a] + rest && |rest| > g
    requires IsData(a) && a < |s.heap|
    ensures t == s.(ip := back, rs := rest, heap := s.heap[a := value])
    ensures Loaded(t.heap)
    ensures Run(g, s, fuel + 6) == Run(g, t, fuel)
  {
    hide Run, Loaded, Has, Code;
    RestoreCells(s.heap);
    var s1 := DoRFrom(g, s, fuel + 5);
    assert s1.rs == [value, a] + rest;
    var s2 := DoRFrom(g, s1, fuel + 4);
    assert s2.rs == [a] + rest;
    var s3 := DoRFrom(g, s2, fuel + 3);
    assert s3.rs == rest && s3.ds == [a, value, back] + s.ds;
    var s4 := DoStore(g, s3, fuel + 2);
    assert s4.ds == [back] + s.ds;
    LoadedKept(s.heap, a, value);
    var s5 := DoToR(g, s4, fuel + 1);
    assert s5.ds == s.ds;
    t := DoExit(g, s5, fuel);
  }

  /** execute of a routine filed by on-exit or on-exit2. */
  lemma DoCleanup(g: nat, s: State, xt: Cell, n: nat, fx: Effect) returns (t: State)
    requires Here(g, s, Xt(Execute)) && |s.ds| > n && s.ds[0] == xt && |s.rs| < 0x1000_0000
    requires Cleans(s.heap[..VARIABLES], |s.heap|, xt, n, fx)
    ensures t == Cleaned(s.(ip := s.ip + 1, ds := s.ds[1..]), n, fx) && Loaded(t.heap) && Leads(g, s, t)
  {
    hide Has, Cleans, Affected, CallsOf, Loaded;
    var s1 := Skip(s).(ds := s.ds[1..]);
    VariableCells(s.heap);
    var k := CleansHere(s.heap[..VARIABLES], |s.heap|, xt, n, fx, g, s1);
    t := Cleaned(s1, n, fx);
    assert Fun(s.heap, Xt(Execute)) == Some(Execute) by { ExecuteThere(s.heap); }
    forall fuel: nat ensures Run(g, s, fuel + (k + 1)) == Run(g, t, fuel) {
      assert Call(Xt(Execute), Skip(s), fuel + (k + 1)) == Call(xt, s1, fuel + k);
      assert Run(g, s, fuel + (k + 1)) == Resume(g, Call(xt, s1, fuel + k));
    }
    assert LeadsIn(g, s, t, k + 1);
    AffectedBelow(fx, s1.ds[..n], s.heap);
    LoadedUser(s.heap, t.heap);
  }

  lemma ExecuteThere(h: seq<Cell>)
    requires Loaded(h)
    ensures Fun(h, Xt(Execute)) == Some(Execute)
  {
    KernelWord(h, Execute);
  }

  lemma AffectedBelow(fx: Effect, args: seq<Cell>, h: seq<Cell>)
    requires |h| > USER
    ensures Affected(fx, args, h)[..USER] == h[..USER]
  {}

  /** cleanup, entered with its return address above value and routine */
  lemma CleanupRuns(g: nat, s: State, back: Cell, v: Cell, xt: Cell, fx: Effect, rest: seq<Cell>) returns (t: State)
    requires Loaded(s.heap) && s.ip == CLEANUP + 1 && s.rs == [back] + [v, xt] + rest && g < |rest| < 0x1000_0000
    requires Cleans(s.heap[..VARIABLES], |s.heap|, xt, 1, fx)
    ensures t == s.(ip := back, rs := rest, heap := Affected(fx, [v], s.heap), out := s.out + CallsOf(fx, [v], s.heap))
    ensures Loaded(t.heap) && Leads(g, s, t)
  {
    hide Run, Loaded, Has, Code, Cleans, Affected, CallsOf;
    CleanupCells(s.heap);
    var s1 := s.(ip := CLEANUP + 4, rs := rest, ds := [xt, v, back] + s.ds);
    forall fuel: nat ensures Run(g, s, fuel + 3) == Run(g, s1, fuel) { CleanupHeadRuns(g, s, fuel, back, v, xt, rest); }
    assert LeadsIn(g, s, s1, 3);
    var s2 := DoCleanup(g, s1, xt, 1, fx);
    assert s1.ds[1..][..1] == [v] && s1.ds[1..][1..] == [back] + s.ds;
    CleanupCells(s2.heap);
    t := BackRuns(g, s2, back, s.ds);
    LeadsTo(g, s, s1, s2);
    LeadsTo(g, s, s2, t);
  }

  lemma CleanupHeadRuns(g: nat, s: State, fuel: nat, back: Cell, v: Cell, xt: Cell, rest: seq<Cell>)
    requires Loaded(s.heap) && s.ip == CLEANUP + 1 && s.rs == [back] + [v, xt] + rest && |rest| > g
    ensures Run(g, s, fuel + 3) == Run(g, s.(ip := CLEANUP + 4, rs := rest, ds := [xt, v, back] + s.ds), fuel)
  {
    hide Run, Loaded, Has, Code;
    CleanupCells(s.heap);
    var s1 := DoRFrom(g, s, fuel + 2);
    assert s1.rs == [v, xt] + rest;
    var s2 := DoRFrom(g, s1, fuel + 1);
    assert s2.rs == [xt] + rest;
    var s3 := DoRFrom(g, s2, fuel);
    assert s3.rs == rest && s3.ds == [xt, v, back] + s.ds;
  }

  /** >r ^ as the cleanup words end. */
  lemma BackRuns(g: nat, s: State, back: Cell, d: seq<Cell>) returns (t: State)
    requires Here(g, s, Xt(ToR)) && s.ip + 1 < VARIABLES && s.heap[s.ip + 1] == Xt(Exit) && s.ds == [back] + d
    ensures t == s.(ip := back, ds := d) && Leads(g, s, t)
  {
    hide Run, Loaded, Has, Code;
    t := s.(ip := back, ds := d);
    forall fuel: nat ensures Run(g, s, fuel + 2) == Run(g, t, fuel) {
      var s1 := DoToR(g, s, fuel + 1);
      assert s1.ds == d;
      var s2 := DoExit(g, s1, fuel);
      assert s2 == t;
    }
    assert LeadsIn(g, s, t, 2);
  }

  /** cleanup2, entered with its return address above both values and the routine */
  lemma Cleanup2Runs(g: nat, s: State, back: Cell, v1: Cell, v2: Cell, xt: Cell, fx: Effect, rest: seq<Cell>)
      returns (t: State)
    requires Loaded(s.heap) && s.ip == CLEANUP2 + 1 && s.rs == [back] + [v1, v2, xt] + rest && g < |rest| < 0x1000_0000
    requires Cleans(s.heap[..VARIABLES], |s.heap|, xt, 2, fx)
    ensures t == s.(ip := back, rs := rest, heap := Affected(fx, [v2, v1], s.heap),
                    out := s.out + CallsOf(fx, [v2, v1], s.heap))
    ensures Loaded(t.heap) && Leads(g, s, t)
  {
    hide Run, Loaded, Has, Code, Cleans, Affected, CallsOf;
    Cleanup2Cells(s.heap);
    var s1 := s.(ip := CLEANUP2 + 5, rs := rest, ds := [xt, v2, v1, back] + s.ds);
    forall fuel: nat ensures Run(g, s, fuel + 4) == Run(g, s1, fuel) {
      Cleanup2HeadRuns(g, s, fuel, back, v1, v2, xt, rest);
    }
    assert LeadsIn(g, s, s1, 4);
    var s2 := DoCleanup(g, s1, xt, 2, fx);
    assert s1.ds[1..][..2] == [v2, v1] && s1.ds[1..][2..] == [back] + s.ds;
    Cleanup2Cells(s2.heap);
    t := BackRuns(g, s2, back, s.ds);
    LeadsTo(g, s, s1, s2);
    LeadsTo(g, s, s2, t);
  }

  lemma Cleanup2HeadRuns(g: nat, s: State, fuel: nat, back: Cell, v1: Cell, v2: Cell, xt: Cell, rest: seq<Cell>)
    requires Loaded(s.heap) && s.ip == CLEANUP2 + 1 && s.rs == [back] + [v1, v2, xt] + rest && |rest| > g
    ensures Run(g, s, fuel + 4) == Run(g, s.(ip := CLEANUP2 + 5, rs := rest, ds := [xt, v2, v1, back] + s.ds), fuel)
  {
    hide Run, Loaded, Has, Code;
    Cleanup2Cells(s.heap);
    var s1 := DoRFrom(g, s, fuel + 3);
    assert s1.rs == [v1, v2, xt] + rest;
    var s2 := DoRFrom(g, s1, fuel + 2);
    assert s2.rs == [v2, xt] + rest;
    var s3 := DoRFrom(g, s2, fuel + 1);
    assert s3.rs == [xt] + rest;
    var s4 := DoRFrom(g, s3, fuel);
    assert s4.rs == rest && s4.ds == [xt, v2, v1, back] + s.ds;
  }

  /** unroom, entered with its return address above the count and the cells */
  lemma UnroomRuns(g: nat, s: State, fuel: nat, back: Cell, cells: seq<Cell>, rest: seq<Cell>) returns (t: State)
    requires Loaded(s.heap) && s.ip == UNROOM + 1 && s.rs == [back] + ([|cells|] + cells) + rest && |rest| > g
    requires |cells| < 0x1000_0000 && |rest| < 0x1000_0000
    ensures t == s.(ip := back, rs := rest)
    ensures Loaded(t.heap)
    ensures Run(g, s, fuel + 5) == Run(g, t, fuel)
  {
    hide Run, Loaded, Has, Code;
    UnroomCells(s.heap);
    var s1 := DoRFrom(g, s, fuel + 4);
    assert s1.rs == [|cells|] + cells + rest;
    var s2 := DoRFrom(g, s1, fuel + 3);
    assert s2.rs == cells + rest;
    var s3 := DoRpPlusStore(g, s2, fuel + 2);
    assert s3.rs == rest && s3.ds == [back] + s.ds;
    var s4 := DoToR(g, s3, fuel + 1);
    assert s4.ds == s.ds;
    t := DoExit(g, s4, fuel);
  }

  /** unlink as far as rp! */
  lemma UnlinkRpRuns(g: nat, s: State, fuel: nat, top: seq<Cell>, frame: seq<Cell>) returns (t: State)
    requires Here(g, s, UNLINK) && |s.rs| < 0x1000_0000 && |frame| > g
    requires s.rs == top + frame && s.heap[FP_VALUE] == RSTACK_BASE - |frame|
    ensures t == s.(ip := UNLINK + 5, rs := frame, ds := [s.ip + 1] + s.ds)
    ensures Run(g, s, fuel + 6) == Run(g, t, fuel)
  {
    hide Run, Loaded, Has, Code;
    UnlinkCells(s.heap);
    VariableCells(s.heap);
    assert s.heap[s.ip] == UNLINK;
    var s1 := Enter(g, s, fuel + 5, UNLINK, UnlinkBody());
    var s2 := DoRFrom(g, s1, fuel + 4);
    assert s2.rs == top + frame;
    var s3 := PushBody(g, s2, fuel + 2, FP);
    var s4 := DoFetch(g, s3, fuel + 1);
    assert s4.ds == [RSTACK_BASE - |frame|, s.ip + 1] + s.ds;
    assert (top + frame)[|top|..] == frame;
    t := DoRpStore(g, s4, fuel);
  }

  /** unlink from there to the execute: the frame off the list */
  lemma UnlinkFpRuns(g: nat, s: State, fuel: nat, prev: Cell, word: Cell, rest: seq<Cell>) returns (t: State)
    requires Loaded(s.heap) && s.ip == UNLINK + 5 && |rest| > g && s.rs == [prev, word] + rest
    ensures t == s.(ip := UNLINK + 9, rs := rest, ds := [word] + s.ds, heap := s.heap[FP_VALUE := prev])
    ensures Loaded(t.heap)
    ensures Run(g, s, fuel + 5) == Run(g, t, fuel)
  {
    hide Run, Loaded, Has, Code;
    UnlinkCells(s.heap);
    VariableCells(s.heap);
    var s1 := DoRFrom(g, s, fuel + 4);
    assert s1.rs == [word] + rest;
    var s2 := PushBody(g, s1, fuel + 2, FP);
    var s3 := DoStore(g, s2, fuel + 1);
    assert s3.ds == s.ds;
    LoadedKept(s.heap, FP_VALUE, prev);
    t := DoRFrom(g, s3, fuel);
    assert t.rs == rest;
  }

  /** link word  remove >r  >r  as the words below end: the frame linked, and remove set to run on return */
  lemma FinishFrameRuns(g: nat, s: State, fuel: nat, word: Cell, back: Cell, d: seq<Cell>) returns (t: State)
    requires Here(g, s, LINK) && |s.rs| < 0x4000_0000 && s.ds == [back] + d && s.ip + 5 < VARIABLES
    requires s.heap[s.ip + 1] == word && s.heap[s.ip + 2] == REMOVE && s.heap[s.ip + 3] == Xt(ToR)
    requires s.heap[s.ip + 4] == Xt(ToR) && s.heap[s.ip + 5] == Xt(Exit)
    ensures t == s.(ip := back, ds := d, rs := [REMOVE_IP, s.heap[FP_VALUE], word] + s.rs,
                  heap := s.heap[FP_VALUE := RSTACK_BASE - |s.rs| - 2])
    ensures Loaded(t.heap)
    ensures Run(g, s, fuel + 28) == Run(g, t, fuel)
  {
    hide Run, Loaded, Has, Code;
    VariableCells(s.heap);
    var s1 := LinkRuns(g, s, fuel + 5, word);
    VariableCells(s1.heap);
    var s2 := PushBody(g, s1, fuel + 3, REMOVE);
    var s3 := DoToR(g, s2, fuel + 2);
    assert s3.rs == [REMOVE_IP, s.heap[FP_VALUE], word] + s.rs && s3.ds == [back] + d;
    var s4 := DoToR(g, s3, fuel + 1);
    assert s4.ds == d;
    t := DoExit(g, s4, fuel);
  }

  /** preserve as far as link */
  lemma PreserveHeadRuns(g: nat, s: State, fuel: nat, a: Cell, d: seq<Cell>) returns (t: State)
    requires Here(g, s, PRESERVE) && |s.rs| < 0x1000_0000 && s.ds == [a] + d && 0 <= a < |s.heap|
    ensures t == s.(ip := PRESERVE + 7, ds := [s.ip + 1] + d, rs := [s.heap[a], a] + s.rs)
    ensures Run(g, s, fuel + 7) == Run(g, t, fuel)
  {
    hide Run, Loaded, Has, Code;
    var s4 := PreserveAddressRuns(g, s, fuel + 3, a, d);
    PreserveCells(s4.heap);
    var s5 := DoSwap(g, s4, fuel + 2);
    assert s5.ds == [a, s.ip + 1] + d;
    var s6 := DoFetch(g, s5, fuel + 1);
    assert s6.ds == [s.heap[a], s.ip + 1] + d;
    t := DoToR(g, s6, fuel);
    assert t.rs == [s.heap[a], a] + s.rs && t.ds == [s.ip + 1] + d;
  }

  lemma PreserveAddressRuns(g: nat, s: State, fuel: nat, a: Cell, d: seq<Cell>) returns (t: State)
    requires Here(g, s, PRESERVE) && |s.rs| < 0x1000_0000 && s.ds == [a] + d
    ensures t == s.(ip := PRESERVE + 4, ds := [s.ip + 1, a] + d, rs := [a] + s.rs)
    ensures Run(g, s, fuel + 4) == Run(g, t, fuel)
  {
    hide Run, Loaded, Has, Code;
    PreserveCells(s.heap);
    var s1 := Enter(g, s, fuel + 3, PRESERVE, PreserveBody());
    var s2 := DoRFrom(g, s1, fuel + 2);
    assert s2.rs == s.rs && s2.ds == [s.ip + 1, a] + d;
    var s3 := DoOver(g, s2, fuel + 1);
    assert s3.ds == [a, s.ip + 1, a] + d;
    t := DoToR(g, s3, fuel);
    assert t.ds == [s.ip + 1, a] + d && t.rs == [a] + s.rs;
  }

  /** preserve  ( addr): the variable saved in a new frame, and remove set to run on return */
  lemma PreserveRuns(g: nat, s: State, fuel: nat, a: Cell, d: seq<Cell>) returns (t: State)
    requires Here(g, s, PRESERVE) && |s.rs| < 0x1000_0000 && s.ds == [a] + d && 0 <= a < |s.heap|
    ensures t == s.(ip := s.ip + 1, ds := d, rs := [REMOVE_IP, s.heap[FP_VALUE], RESTORE] + [s.heap[a], a] + s.rs,
                  heap := s.heap[FP_VALUE := RSTACK_BASE - |s.rs| - 4])
    ensures Loaded(t.heap)
    ensures Run(g, s, fuel + 35) == Run(g, t, fuel)
  {
    hide Run, Loaded, Has, Code;
    var s1 := PreserveHeadRuns(g, s, fuel + 28, a, d);
    PreserveCells(s1.heap);
    t := FinishFrameRuns(g, s1, fuel, RESTORE, s.ip + 1, d);
    assert t.rs == [REMOVE_IP, s.heap[FP_VALUE], RESTORE] + [s.heap[a], a] + s.rs;
  }

  /** on-exit as far as link */
  lemma OnExitHeadRuns(g: nat, s: State, fuel: nat, v: Cell, xt: Cell, d: seq<Cell>) returns (t: State)
    requires Here(g, s, ON_EXIT) && |s.rs| < 0x1000_0000 && s.ds == [v] + d && s.ip + 1 < VARIABLES &&
           s.heap[s.ip + 1] == xt
    ensures t == s.(ip := ON_EXIT + 7, ds := [s.ip + 2] + d, rs := [v, xt] + s.rs)
    ensures Run(g, s, fuel + 15) == Run(g, t, fuel)
  {
    hide Run, Loaded, Has, Code;
    var s3 := OnExitInlineRuns(g, s, fuel + 4, v, xt, d);
    OnExitCells(s3.heap);
    var s4 := DoSwap(g, s3, fuel + 3);
    assert s4.ds == [xt, s.ip + 2, v] + d;
    var s5 := DoToR(g, s4, fuel + 2);
    assert s5.ds == [s.ip + 2, v] + d;
    var s6 := DoSwap(g, s5, fuel + 1);
    assert s6.ds == [v, s.ip + 2] + d;
    t := DoToR(g, s6, fuel);
    assert t.rs == [v, xt] + s.rs && t.ds == [s.ip + 2] + d;
  }

  lemma OnExitInlineRuns(g: nat, s: State, fuel: nat, v: Cell, xt: Cell, d: seq<Cell>) returns (t: State)
    requires Here(g, s, ON_EXIT) && |s.rs| < 0x1000_0000 && s.ds == [v] + d && s.ip + 1 < VARIABLES &&
           s.heap[s.ip + 1] == xt
    ensures t == s.(ip := ON_EXIT + 3, ds := [s.ip + 2, xt, v] + d)
    ensures Run(g, s, fuel + 11) == Run(g, t, fuel)
  {
    hide Run, Loaded, Has, Code;
    OnExitCells(s.heap);
    VariableCells(s.heap);
    var s1 := Enter(g, s, fuel + 10, ON_EXIT, OnExitBody());
    var s2 := DoRFrom(g, s1, fuel + 9);
    assert s2.rs == s.rs && s2.ds == [s.ip + 1, v] + d;
    t := AtPlusRuns(g, s2, fuel);
    assert t.ds == [s.ip + 2, xt, v] + d;
  }

  /** on-exit  ( v), called with the routine xt in the next cell */
  lemma OnExitRuns(g: nat, s: State, fuel: nat, v: Cell, xt: Cell, d: seq<Cell>) returns (t: State)
    requires Here(g, s, ON_EXIT) && |s.rs| < 0x1000_0000 && s.ds == [v] + d && s.ip + 1 < VARIABLES &&
           s.heap[s.ip + 1] == xt
    ensures t == s.(ip := s.ip + 2, ds := d, rs := [REMOVE_IP, s.heap[FP_VALUE], CLEANUP] + [v, xt] + s.rs,
                  heap := s.heap[FP_VALUE := RSTACK_BASE - |s.rs| - 4])
    ensures Loaded(t.heap)
    ensures Run(g, s, fuel + 43) == Run(g, t, fuel)
  {
    hide Run, Loaded, Has, Code;
    var s1 := OnExitHeadRuns(g, s, fuel + 28, v, xt, d);
    OnExitCells(s1.heap);
    t := FinishFrameRuns(g, s1, fuel, CLEANUP, s.ip + 2, d);
    assert t.rs == [REMOVE_IP, s.heap[FP_VALUE], CLEANUP] + [v, xt] + s.rs;
  }

  /** on-exit2 as far as link */
  lemma OnExit2HeadRuns(g: nat, s: State, fuel: nat, v1: Cell, v2: Cell, xt: Cell, d: seq<Cell>) returns (t: State)
    requires Here(g, s, ON_EXIT2) && |s.rs| < 0x1000_0000 && s.ds == [v2, v1] + d && s.ip + 1 < VARIABLES &&
           s.heap[s.ip + 1] == xt
    ensures t == s.(ip := ON_EXIT2 + 8, ds := [s.ip + 2] + d, rs := [v1, v2, xt] + s.rs)
    ensures Run(g, s, fuel + 21) == Run(g, t, fuel)
  {
    hide Run, Loaded, Has, Code;
    var s3 := OnExit2InlineRuns(g, s, fuel + 10, v1, v2, xt, d);
    OnExit2Cells(s3.heap);
    VariableCells(s3.heap);
    var s4 := DoSwap(g, s3, fuel + 9);
    assert s4.ds == [xt, s.ip + 2, v2, v1] + d;
    var s5 := DoToR(g, s4, fuel + 8);
    assert s5.ds == [s.ip + 2, v2, v1] + d;
    var s6 := MinusRotRuns(g, s5, fuel + 2);
    assert s6.ds == [v2, v1, s.ip + 2] + d;
    var s7 := DoToR(g, s6, fuel + 1);
    assert s7.ds == [v1, s.ip + 2] + d;
    t := DoToR(g, s7, fuel);
    assert t.rs == [v1, v2, xt] + s.rs && t.ds == [s.ip + 2] + d;
  }

  lemma OnExit2InlineRuns(g: nat, s: State, fuel: nat, v1: Cell, v2: Cell, xt: Cell, d: seq<Cell>) returns (t: State)
    requires Here(g, s, ON_EXIT2) && |s.rs| < 0x1000_0000 && s.ds == [v2, v1] + d && s.ip + 1 < VARIABLES &&
           s.heap[s.ip + 1] == xt
    ensures t == s.(ip := ON_EXIT2 + 3, ds := [s.ip + 2, xt, v2, v1] + d)
    ensures Run(g, s, fuel + 11) == Run(g, t, fuel)
  {
    hide Run, Loaded, Has, Code;
    OnExit2Cells(s.heap);
    VariableCells(s.heap);
    var s1 := Enter(g, s, fuel + 10, ON_EXIT2, OnExit2Body());
    var s2 := DoRFrom(g, s1, fuel + 9);
    assert s2.rs == s.rs && s2.ds == [s.ip + 1, v2, v1] + d;
    t := AtPlusRuns(g, s2, fuel);
    assert t.ds == [s.ip + 2, xt, v2, v1] + d;
  }

  /** on-exit2  ( v1 v2), called with the routine xt in the next cell */
  lemma OnExit2Runs(g: nat, s: State, fuel: nat, v1: Cell, v2: Cell, xt: Cell, d: seq<Cell>) returns (t: State)
    requires Here(g, s, ON_EXIT2) && |s.rs| < 0x1000_0000 && s.ds == [v2, v1] + d && s.ip + 1 < VARIABLES &&
           s.heap[s.ip + 1] == xt
    ensures t == s.(ip := s.ip + 2, ds := d, rs := [REMOVE_IP, s.heap[FP_VALUE], CLEANUP2] + [v1, v2, xt] + s.rs,
                  heap := s.heap[FP_VALUE := RSTACK_BASE - |s.rs| - 5])
    ensures Loaded(t.heap)
    ensures Run(g, s, fuel + 49) == Run(g, t, fuel)
  {
    hide Run, Loaded, Has, Code;
    var s1 := OnExit2HeadRuns(g, s, fuel + 28, v1, v2, xt, d);
    OnExit2Cells(s1.heap);
    t := FinishFrameRuns(g, s1, fuel, CLEANUP2, s.ip + 2, d);
    assert t.rs == [REMOVE_IP, s.heap[FP_VALUE], CLEANUP2] + [v1, v2, xt] + s.rs;
  }

  /** room as far as link */
  lemma RoomHeadRuns(g: nat, s: State, fuel: nat, n: Cell, d: seq<Cell>) returns (t: State)
    requires Here(g, s, ROOM) && |s.rs| < 0x1000_0000 && s.ds == [n] + d && 0 <= n < 0x1000_0000
    ensures t == s.(ip := ROOM + 7, ds := [s.ip + 1] + d, rs := ([n] + Allocated(s, n)) + s.rs)
    ensures Run(g, s, fuel + 7) == Run(g, t, fuel)
  {
    hide Run, Loaded, Has, Code;
    RoomCells(s.heap);
    VariableCells(s.heap);
    var s1 := Enter(g, s, fuel + 6, ROOM, RoomBody());
    var s2 := DoRFrom(g, s1, fuel + 5);
    assert s2.rs == s.rs && s2.ds == [s.ip + 1, n] + d;
    var s3 := DoSwap(g, s2, fuel + 4);
    assert s3.ds == [n, s.ip + 1] + d;
    var s4 := DoDup(g, s3, fuel + 3);
    var s5 := DoNegate(g, s4, fuel + 2);
    assert s5.ds == [-n, n, s.ip + 1] + d;
    var s6 := DoAllocate(g, s5, fuel + 1, n);
    assert s6.rs == Allocated(s, n) + s.rs && s6.ds == [n, s.ip + 1] + d;
    t := DoToR(g, s6, fuel);
    assert t.rs == ([n] + Allocated(s, n)) + s.rs && t.ds == [s.ip + 1] + d;
  }

  /** room  ( #cells) */
  lemma RoomRuns(g: nat, s: State, fuel: nat, n: Cell, d: seq<Cell>) returns (t: State)
    requires Here(g, s, ROOM) && |s.rs| < 0x1000_0000 && s.ds == [n] + d && 0 <= n < 0x1000_0000
    ensures t == s.(ip := s.ip + 1, ds := d,
                  rs := [REMOVE_IP, s.heap[FP_VALUE], UNROOM] + ([n] + Allocated(s, n)) + s.rs,
                  heap := s.heap[FP_VALUE := RSTACK_BASE - |s.rs| - n - 3])
    ensures Loaded(t.heap)
    ensures Run(g, s, fuel + 35) == Run(g, t, fuel)
  {
    hide Run, Loaded, Has, Code;
    var s1 := RoomHeadRuns(g, s, fuel + 28, n, d);
    RoomCells(s1.heap);
    t := FinishFrameRuns(g, s1, fuel, UNROOM, s.ip + 1, d);
    assert t.rs == [REMOVE_IP, s.heap[FP_VALUE], UNROOM] + ([n] + Allocated(s, n)) + s.rs;
  }

  /** The state in which catch executes the word it was given. */
  function Caught(s: State): State
    requires |s.heap| > USER && |s.rs| < 0x1000_0000 && s.ip < TWO63 - 2
  {
    s.(ip := CATCH_RETURN, rs := [s.heap[CF_VALUE], s.ip + 2] + s.rs,
       heap := s.heap[CF_VALUE := RSTACK_BASE - |s.rs| - 2])
  }

  /** catch, called with the word xt in the next cell, as far as its execute */
  lemma CatchHeadRuns(g: nat, s: State, fuel: nat, xt: Cell) returns (t: State)
    requires Here(g, s, CATCH) && |s.rs| < 0x1000_0000 && s.ip + 1 < VARIABLES && s.heap[s.ip + 1] == xt
    ensures |s.heap| > USER
    ensures t == Caught(s).(ip := CATCH + 10, ds := [xt] + s.ds)
    ensures Loaded(t.heap) && Here(g, t, Xt(Execute))
    ensures Run(g, s, fuel + 20) == Run(g, t, fuel)
  {
    hide Run, Loaded, Has, Code;
    var s4 := CatchInlineRuns(g, s, fuel + 8, xt);
    CatchCells(s4.heap);
    VariableCells(s4.heap);
    var s5 := PushBody(g, s4, fuel + 6, CF);
    var s6 := DoFetch(g, s5, fuel + 5);
    assert s6.ds == [s.heap[CF_VALUE], xt] + s.ds;
    var s7 := DoToR(g, s6, fuel + 4);
    assert s7.rs == [s.heap[CF_VALUE], s.ip + 2] + s.rs && s7.ds == [xt] + s.ds;
    var s8 := DoRpFetch(g, s7, fuel + 3);
    var s9 := PushBody(g, s8, fuel + 1, CF);
    t := DoStore(g, s9, fuel);
    assert t.ds == [xt] + s.ds;
    LoadedKept(s.heap, CF_VALUE, RSTACK_BASE - |s.rs| - 2);
    CatchCells(t.heap);
  }

  /** catch of a colon or does> word, as far as the start of that word */
  lemma CatchEnterRuns(g: nat, s: State, fuel: nat, xt: Cell) returns (t: State)
    requires Here(g, s, CATCH) && |s.rs| < 0x1000_0000 && s.ip + 1 < VARIABLES && s.heap[s.ip + 1] == xt
    requires Enterable(s.heap, xt) && xt + 1 < VARIABLES
    ensures |s.heap| > USER && Enterable(Caught(s).heap, xt)
    ensures t == Entered(Caught(s), xt) && t.rs == [CATCH_RETURN, s.heap[CF_VALUE], s.ip + 2] + s.rs
    ensures Loaded(t.heap)
    ensures Run(g, s, fuel + 22) == Run(g, t, fuel)
  {
    hide Run, Loaded, Has, Code;
    var s1 := CatchHeadRuns(g, s, fuel + 2, xt);
    t := DoExecute(g, s1, fuel, xt);
    assert s1.ds[1..] == s.ds;
  }

  /** catch of any word that returns by itself, a C routine for one: the word has done what
      it does, cf is as before, and catch leaves 0 */
  lemma CatchReturnsRuns(g: nat, s: State, xt: Cell, n: nat, fx: Effect) returns (t: State)
    requires Here(g, s, CATCH) && |s.rs| + 2 < 0x1000_0000 && s.ip + 1 < VARIABLES && s.heap[s.ip + 1] == xt
    requires Cleans(s.heap[..VARIABLES], |s.heap|, xt, n, fx) && n <= |s.ds|
    ensures t == s.(ip := s.ip + 2, ds := [0] + s.ds[n..], heap := Affected(fx, s.ds[..n], s.heap),
                    out := s.out + CallsOf(fx, s.ds[..n], s.heap))
    ensures Loaded(t.heap) && Leads(g, s, t)
  {
    hide Run, Loaded, Has, Code, Cleans, Affected, CallsOf;
    VariableCells(s.heap);
    var s1 := Caught(s).(ip := CATCH + 10, ds := [xt] + s.ds);
    forall fuel: nat ensures Run(g, s, fuel + 20) == Run(g, s1, fuel) { var u := CatchHeadRuns(g, s, fuel, xt); }
    assert LeadsIn(g, s, s1, 20);
    var u := CatchHeadRuns(g, s, 0, xt);
    assert s1.heap[..VARIABLES] == s.heap[..VARIABLES] && s1.ds[1..] == s.ds;
    var s2 := DoCleanup(g, s1, xt, n, fx);
    AffectedElsewhere(fx, s.ds[..n], s.heap, CF_VALUE, RSTACK_BASE - |s.rs| - 2);
    t := s2.(ip := s.ip + 2, rs := s.rs, ds := [0] + s2.ds, heap := s2.heap[CF_VALUE := s.heap[CF_VALUE]]);
    forall fuel: nat ensures Run(g, s2, fuel + 8) == Run(g, t, fuel) {
      var v := CatchTailRuns(g, s2, fuel, s.heap[CF_VALUE], s.ip + 2, s.rs);
    }
    var v := CatchTailRuns(g, s2, 0, s.heap[CF_VALUE], s.ip + 2, s.rs);
    assert LeadsIn(g, s2, t, 8);
    LeadsTo(g, s, s1, s2);
    LeadsTo(g, s, s2, t);
  }

  lemma AffectedElsewhere(fx: Effect, args: seq<Cell>, h: seq<Cell>, a: int, v: Cell)
    requires 0 <= a < USER < |h| && a != UNWINDING_VALUE
    ensures Affected(fx, args, h[a := v]) == Affected(fx, args, h)[a := v] && Affected(fx, args, h)[a] == h[a]
    ensures CallsOf(fx, args, h[a := v]) == CallsOf(fx, args, h)
    ensures Affected(fx, args, h)[a := v][a := h[a]] == Affected(fx, args, h)
  {
    assert h[a := v][USER..] == h[USER..] && h[a := v][..USER] == h[..USER][a := v];
  }

  lemma CatchInlineRuns(g: nat, s: State, fuel: nat, xt: Cell) returns (t: State)
    requires Here(g, s, CATCH) && |s.rs| < 0x1000_0000 && s.ip + 1 < VARIABLES && s.heap[s.ip + 1] == xt
    ensures t == s.(ip := CATCH + 4, ds := [xt] + s.ds, rs := [s.ip + 2] + s.rs)
    ensures Run(g, s, fuel + 12) == Run(g, t, fuel)
  {
    hide Run, Loaded, Has, Code;
    CatchCells(s.heap);
    VariableCells(s.heap);
    var s1 := Enter(g, s, fuel + 11, CATCH, CatchBody());
    var s2 := DoRFrom(g, s1, fuel + 10);
    assert s2.rs == s.rs && s2.ds == [s.ip + 1] + s.ds;
    var s3 := AtPlusRuns(g, s2, fuel + 1);
    assert s3.ds == [s.ip + 2, xt] + s.ds;
    t := DoToR(g, s3, fuel);
    assert t.ds == [xt] + s.ds && t.rs == [s.ip + 2] + s.rs;
  }

  /** r> cf ! 0 ^ as catch ends */
  lemma CatchTailRuns(g: nat, s: State, fuel: nat, prev: Cell, ra: Cell, rest: seq<Cell>) returns (t: State)
    requires Loaded(s.heap) && s.ip == CATCH_RETURN && |rest| > g && s.rs == [prev, ra] + rest
    ensures t == s.(ip := ra, rs := rest, ds := [0] + s.ds, heap := s.heap[CF_VALUE := prev])
    ensures Loaded(t.heap)
    ensures Run(g, s, fuel + 8) == Run(g, t, fuel)
  {
    hide Run, Loaded, Has, Code;
    CatchCells(s.heap);
    VariableCells(s.heap);
    var s2 := DoRFrom(g, s, fuel + 7);
    assert s2.rs == [ra] + rest;
    var s3 := PushBody(g, s2, fuel + 5, CF);
    var s4 := DoStore(g, s3, fuel + 4);
    assert s4.ds == s.ds;
    LoadedKept(s.heap, CF_VALUE, prev);
    var s5 := ZeroRuns(g, s4, fuel + 1);
    t := DoExit(g, s5, fuel);
    assert t.rs == rest;
  }

  /** The return of the word that catch executed: the catch frame goes, and catch leaves 0 */
  lemma CatchReturnRuns(g: nat, s: State, fuel: nat, prev: Cell, ra: Cell, rest: seq<Cell>) returns (t: State)
    requires Here(g, s, Xt(Exit)) && |rest| > g && s.rs == [CATCH_RETURN, prev, ra] + rest
    ensures t == s.(ip := ra, rs := rest, ds := [0] + s.ds, heap := s.heap[CF_VALUE := prev])
    ensures Loaded(t.heap)
    ensures Run(g, s, fuel + 9) == Run(g, t, fuel)
  {
    hide Run, Loaded, Has, Code;
    var s1 := DoExit(g, s, fuel + 8);
    assert s1.rs == [prev, ra] + rest;
    t := CatchTailRuns(g, s1, fuel, prev, ra, rest);
  }

  /** throw  ( error) of a non-zero error: as if catch returned, with the error and a deep return stack */
  lemma ThrowRuns(g: nat, s: State, fuel: nat, e: Cell, d: seq<Cell>, top: seq<Cell>, prev: Cell, ra: Cell,
                  rest: seq<Cell>)
      returns (t: State)
    requires Here(g, s, THROW) && |s.rs| < 0x1000_0000 && s.ds == [e] + d && e != 0
    requires s.rs == top + [prev, ra] + rest && s.heap[CF_VALUE] == RSTACK_BASE - |rest| - 2
    ensures t == s.(ip := ra, rs := [s.ip + 1] + s.rs)
    ensures Run(g, s, fuel + 12) == Run(g, t, fuel)
  {
    hide Run, Loaded, Has, Code;
    ThrowCells(s.heap);
    VariableCells(s.heap);
    var s1 := Enter(g, s, fuel + 11, THROW, ThrowBody());
    var s2 := DoQ0Branch(g, s1, fuel + 10, 228);
    var s3 := PushBody(g, s2, fuel + 8, CF);
    var s4 := DoFetch(g, s3, fuel + 7);
    assert s4.ds == [RSTACK_BASE - |rest| - 2, e] + d;
    var s5 := CellPlusRuns(g, s4, fuel + 3);
    assert s5.ds == [RSTACK_BASE - |rest| - 1, e] + d;
    ReadsAbove(s5, [s.ip + 1] + top + [prev], ra, rest);
    var s6 := DoFetch(g, s5, fuel + 2);
    assert s6.ds == [ra, e] + d;
    var s7 := DoToR(g, s6, fuel + 1);
    assert s7.ds == s.ds;
    t := DoExit(g, s7, fuel);
  }

  /** throw of zero does nothing */
  lemma ThrowZeroRuns(g: nat, s: State, fuel: nat, d: seq<Cell>) returns (t: State)
    requires Here(g, s, THROW) && s.ds == [0] + d
    ensures t == s.(ip := s.ip + 1, ds := d)
    ensures Run(g, s, fuel + 3) == Run(g, t, fuel)
  {
    hide Run, Loaded, Has, Code;
    ThrowCells(s.heap);
    var s1 := Enter(g, s, fuel + 2, THROW, ThrowBody());
    var s2 := DoQ0Branch(g, s1, fuel + 1, 228);
    assert s2.ds == d;
    t := DoExit(g, s2, fuel);
  }

  /** unwind  ( flags) as far as its loop */
  lemma UnwindHeadRuns(g: nat, s: State, fuel: nat, flags: Cell, d: seq<Cell>) returns (t: State)
    requires Here(g, s, UNWIND) && s.ds == [flags] + d
    ensures t == s.(ip := 244, ds := [s.ip + 1] + d, heap := s.heap[UNWINDING_VALUE := flags])
    ensures Loaded(t.heap)
    ensures Run(g, s, fuel + 5) == Run(g, t, fuel)
  {
    hide Run, Loaded, Has, Code, UnwindLoop, UnwindTail;
    UnwindLoopCells(s.heap);
    VariableCells(s.heap);
    var s1 := Enter(g, s, fuel + 4, UNWIND, UnwindBody());
    var s2 := PushBody(g, s1, fuel + 2, UNWINDING);
    var s3 := DoStore(g, s2, fuel + 1);
    assert s3.ds == d;
    LoadedKept(s.heap, UNWINDING_VALUE, flags);
    UnwindLoopCells(s3.heap);
    t := DoRFrom(g, s3, fuel);
    assert t.rs == s.rs;
  }

  /** the test of unwind's loop: fp is not zero and below cf */
  lemma UnwindTestRuns(g: nat, s: State, fuel: nat) returns (t: State)
    requires Loaded(s.heap) && s.ip == 244 && |s.rs| > g
    ensures t == s.(ip := if s.heap[FP_VALUE] != 0 &&
           Unsigned(s.heap[FP_VALUE]) < Unsigned(s.heap[CF_VALUE]) then 253 else 256)
    ensures Run(g, s, fuel + 10) == Run(g, t, fuel)
  {
    hide Run, Loaded, Has, Code, And, Unsigned, Flag, UnwindLoop, UnwindTail;
    UnwindLoopCells(s.heap);
    VariableCells(s.heap);
    var s1 := PushBody(g, s, fuel + 8, FP);
    var s2 := DoFetch(g, s1, fuel + 7);
    assert s2.ds == [s.heap[FP_VALUE]] + s.ds;
    var s3 := DoDup(g, s2, fuel + 6);
    var s4 := PushBody(g, s3, fuel + 4, CF);
    var s5 := DoFetch(g, s4, fuel + 3);
    assert s5.ds == [s.heap[CF_VALUE], s.heap[FP_VALUE], s.heap[FP_VALUE]] + s.ds;
    var s6 := DoULess(g, s5, fuel + 2);
    assert s6.ds == [Flag(Unsigned(s.heap[FP_VALUE]) < Unsigned(s.heap[CF_VALUE])), s.heap[FP_VALUE]] + s.ds;
    var s7 := DoAnd(g, s6, fuel + 1);
    AndFlag(s.heap[FP_VALUE], Unsigned(s.heap[FP_VALUE]) < Unsigned(s.heap[CF_VALUE]));
    t := DoZeroBranch(g, s7, fuel, 256);
    assert t.ds == s.ds;
  }

  /** the rest of unwind: RP back to the catch frame, and the frame gone */
  lemma UnwindTailRuns(g: nat, s: State, fuel: nat, back: Cell, d: seq<Cell>, top: seq<Cell>, prev: Cell, ra: Cell,
                       rest: seq<Cell>)
      returns (t: State)
    requires Loaded(s.heap) && s.ip == 256 && s.ds == [back] + d && |rest| > g && |s.rs| < 0x1000_0000
    requires s.rs == top + ([prev, ra] + rest) && s.heap[CF_VALUE] == RSTACK_BASE - |rest| - 2
    ensures t == s.(ip := back, ds := d, rs := rest, heap := s.heap[CF_VALUE := prev][UNWINDING_VALUE := 0])
    ensures Loaded(t.heap)
    ensures Run(g, s, fuel + 20) == Run(g, t, fuel)
  {
    hide Run, Loaded, Has, Code, UnwindLoop, UnwindTail;
    UnwindTailCells(s.heap);
    VariableCells(s.heap);
    var s1 := PushBody(g, s, fuel + 18, CF);
    var s2 := DoFetch(g, s1, fuel + 17);
    assert s2.ds == [RSTACK_BASE - |rest| - 2, back] + d;
    assert s2.rs == top + ([prev, ra] + rest);
    assert (top + ([prev, ra] + rest))[|top|..] == [prev, ra] + rest;
    var s3 := DoRpStore(g, s2, fuel + 16);
    assert s3.rs == [prev, ra] + rest && s3.ds == [back] + d;
    var s4 := DoRFrom(g, s3, fuel + 15);
    assert s4.rs == [ra] + rest && s4.ds == [prev, back] + d;
    var s5 := PushBody(g, s4, fuel + 13, CF);
    var s6 := DoStore(g, s5, fuel + 12);
    assert s6.ds == [back] + d;
    LoadedKept(s.heap, CF_VALUE, prev);
    UnwindTailCells(s6.heap);
    var s7 := DoRDrop(g, s6, fuel + 11);
    assert s7.rs == rest;
    var s8 := DoToR(g, s7, fuel + 10);
    assert s8.ds == d;
    var s9 := PushBody(g, s8, fuel + 8, UNWINDING);
    var s10 := OffRuns(g, s9, fuel + 1);
    assert s10.ds == d;
    UnwindTailCells(s10.heap);
    t := DoExit(g, s10, fuel);
  }

  /** The n cells that room brings into view: whatever the memory held. */
  ghost function Allocated(s: State, n: Cell): (c: seq<Cell>)
    requires 0 <= n && |s.rs| + n <= TWO63
    ensures |c| == n
  {
    seq(n, i requires 0 <= i < n => s.junk(RSTACK_BASE - (|s.rs| + n) + i))
  }

  /** rp+! of a negative count. */
  lemma DoAllocate(g: nat, s: State, fuel: nat, n: Cell) returns (t: State)
    requires Here(g, s, Xt(RpPlusStore)) && |s.ds| >= 1 && s.ds[0] == 0 - n && 0 <= n && |s.rs| + n < TWO63
    ensures t == s.(ip := s.ip + 1, ds := s.ds[1..], rs := Allocated(s, n) + s.rs)
    ensures Run(g, s, fuel + 1) == Run(g, t, fuel)
  {
    hide Run, Loaded, Code;
    t := DoRpPlusStore(g, s, fuel);
    if n == 0 {
      assert s.rs[0..] == s.rs && Allocated(s, n) == [];
    } else {
      assert Exposed(s.(ip := s.ip + 1, ds := s.ds[1..]), |s.rs| + n) == Allocated(s, n);
    }
  }

  /** Reading the return stack by address. */
  lemma ReadsAbove(s: State, top: seq<Cell>, v: Cell, rest: seq<Cell>)
    requires s.rs == top + [v] + rest && |s.heap| < 0x1000_0000_0000 && |s.rs| < 0x2000_0000
    ensures Read(s, RSTACK_BASE - |rest| - 1) == Some(v)
  {}

  lemma CleanupWordIs(h: seq<Cell>, f: Frame)
    requires Loaded(h)
    ensures h[CleanupWord(f)] == Code(DoColon) && 0 < CleanupWord(f) < 400
  {
    hide Loaded, Has, Code;
    RestoreCells(h);
    CleanupCells(h);
    Cleanup2Cells(h);
    UnroomCells(h);
  }

  /** Any cleanup word, entered with its return address above the payload. */
  lemma CleanupWordRuns(g: nat, s: State, f: Frame, back: Cell, rest: seq<Cell>) returns (t: State)
    requires Loaded(s.heap) && Sane(s.heap, f) && s.ip == CleanupWord(f) + 1
    requires s.rs == [back] + Payload(f) + rest && g < |rest| < 0x1000_0000
    ensures t == s.(ip := back, rs := rest, heap := Restored(f, s.heap), out := Noted(f, s.heap, s.out))
    ensures Loaded(t.heap) && Leads(g, s, t)
  {
    hide Run, Loaded, Code, Cleans, Affected, CallsOf;
    match f
    case Preserved(a, v) =>
      t := RestoreRuns(g, s, 0, back, v, a, rest);
      forall fuel: nat ensures Run(g, s, fuel + 6) == Run(g, t, fuel) {
        var u := RestoreRuns(g, s, fuel, back, v, a, rest);
      }
      assert LeadsIn(g, s, t, 6);
    case OnExit(xt, v, fx) => t := CleanupRuns(g, s, back, v, xt, fx, rest);
    case OnExit2(xt, v1, v2, fx) => t := Cleanup2Runs(g, s, back, v1, v2, xt, fx, rest);
    case Room(cells) =>
      t := UnroomRuns(g, s, 0, back, cells, rest);
      forall fuel: nat ensures Run(g, s, fuel + 5) == Run(g, t, fuel) {
        var u := UnroomRuns(g, s, fuel, back, cells, rest);
      }
      assert LeadsIn(g, s, t, 5);
  }

  /** unlink as far as the start of the cleanup word */
  lemma UnlinkHeadRuns(g: nat, s: State, fuel: nat, f: Frame, top: seq<Cell>, prev: Cell, rest: seq<Cell>)
      returns (t: State)
    requires Here(g, s, UNLINK) && |s.rs| < 0x1000_0000 && |rest| > g
    requires s.rs == top + ([prev, CleanupWord(f)] + Payload(f)) + rest
    requires s.heap[FP_VALUE] == RSTACK_BASE - |Payload(f)| - |rest| - 2
    ensures t == s.(ip := CleanupWord(f) + 1, ds := [s.ip + 1] + s.ds, rs := [UNLINK_RETURN] + Payload(f) + rest,
                    heap := s.heap[FP_VALUE := prev])
    ensures Loaded(t.heap) && Run(g, s, fuel + 13) == Run(g, t, fuel)
  {
    hide Run, Loaded, Code, Payload, CleanupWord;
    var word, payload := CleanupWord(f), Payload(f);
    assert s.rs == top + ([prev, word] + (payload + rest));
    var s0 := UnlinkRpRuns(g, s, fuel + 7, top, [prev, word] + (payload + rest));
    var s1 := UnlinkFpRuns(g, s0, fuel + 2, prev, word, payload + rest);
    UnlinkCells(s1.heap);
    CleanupWordIs(s1.heap, f);
    VariableCells(s.heap);
    t := DoExecute(g, s1, fuel, word);
    assert t.rs == [UNLINK_RETURN] + payload + rest && t.ds == [s.ip + 1] + s.ds;
  }

  /** unlink: whatever has been pushed since, the topmost frame goes off the return stack
      and off the list, its cleanup runs once, and unlink returns to its caller. */
  lemma UnlinkRuns(g: nat, s: State, f: Frame, top: seq<Cell>, prev: Cell, rest: seq<Cell>) returns (t: State)
    requires Here(g, s, UNLINK) && Sane(s.heap, f) && |s.rs| < 0x1000_0000 && |rest| > g
    requires s.rs == top + ([prev, CleanupWord(f)] + Payload(f)) + rest
    requires s.heap[FP_VALUE] == RSTACK_BASE - |Payload(f)| - |rest| - 2
    ensures t == s.(ip := s.ip + 1, rs := rest, heap := Restored(f, s.heap[FP_VALUE := prev]),
                    out := Noted(f, s.heap[FP_VALUE := prev], s.out))
    ensures Loaded(t.heap) && Leads(g, s, t)
  {
    hide Run, Loaded, Code, Payload, CleanupWord, Restored, Noted, Sane;
    VariableCells(s.heap);
    var s1 := UnlinkHeadRuns(g, s, 0, f, top, prev, rest);
    forall fuel: nat ensures Run(g, s, fuel + 13) == Run(g, s1, fuel) {
      var u := UnlinkHeadRuns(g, s, fuel, f, top, prev, rest);
    }
    assert LeadsIn(g, s, s1, 13);
    assert s1.heap[..VARIABLES] == s.heap[..VARIABLES];
    SaneKept(s.heap, s1.heap, f);
    var s2 := CleanupWordRuns(g, s1, f, UNLINK_RETURN, rest);
    UnlinkCells(s2.heap);
    t := BackRuns(g, s2, s.ip + 1, s.ds);
    LeadsTo(g, s, s1, s2);
    LeadsTo(g, s, s2, t);
  }
}
