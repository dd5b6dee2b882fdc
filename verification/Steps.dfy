/** What single threaded cells do to a running machine: each lemma performs one CALL of
    the NEXT loop and names the state it leads to. */
module Steps {
  import opened Cells
  import opened Machine
  import opened Inner
  import opened Image

  /** The machine is running above the bound g, with the cell c next. */
  ghost predicate Here(g: nat, s: State, c: Cell)
  {
    Loaded(s.heap) && |s.rs| > g && 0 <= s.ip < VARIABLES && s.heap[s.ip] == c
  }

  /** One CALL of a C routine. */
  lemma Routines(g: nat, s: State, fuel: nat, p: Prim, t: State)
    requires Here(g, s, Xt(p)) && !p.Execute?
    requires Routine(p, Xt(p) + 1, s.(ip := s.ip + 1)) == Some(t)
    ensures Run(g, s, fuel + 1) == Run(g, t, fuel)
  {
    hide Routine, Has;
    KernelWord(s.heap, p);
    assert Call(Xt(p), Skip(s), fuel + 1) == Done(t, fuel);
  }

  lemma DoToR(g: nat, s: State, fuel: nat) returns (t: State)
    requires Here(g, s, Xt(ToR)) && |s.ds| >= 1
    ensures t == s.(ip := s.ip + 1, ds := s.ds[1..], rs := [s.ds[0]] + s.rs)
    ensures Run(g, s, fuel + 1) == Run(g, t, fuel)
  {
    hide Run, Loaded;
    t := s.(ip := s.ip + 1, ds := s.ds[1..], rs := [s.ds[0]] + s.rs);
    Routines(g, s, fuel, ToR, t);
  }

  lemma DoRFrom(g: nat, s: State, fuel: nat) returns (t: State)
    requires Here(g, s, Xt(RFrom))
    ensures t == s.(ip := s.ip + 1, ds := [s.rs[0]] + s.ds, rs := s.rs[1..])
    ensures Run(g, s, fuel + 1) == Run(g, t, fuel)
  {
    hide Run, Loaded;
    t := s.(ip := s.ip + 1, ds := [s.rs[0]] + s.ds, rs := s.rs[1..]);
    Routines(g, s, fuel, RFrom, t);
  }

  lemma DoRDrop(g: nat, s: State, fuel: nat) returns (t: State)
    requires Here(g, s, Xt(RDrop))
    ensures t == s.(ip := s.ip + 1, rs := s.rs[1..])
    ensures Run(g, s, fuel + 1) == Run(g, t, fuel)
  {
    hide Run, Loaded;
    t := s.(ip := s.ip + 1, rs := s.rs[1..]);
    Routines(g, s, fuel, RDrop, t);
  }

  lemma DoDup(g: nat, s: State, fuel: nat) returns (t: State)
    requires Here(g, s, Xt(Dup)) && |s.ds| >= 1
    ensures t == s.(ip := s.ip + 1, ds := [s.ds[0]] + s.ds)
    ensures Run(g, s, fuel + 1) == Run(g, t, fuel)
  {
    hide Run, Loaded;
    t := s.(ip := s.ip + 1, ds := [s.ds[0]] + s.ds);
    Routines(g, s, fuel, Dup, t);
  }

  lemma DoOver(g: nat, s: State, fuel: nat) returns (t: State)
    requires Here(g, s, Xt(Over)) && |s.ds| >= 2
    ensures t == s.(ip := s.ip + 1, ds := [s.ds[1]] + s.ds)
    ensures Run(g, s, fuel + 1) == Run(g, t, fuel)
  {
    hide Run, Loaded;
    t := s.(ip := s.ip + 1, ds := [s.ds[1]] + s.ds);
    Routines(g, s, fuel, Over, t);
  }

  lemma DoSwap(g: nat, s: State, fuel: nat) returns (t: State)
    requires Here(g, s, Xt(Swap)) && |s.ds| >= 2
    ensures t == s.(ip := s.ip + 1, ds := [s.ds[1], s.ds[0]] + s.ds[2..])
    ensures Run(g, s, fuel + 1) == Run(g, t, fuel)
  {
    hide Run, Loaded;
    t := s.(ip := s.ip + 1, ds := [s.ds[1], s.ds[0]] + s.ds[2..]);
    Routines(g, s, fuel, Swap, t);
  }

  lemma DoDrop(g: nat, s: State, fuel: nat) returns (t: State)
    requires Here(g, s, Xt(Drop)) && |s.ds| >= 1
    ensures t == s.(ip := s.ip + 1, ds := s.ds[1..])
    ensures Run(g, s, fuel + 1) == Run(g, t, fuel)
  {
    hide Run, Loaded;
    t := s.(ip := s.ip + 1, ds := s.ds[1..]);
    Routines(g, s, fuel, Drop, t);
  }

  lemma DoNegate(g: nat, s: State, fuel: nat) returns (t: State)
    requires Here(g, s, Xt(Negate)) && |s.ds| >= 1
    ensures t == s.(ip := s.ip + 1, ds := [Sub(0, s.ds[0])] + s.ds[1..])
    ensures Run(g, s, fuel + 1) == Run(g, t, fuel)
  {
    hide Run, Loaded;
    t := s.(ip := s.ip + 1, ds := [Sub(0, s.ds[0])] + s.ds[1..]);
    Routines(g, s, fuel, Negate, t);
  }

  lemma DoPlus(g: nat, s: State, fuel: nat) returns (t: State)
    requires Here(g, s, Xt(Plus)) && |s.ds| >= 2
    ensures t == s.(ip := s.ip + 1, ds := [Add(s.ds[1], s.ds[0])] + s.ds[2..])
    ensures Run(g, s, fuel + 1) == Run(g, t, fuel)
  {
    hide Run, Loaded;
    t := s.(ip := s.ip + 1, ds := [Add(s.ds[1], s.ds[0])] + s.ds[2..]);
    Routines(g, s, fuel, Plus, t);
  }

  lemma DoULess(g: nat, s: State, fuel: nat) returns (t: State)
    requires Here(g, s, Xt(ULess)) && |s.ds| >= 2
    ensures t == s.(ip := s.ip + 1, ds := [Flag(Unsigned(s.ds[1]) < Unsigned(s.ds[0]))] + s.ds[2..])
    ensures Run(g, s, fuel + 1) == Run(g, t, fuel)
  {
    hide Run, Loaded;
    t := s.(ip := s.ip + 1, ds := [Flag(Unsigned(s.ds[1]) < Unsigned(s.ds[0]))] + s.ds[2..]);
    Routines(g, s, fuel, ULess, t);
  }

  lemma DoAnd(g: nat, s: State, fuel: nat) returns (t: State)
    requires Here(g, s, Xt(AndWord)) && |s.ds| >= 2
    ensures t == s.(ip := s.ip + 1, ds := [And(s.ds[1], s.ds[0])] + s.ds[2..])
    ensures Run(g, s, fuel + 1) == Run(g, t, fuel)
  {
    hide Run, Loaded;
    t := s.(ip := s.ip + 1, ds := [And(s.ds[1], s.ds[0])] + s.ds[2..]);
    Routines(g, s, fuel, AndWord, t);
  }

  lemma DoRpFetch(g: nat, s: State, fuel: nat) returns (t: State)
    requires Here(g, s, Xt(RpFetch)) && |s.rs| < RSTACK_BASE
    ensures t == s.(ip := s.ip + 1, ds := [RSTACK_BASE - |s.rs|] + s.ds)
    ensures Run(g, s, fuel + 1) == Run(g, t, fuel)
  {
    hide Run, Loaded;
    t := s.(ip := s.ip + 1, ds := [RSTACK_BASE - |s.rs|] + s.ds);
    Routines(g, s, fuel, RpFetch, t);
  }

  lemma DoExit(g: nat, s: State, fuel: nat) returns (t: State)
    requires Here(g, s, Xt(Exit))
    ensures t == s.(ip := s.rs[0], rs := s.rs[1..])
    ensures Run(g, s, fuel + 1) == Run(g, t, fuel)
  {
    hide Run, Loaded;
    t := s.(ip := s.rs[0], rs := s.rs[1..]);
    Routines(g, s, fuel, Exit, t);
  }

  lemma DoFetch(g: nat, s: State, fuel: nat) returns (t: State)
    requires Here(g, s, Xt(Fetch)) && |s.ds| >= 1 && Read(s, s.ds[0]).Some?
    ensures t == s.(ip := s.ip + 1, ds := [Read(s, s.ds[0]).value] + s.ds[1..])
    ensures Run(g, s, fuel + 1) == Run(g, t, fuel)
  {
    hide Run, Loaded;
    t := s.(ip := s.ip + 1, ds := [Read(s, s.ds[0]).value] + s.ds[1..]);
    Routines(g, s, fuel, Fetch, t);
  }

  lemma DoStore(g: nat, s: State, fuel: nat) returns (t: State)
    requires Here(g, s, Xt(Store)) && |s.ds| >= 2 && 0 <= s.ds[0] < |s.heap|
    ensures t == s.(ip := s.ip + 1, heap := s.heap[s.ds[0] := s.ds[1]], ds := s.ds[2..])
    ensures Run(g, s, fuel + 1) == Run(g, t, fuel)
  {
    hide Run, Loaded;
    t := s.(ip := s.ip + 1, heap := s.heap[s.ds[0] := s.ds[1]], ds := s.ds[2..]);
    Routines(g, s, fuel, Store, t);
  }

  lemma DoPlusStore(g: nat, s: State, fuel: nat) returns (t: State)
    requires Here(g, s, Xt(PlusStore)) && |s.ds| >= 2 && 0 <= s.ds[0] < |s.heap|
    ensures t == s.(ip := s.ip + 1, heap := s.heap[s.ds[0] := Add(s.heap[s.ds[0]], s.ds[1])], ds := s.ds[2..])
    ensures Run(g, s, fuel + 1) == Run(g, t, fuel)
  {
    hide Run, Loaded;
    t := s.(ip := s.ip + 1, heap := s.heap[s.ds[0] := Add(s.heap[s.ds[0]], s.ds[1])], ds := s.ds[2..]);
    Routines(g, s, fuel, PlusStore, t);
  }

  /** (lit) takes the next cell. */
  lemma DoLit(g: nat, s: State, fuel: nat, v: Cell) returns (t: State)
    requires Here(g, s, Xt(Lit)) && s.ip + 1 < VARIABLES && s.heap[s.ip + 1] == v
    ensures t == s.(ip := s.ip + 2, ds := [v] + s.ds)
    ensures Run(g, s, fuel + 1) == Run(g, t, fuel)
  {
    hide Run, Has;
    t := s.(ip := s.ip + 2, ds := [v] + s.ds);
    Routines(g, s, fuel, Lit, t);
  }

  lemma DoBranch(g: nat, s: State, fuel: nat, dest: Cell) returns (t: State)
    requires Here(g, s, Xt(Branch)) && s.ip + 1 < VARIABLES && s.heap[s.ip + 1] == dest
    ensures t == s.(ip := dest)
    ensures Run(g, s, fuel + 1) == Run(g, t, fuel)
  {
    hide Run, Has;
    t := s.(ip := dest);
    Routines(g, s, fuel, Branch, t);
  }

  lemma DoZeroBranch(g: nat, s: State, fuel: nat, dest: Cell) returns (t: State)
    requires Here(g, s, Xt(ZeroBranch)) && s.ip + 1 < VARIABLES && s.heap[s.ip + 1] == dest && |s.ds| >= 1
    ensures t == s.(ip := if s.ds[0] == 0 then dest else s.ip + 2, ds := s.ds[1..])
    ensures Run(g, s, fuel + 1) == Run(g, t, fuel)
  {
    hide Run, Has;
    t := s.(ip := if s.ds[0] == 0 then dest else s.ip + 2, ds := s.ds[1..]);
    Routines(g, s, fuel, ZeroBranch, t);
  }

  lemma DoQ0Branch(g: nat, s: State, fuel: nat, dest: Cell) returns (t: State)
    requires Here(g, s, Xt(Q0Branch)) && s.ip + 1 < VARIABLES && s.heap[s.ip + 1] == dest && |s.ds| >= 1
    ensures t == if s.ds[0] == 0 then s.(ip := dest, ds := s.ds[1..]) else s.(ip := s.ip + 2)
    ensures Run(g, s, fuel + 1) == Run(g, t, fuel)
  {
    hide Run, Has;
    t := if s.ds[0] == 0 then s.(ip := dest, ds := s.ds[1..]) else s.(ip := s.ip + 2);
    Routines(g, s, fuel, Q0Branch, t);
  }

  /** rp! to a shallower depth. */
  lemma DoRpStore(g: nat, s: State, fuel: nat) returns (t: State)
    requires Here(g, s, Xt(RpStore)) && |s.ds| >= 1 && 0 <= RSTACK_BASE - s.ds[0] <= |s.rs| < TWO63
    ensures var depth := RSTACK_BASE - s.ds[0];
            t == s.(ip := s.ip + 1, ds := s.ds[1..], rs := s.rs[|s.rs| - depth..])
    ensures Run(g, s, fuel + 1) == Run(g, t, fuel)
  {
    hide Run, Loaded;
    t := s.(ip := s.ip + 1, ds := s.ds[1..], rs := s.rs[|s.rs| - (RSTACK_BASE - s.ds[0])..]);
    Routines(g, s, fuel, RpStore, t);
  }

  /** rp+! either way. */
  lemma DoRpPlusStore(g: nat, s: State, fuel: nat) returns (t: State)
    requires Here(g, s, Xt(RpPlusStore)) && |s.ds| >= 1 && 0 <= |s.rs| - s.ds[0] < TWO63
    ensures SetDepth(s.(ip := s.ip + 1, ds := s.ds[1..]), |s.rs| - s.ds[0]) == Some(t)
    ensures Run(g, s, fuel + 1) == Run(g, t, fuel)
  {
    hide Run, Loaded;
    t := SetDepth(s.(ip := s.ip + 1, ds := s.ds[1..]), |s.rs| - s.ds[0]).value;
    Routines(g, s, fuel, RpPlusStore, t);
  }

  /** CALL of a colon word: nest. */
  lemma CallColon(s: State, fuel: nat, xt: Cell, body: seq<Cell>)
    requires Has(s.heap, xt, body)
    ensures Call(xt, s, fuel + 1) == Done(s.(rs := [s.ip] + s.rs, ip := xt + 1), fuel)
  {}

  lemma Enter(g: nat, s: State, fuel: nat, xt: Cell, body: seq<Cell>) returns (t: State)
    requires Here(g, s, xt) && Has(s.heap, xt, body)
    ensures t == s.(rs := [s.ip + 1] + s.rs, ip := xt + 1)
    ensures Run(g, s, fuel + 1) == Run(g, t, fuel)
  {
    t := s.(rs := [s.ip + 1] + s.rs, ip := xt + 1);
    assert Call(xt, Skip(s), fuel + 1) == Done(t, fuel);
  }

  /** A word made by create pushes the address of its body and returns. */
  lemma PushBody(g: nat, s: State, fuel: nat, xt: Cell) returns (t: State)
    requires Here(g, s, xt) && 0 < xt && xt + 1 < |s.heap|
    requires s.heap[xt] == Code(DoDoes) && s.heap[xt + 1] == EMPTY_DOES && s.heap[EMPTY_DOES] == Xt(Exit)
    ensures t == s.(ds := [xt + 2] + s.ds, ip := s.ip + 1)
    ensures Run(g, s, fuel + 2) == Run(g, t, fuel)
  {
    hide Has, Run;
    var s1 := s.(rs := [s.ip + 1] + s.rs, ip := EMPTY_DOES, ds := [xt + 2] + s.ds);
    assert Run(g, s, fuel + 2) == Run(g, s1, fuel + 1) by { EntersDoes(g, s, s1, fuel + 1, xt); }
    t := DoExit(g, s1, fuel);
  }

  lemma EntersDoes(g: nat, s: State, s1: State, fuel: nat, xt: Cell)
    requires Here(g, s, xt) && 0 < xt && xt + 1 < |s.heap|
    requires s.heap[xt] == Code(DoDoes) && s.heap[xt + 1] == EMPTY_DOES
    requires s1 == s.(rs := [s.ip + 1] + s.rs, ip := EMPTY_DOES, ds := [xt + 2] + s.ds)
    ensures Run(g, s, fuel + 1) == Run(g, s1, fuel)
  {
    hide Has;
    assert Call(xt, Skip(s), fuel + 1) == Done(s1, fuel);
  }

  /** xt is the word of a colon or a does> definition. */
  predicate Enterable(h: seq<Cell>, xt: Cell)
  {
    0 < xt && xt + 1 < |h| < TWO63 - 1 && (h[xt] == Code(DoColon) || h[xt] == Code(DoDoes))
  }

  /** Inside that word, with its return address pushed. */
  function Entered(s: State, xt: Cell): State
    requires Enterable(s.heap, xt)
  {
    if s.heap[xt] == Code(DoColon) then RPush(s, s.ip).(ip := xt + 1)
    else RPush(s, s.ip).(ip := s.heap[xt + 1], ds := [xt + 2] + s.ds)
  }

  /** execute of such a word: two CALLs, but a single jump. */
  lemma DoExecute(g: nat, s: State, fuel: nat, xt: Cell) returns (t: State)
    requires Here(g, s, Xt(Execute)) && |s.ds| >= 1 && s.ds[0] == xt && Enterable(s.heap, xt)
    ensures t == Entered(s.(ip := s.ip + 1, ds := s.ds[1..]), xt)
    ensures Run(g, s, fuel + 2) == Run(g, t, fuel)
  {
    hide Has;
    t := Entered(s.(ip := s.ip + 1, ds := s.ds[1..]), xt);
    KernelWord(s.heap, Execute);
    assert Call(xt, Skip(s).(ds := s.ds[1..]), fuel + 1) == Done(t, fuel);
    assert Call(Xt(Execute), Skip(s), fuel + 2) == Done(t, fuel);
  }

  // ----- any number of CALLs -----

  /** From s the machine gets to t in k CALLs. */
  ghost predicate LeadsIn(g: nat, s: State, t: State, k: nat)
  {
    forall fuel: nat :: Run(g, s, fuel + k) == Run(g, t, fuel)
  }

  ghost predicate Leads(g: nat, s: State, t: State) { exists k: nat :: LeadsIn(g, s, t, k) }

  lemma LeadsTo(g: nat, s: State, t: State, u: State)
    requires Leads(g, s, t) && Leads(g, t, u)
    ensures Leads(g, s, u)
  {
    hide Run;
    var k: nat :| LeadsIn(g, s, t, k);
    var m: nat :| LeadsIn(g, t, u, m);
    forall fuel: nat ensures Run(g, s, fuel + (m + k)) == Run(g, u, fuel) {
      assert Run(g, s, (fuel + m) + k) == Run(g, t, fuel + m);
    }
    assert LeadsIn(g, s, u, m + k);
  }
}
