/** The virtual machine as the C source has it: registers and memory that the routines
    of src/engine-itc.c overwrite, and mu_execute with its own bounded NEXT loop. */
module Engine {
  import opened Cells
  import opened Machine
  import opened Inner

  class VM {
    var ds: seq<Cell>
    var rs: seq<Cell>
    var heap: seq<Cell>
    var ip: Cell
    var out: seq<Event>
    const junk: Cell -> Cell

    constructor (s: State)
      ensures Abs() == s
    {
      ds, rs, heap, ip, out, junk := s.ds, s.rs, s.heap, s.ip, s.out, s.junk;
    }

    /** The registers and memory as one value. */
    function Abs(): State
      reads this
    {
      State(ds, rs, heap, ip, out, junk)
    }

    // The threading words

    /** NEST; IP = W */
    method DoColon(w: int)
      modifies this`rs, this`ip
      ensures Routine(Prim.DoColon, w, old(Abs())) == Some(Abs())
    {
      rs := [ip] + rs;
      ip := Wrap(w);
    }

    /** NEST; IP = *W++; push W */
    method DoDoes(w: int)
      requires Routine(Prim.DoDoes, w, Abs()).Some?
      modifies this`rs, this`ip, this`ds
      ensures Routine(Prim.DoDoes, w, old(Abs())) == Some(Abs())
    {
      rs := [ip] + rs;
      ip := heap[w];
      ds := [Wrap(w + 1)] + ds;
    }

    /** UNNEST */
    method Exit()
      requires Routine(Prim.Exit, 0, Abs()).Some?
      modifies this`rs, this`ip
      ensures Routine(Prim.Exit, 0, old(Abs())) == Some(Abs())
    {
      ip, rs := rs[0], rs[1..];
    }

    // The control structure run-times

    method ZeroBranch()
      requires Routine(Prim.ZeroBranch, 0, Abs()).Some?
      modifies this`ds, this`ip
      ensures Routine(Prim.ZeroBranch, 0, old(Abs())) == Some(Abs())
    {
      if ds[0] == 0 { ip := heap[ip]; } else { ip := Add(ip, 1); }
      ds := ds[1..];
    }

    method Q0Branch()
      requires Routine(Prim.Q0Branch, 0, Abs()).Some?
      modifies this`ds, this`ip
      ensures Routine(Prim.Q0Branch, 0, old(Abs())) == Some(Abs())
    {
      if ds[0] == 0 {
        ip := heap[ip];
        ds := ds[1..];
      } else {
        ip := Add(ip, 1);
      }
    }

    method Next()
      requires Routine(Prim.Next, 0, Abs()).Some?
      modifies this`rs, this`ip
      ensures Routine(Prim.Next, 0, old(Abs())) == Some(Abs())
    {
      var below := rs[1..];
      rs := [Sub(rs[0], 1)] + below;
      if rs[0] == 0 {
        ip, rs := Add(ip, 1), below;
      } else {
        ip := heap[ip];
      }
    }

    method Do()
      requires Routine(Prim.Do, 0, Abs()).Some?
      modifies this`rs, this`ip, this`ds
      ensures Routine(Prim.Do, 0, old(Abs())) == Some(Abs())
    {
      rs := [heap[ip]] + rs;
      ip := Add(ip, 1);
      rs := [ds[1]] + rs;
      rs := [Sub(ds[0], ds[1])] + rs;
      ds := ds[2..];
      assert rs == [Sub(old(ds)[0], old(ds)[1]), old(ds)[1], heap[old(ip)]] + old(rs);
    }

    method Loop()
      requires Routine(Prim.Loop, 0, Abs()).Some?
      modifies this`rs, this`ip
      ensures Routine(Prim.Loop, 0, old(Abs())) == Some(Abs())
    {
      rs := [Add(rs[0], 1)] + rs[1..];
      if rs[0] == 0 {
        ip, rs := Add(ip, 1), rs[3..];
        assert rs == old(rs)[3..];
      } else {
        ip := heap[ip];
      }
    }

    method PlusLoop()
      requires Routine(Prim.PlusLoop, 0, Abs()).Some?
      modifies this`rs, this`ip, this`ds
      ensures Routine(Prim.PlusLoop, 0, old(Abs())) == Some(Abs())
    {
      var prev := rs[0];
      rs := [Add(rs[0], ds[0])] + rs[1..];
      if (rs[0] < 0) != (prev < 0) {
        ip, rs := Add(ip, 1), rs[3..];
        assert rs == old(rs)[3..];
      } else {
        ip := heap[ip];
      }
      ds := ds[1..];
    }

    method Leave()
      requires Routine(Prim.Leave, 0, Abs()).Some?
      modifies this`rs, this`ip
      ensures Routine(Prim.Leave, 0, old(Abs())) == Some(Abs())
    {
      ip := rs[2];
      rs := rs[3..];
    }

    method Lit()
      requires Routine(Prim.Lit, 0, Abs()).Some?
      modifies this`ds, this`ip
      ensures Routine(Prim.Lit, 0, old(Abs())) == Some(Abs())
    {
      ds := [heap[ip]] + ds;
      ip := Add(ip, 1);
    }

    method Branch()
      requires Routine(Prim.Branch, 0, Abs()).Some?
      modifies this`ip
      ensures Routine(Prim.Branch, 0, old(Abs())) == Some(Abs())
    {
      ip := heap[ip];
    }

    method Equal0Branch()
      requires Routine(Prim.Equal0Branch, 0, Abs()).Some?
      modifies this`ip
      ensures Routine(Prim.Equal0Branch, 0, old(Abs())) == Some(Abs())
    {
      if ds[0] == 0 { ip := heap[ip]; } else { ip := Add(ip, 1); }
    }

    /** if (POP) leave */
    method QLeave()
      requires Routine(Prim.QLeave, 0, Abs()).Some?
      modifies this`rs, this`ip, this`ds
      ensures Routine(Prim.QLeave, 0, old(Abs())) == Some(Abs())
    {
      var top := ds[0];
      ds := ds[1..];
      if top != 0 { Leave(); }
    }

    /** i, j and k */
    method LoopIndex(p: Prim)
      requires p in {Prim.LoopI, Prim.LoopJ, Prim.LoopK} && Routine(p, 0, Abs()).Some?
      modifies this`ds
      ensures Routine(p, 0, old(Abs())) == Some(Abs())
    {
      var level := if p.LoopI? then 0 else if p.LoopJ? then 3 else 6;
      ds := [Add(rs[level], rs[level + 1])] + ds;
    }

    // The return stack

    method ToR()
      requires Routine(Prim.ToR, 0, Abs()).Some?
      modifies this`rs, this`ds
      ensures Routine(Prim.ToR, 0, old(Abs())) == Some(Abs())
    {
      rs := [ds[0]] + rs;
      ds := ds[1..];
    }

    method RFrom()
      requires Routine(Prim.RFrom, 0, Abs()).Some?
      modifies this`rs, this`ds
      ensures Routine(Prim.RFrom, 0, old(Abs())) == Some(Abs())
    {
      ds := [rs[0]] + ds;
      rs := rs[1..];
    }

    method RFetch()
      requires Routine(Prim.RFetch, 0, Abs()).Some?
      modifies this`ds
      ensures Routine(Prim.RFetch, 0, old(Abs())) == Some(Abs())
    {
      ds := [rs[0]] + ds;
    }

    /** PUSH(RP[1]); PUSH(RP[0]) */
    method TwoRFetch()
      requires Routine(Prim.TwoRFetch, 0, Abs()).Some?
      modifies this`ds
      ensures Routine(Prim.TwoRFetch, 0, old(Abs())) == Some(Abs())
    {
      ds := [rs[1]] + ds;
      ds := [rs[0]] + ds;
      assert ds == [rs[0], rs[1]] + old(ds);
    }

    /** RPUSH(SP[1]); RPUSH(SP[0]); DROP(2) */
    method TwoToR()
      requires Routine(Prim.TwoToR, 0, Abs()).Some?
      modifies this`rs, this`ds
      ensures Routine(Prim.TwoToR, 0, old(Abs())) == Some(Abs())
    {
      rs := [ds[1]] + rs;
      rs := [ds[0]] + rs;
      ds := ds[2..];
      assert rs == [old(ds)[0], old(ds)[1]] + old(rs);
    }

    method TwoRFrom()
      requires Routine(Prim.TwoRFrom, 0, Abs()).Some?
      modifies this`rs, this`ds
      ensures Routine(Prim.TwoRFrom, 0, old(Abs())) == Some(Abs())
    {
      TwoRFetch();
      rs := rs[2..];
    }

    /** rdrop and 2rdrop */
    method RDrops(p: Prim)
      requires p in {Prim.RDrop, Prim.TwoRDrop} && Routine(p, 0, Abs()).Some?
      modifies this`rs
      ensures Routine(p, 0, old(Abs())) == Some(Abs())
    {
      rs := rs[if p.RDrop? then 1 else 2..];
    }

    /** RP is moved so that the return stack holds n cells; it may come upon cells that the
        memory held before. */
    method MoveRp(n: int)
      requires SetDepth(Abs(), n).Some?
      modifies this`rs
      ensures SetDepth(old(Abs()), n) == Some(Abs())
    {
      rs := if n <= |rs| then rs[|rs| - n..] else Exposed(Abs(), n) + rs;
    }

    /** rp@, rp! and rp+! */
    method RpWords(p: Prim)
      requires p in {Prim.RpFetch, Prim.RpStore, Prim.RpPlusStore} && Routine(p, 0, Abs()).Some?
      modifies this`rs, this`ds
      ensures Routine(p, 0, old(Abs())) == Some(Abs())
    {
      if p.RpFetch? {
        ds := [Wrap(RSTACK_BASE - |rs|)] + ds;
      } else {
        var top := ds[0];
        ds := ds[1..];
        MoveRp(if p.RpStore? then RSTACK_BASE as int - top as int else |rs| - top as int);
      }
    }

    // Memory: the heap, or the return stack by address

    method FetchAt(a: Cell) returns (v: Cell)
      requires Read(Abs(), a).Some?
      ensures Read(Abs(), a) == Some(v)
    {
      v := if 0 <= a < |heap| then heap[a] else rs[a - (RSTACK_BASE - |rs|)];
    }

    method StoreAt(a: Cell, v: Cell)
      requires Write(Abs(), a, v).Some?
      modifies this`heap, this`rs
      ensures Write(old(Abs()), a, v) == Some(Abs())
    {
      if 0 <= a < |heap| {
        heap := heap[a := v];
      } else {
        rs := rs[a - (RSTACK_BASE - |rs|) := v];
      }
    }

    method Fetch()
      requires Routine(Prim.Fetch, 0, Abs()).Some?
      modifies this`ds
      ensures Routine(Prim.Fetch, 0, old(Abs())) == Some(Abs())
    {
      var v := FetchAt(ds[0]);
      ds := [v] + ds[1..];
    }

    method Store()
      requires Routine(Prim.Store, 0, Abs()).Some?
      modifies this`ds, this`heap, this`rs
      ensures Routine(Prim.Store, 0, old(Abs())) == Some(Abs())
    {
      var a, v := ds[0], ds[1];
      ds := ds[2..];
      StoreAt(a, v);
    }

    method PlusStore()
      requires Routine(Prim.PlusStore, 0, Abs()).Some?
      modifies this`ds, this`heap, this`rs
      ensures Routine(Prim.PlusStore, 0, old(Abs())) == Some(Abs())
    {
      var a, n := ds[0], ds[1];
      var v := FetchAt(a);
      ds := ds[2..];
      StoreAt(a, Add(v, n));
    }

    // Everything else

    /** The words of kernel.c that work on the data stack alone. */
    method Arithmetic(p: Prim)
      requires IsAlu(p) && Alu(p, ds).Some?
      modifies this`ds
      ensures Some(ds) == Alu(p, old(ds))
    {
      hide Cells.And, Cells.Or, Cells.Xor, Unsigned, Wrap;
      if p in {Prim.Dup, Prim.Over, Prim.Swap, Prim.Drop, Prim.TwoDrop} {
        Shuffle(p);
      } else if p in {Prim.Negate, Prim.InvertWord, Prim.TwoStar, Prim.TwoSlash, Prim.ZeroLess, Prim.ZeroEqual} {
        var top := ds[0];
        var z := if p.Negate? then Wrap(-(top as int))
                 else if p.InvertWord? then -1 - top
                 else if p.TwoStar? then Wrap(2 * (top as int))
                 else if p.TwoSlash? then top / 2
                 else if p.ZeroLess? then if top < 0 then -1 else 0
                 else if top == 0 then -1 else 0;
        ds := [z] + ds[1..];
      } else if !p.Nope? {
        var st1, top := ds[1], ds[0];
        var z := if p.Plus? then Wrap(st1 as int + top as int)
                 else if p.Star? then Wrap(st1 as int * top as int)
                 else if p.AndWord? then And(st1, top)
                 else if p.OrWord? then Or(st1, top)
                 else if p.XorWord? then Cells.Xor(st1, top)
                 else if p.ULess? then if Unsigned(st1) < Unsigned(top) then -1 else 0
                 else if st1 < top then -1 else 0;
        ds := [z] + ds[2..];
      }
    }

    /** dup, over, swap, drop and 2drop */
    method Shuffle(p: Prim)
      requires p in {Prim.Dup, Prim.Over, Prim.Swap, Prim.Drop, Prim.TwoDrop} && Alu(p, ds).Some?
      modifies this`ds
      ensures Some(ds) == Alu(p, old(ds))
    {
      if p.Dup? {
        ds := [ds[0]] + ds;
      } else if p.Over? {
        ds := [ds[1]] + ds;
      } else if p.Swap? {
        var t := ds[0];
        ds := ds[0 := ds[1]];
        ds := ds[1 := t];
        assert ds == [old(ds)[1], old(ds)[0]] + old(ds)[2..];
      } else {
        ds := ds[if p.Drop? then 1 else 2..];
      }
    }

    /** A routine outside the kernel takes its arguments. */
    method Outside(p: Prim, w: int)
      requires p in {Prim.Action1, Prim.Action2} && Routine(p, w, Abs()).Some?
      modifies this`ds, this`out
      ensures Routine(p, w, old(Abs())) == Some(Abs())
    {
      out := out + [Event(Wrap(w - 1), if p.Action1? then [ds[0]] else [ds[1], ds[0]])];
      ds := ds[if p.Action1? then 1 else 2..];
    }

    /** Any C routine but mu_execute. */
    method Perform(p: Prim, w: int)
      requires !p.Execute? && Routine(p, w, Abs()).Some?
      modifies this
      ensures Routine(p, w, old(Abs())) == Some(Abs())
    {
      hide Routine, Alu, IsAlu;
      if p.DoColon? { DoColon(w); }
      else if p.DoDoes? { DoDoes(w); }
      else if p in {Prim.Action1, Prim.Action2} { Outside(p, w); }
      else {
        SameAnywhere(p, w, Abs());
        if IsAlu(p) {
          AluRoutine(p, Abs());
          Arithmetic(p);
        } else if p in {Prim.Exit, Prim.ZeroBranch, Prim.Q0Branch, Prim.Next, Prim.Do, Prim.Loop, Prim.PlusLoop,
                        Prim.Leave} {
          PerformLoops(p);
        } else if p in {Prim.Lit, Prim.Branch, Prim.Equal0Branch, Prim.QLeave, Prim.LoopI, Prim.LoopJ, Prim.LoopK} {
          PerformControl(p);
        } else {
          assert p in MEMORY by { Remaining(p); }
          PerformMemory(p);
        }
      }
    }

    method PerformLoops(p: Prim)
      requires p in {Prim.Exit, Prim.ZeroBranch, Prim.Q0Branch, Prim.Next, Prim.Do, Prim.Loop, Prim.PlusLoop,
                     Prim.Leave}
      requires Routine(p, 0, Abs()).Some?
      modifies this
      ensures Routine(p, 0, old(Abs())) == Some(Abs())
    {
      hide Routine;
      if p.Exit? { Exit(); }
      else if p.ZeroBranch? { ZeroBranch(); }
      else if p.Q0Branch? { Q0Branch(); }
      else if p.Next? { Next(); }
      else if p.Do? { Do(); }
      else if p.Loop? { Loop(); }
      else if p.PlusLoop? { PlusLoop(); }
      else { Leave(); }
    }

    method PerformControl(p: Prim)
      requires p in {Prim.Lit, Prim.Branch, Prim.Equal0Branch, Prim.QLeave, Prim.LoopI, Prim.LoopJ, Prim.LoopK}
      requires Routine(p, 0, Abs()).Some?
      modifies this
      ensures Routine(p, 0, old(Abs())) == Some(Abs())
    {
      if p.Lit? { Lit(); }
      else if p.Branch? { Branch(); }
      else if p.Equal0Branch? { Equal0Branch(); }
      else if p.QLeave? { QLeave(); }
      else { LoopIndex(p); }
    }

    method PerformMemory(p: Prim)
      requires p in MEMORY
      requires Routine(p, 0, Abs()).Some?
      modifies this
      ensures Routine(p, 0, old(Abs())) == Some(Abs())
    {
      hide Routine;
      if p.RFetch? { RFetch(); }
      else if p.ToR? { ToR(); }
      else if p.RFrom? { RFrom(); }
      else if p.TwoRFetch? { TwoRFetch(); }
      else if p.TwoToR? { TwoToR(); }
      else if p.TwoRFrom? { TwoRFrom(); }
      else if p.RDrop? || p.TwoRDrop? { RDrops(p); }
      else if p.Fetch? { Fetch(); }
      else if p.Store? { Store(); }
      else if p.PlusStore? { PlusStore(); }
      else { RpWords(p); }
    }

    // The inner interpreter

    /** CALL(xt). The budget of CALLs is what makes runs finite; the routine called may
        be mu_execute, which comes back here. */
    method Call(xt: Cell, ghost fuel: nat) returns (ghost left: nat)
      requires NestedCall(xt, Abs(), fuel).Done?
      modifies this
      ensures NestedCall(xt, old(Abs()), fuel) == Done(Abs(), left) && left < fuel
      decreases fuel, 0
    {
      var p := Decode(heap[xt]).value;
      if p.Execute? {
        left := Execute(fuel - 1);
      } else {
        Perform(p, xt as int + 1);
        left := fuel - 1;
      }
    }

    /** mu_execute: for every state from which it returns, it leaves the machine exactly
        as one flat NEXT loop would, after the same number of CALLs. */
    method Execute(ghost fuel: nat) returns (ghost left: nat)
      requires NestedExecute(Abs(), fuel).Done?
      modifies this
      ensures NestedExecute(old(Abs()), fuel) == Done(Abs(), left) && left < fuel
      ensures FlatExecute(old(Abs()), fuel) == Done(Abs(), left)
      decreases fuel, 1
    {
      ghost var start := Abs();
      var saved := |rs|;
      var xt := ds[0];
      ds := ds[1..];
      left := Call(xt, fuel);
      while |rs| > saved
        invariant NestedExecute(start, fuel) == NestedLoop(saved, Abs(), left)
        invariant left < fuel
        decreases left
      {
        xt := heap[ip];
        ip := Add(ip, 1);
        left := Call(xt, left);
      }
      NestedIsFlat(start, fuel);
    }
  }

  /** The return-stack and memory words. */
  const MEMORY: set<Prim> :=
    {Prim.RFetch, Prim.ToR, Prim.RFrom, Prim.TwoRFetch, Prim.TwoToR, Prim.TwoRFrom, Prim.RDrop, Prim.TwoRDrop,
     Prim.RpFetch, Prim.RpStore, Prim.RpPlusStore, Prim.Fetch, Prim.Store, Prim.PlusStore}

  lemma Remaining(p: Prim)
    requires !IsAlu(p) && p !in {Prim.Execute, Prim.DoColon, Prim.DoDoes, Prim.Action1, Prim.Action2}
    requires p !in {Prim.Exit, Prim.ZeroBranch, Prim.Q0Branch, Prim.Next, Prim.Do, Prim.Loop, Prim.PlusLoop, Prim.Leave}
    requires p !in {Prim.Lit, Prim.Branch, Prim.Equal0Branch, Prim.QLeave, Prim.LoopI, Prim.LoopJ, Prim.LoopK}
    ensures p in MEMORY
  {}

  /** Only words with a body and routines outside the kernel look at W. */
  lemma SameAnywhere(p: Prim, w: int, s: State)
    requires p !in {Prim.Execute, Prim.DoColon, Prim.DoDoes, Prim.Action1, Prim.Action2}
    ensures Routine(p, w, s) == Routine(p, 0, s)
  {}

  lemma AluRoutine(p: Prim, s: State)
    requires IsAlu(p)
    ensures !p.Execute? && Routine(p, 0, s) == (if Alu(p, s.ds).None? then None else Some(s.(ds := Alu(p, s.ds).value)))
  {
    hide Alu;
  }
}
