/** The inner interpreter of src/engine-itc.c twice over: as the source has it,
    where mu_execute runs a bounded NEXT loop of its own and may be re-entered from
    inside a CALL, and as one flat NEXT loop. The two are shown to be the same machine.

    A budget counts CALLs. A run that exhausts it reports the pending CALL and the
    state it would start in, so two runs that agree for every budget make the same
    CALLs, in the same states, one after the other. */
module Inner {
  import opened Cells
  import opened Machine

  datatype Result = Done(s: State, fuel: nat) | Pending(xt: Cell, s: State) | Fault

  function Lift(s: Option<State>, fuel: nat): Result
  {
    match s case None => Fault case Some(t) => Done(t, fuel)
  }

  // ----- as in the source: nested loops -----

  /** CALL(xt), where the routine may be mu_execute itself. */
  function NestedCall(xt: Cell, s: State, fuel: nat): (r: Result)
    ensures r.Done? ==> r.fuel < fuel
    decreases fuel, 0
  {
    if fuel == 0 then Pending(xt, s)
    else match Fun(s.heap, xt)
      case None => Fault
      case Some(p) =>
        if p.Execute? then NestedExecute(s, fuel - 1)
        else Lift(Routine(p, xt + 1, s), fuel - 1)
  }

  /** mu_execute: save RP, call what is on the stack, then run NEXT while RP is
      below the saved value. */
  function NestedExecute(s: State, fuel: nat): (r: Result)
    ensures r.Done? ==> r.fuel < fuel
    decreases fuel, 1
  {
    if s.ds == [] then Fault
    else match NestedCall(s.ds[0], s.(ds := s.ds[1..]), fuel)
      case Done(t, left) => NestedLoop(|s.rs|, t, left)
      case other => other
  }

  /** while (RP < rp_saved) CALL( *IP++) */
  function NestedLoop(saved: nat, s: State, fuel: nat): (r: Result)
    ensures r.Done? ==> r.fuel <= fuel
    decreases fuel, 1
  {
    if |s.rs| <= saved then Done(s, fuel)
    else match AtIp(s)
      case None => Fault
      case Some(xt) =>
        match NestedCall(xt, Skip(s), fuel)
        case Done(t, left) => NestedLoop(saved, t, left)
        case other => other
  }

  // ----- flat: execute is a jump -----

  /** CALL(xt), where execute merely calls what is on the stack. */
  function Call(xt: Cell, s: State, fuel: nat): (r: Result)
    ensures r.Done? ==> r.fuel < fuel
    decreases fuel
  {
    if fuel == 0 then Pending(xt, s)
    else match Fun(s.heap, xt)
      case None => Fault
      case Some(p) =>
        if p.Execute? then
          if s.ds == [] then Fault else Call(s.ds[0], s.(ds := s.ds[1..]), fuel - 1)
        else Lift(Routine(p, xt + 1, s), fuel - 1)
  }

  /** The NEXT loop, left when the return stack holds no more than saved cells. */
  function Run(saved: nat, s: State, fuel: nat): (r: Result)
    ensures r.Done? ==> r.fuel <= fuel && |r.s.rs| <= saved
    decreases fuel
  {
    if |s.rs| <= saved then Done(s, fuel)
    else match AtIp(s)
      case None => Fault
      case Some(xt) =>
        match Call(xt, Skip(s), fuel)
        case Done(t, left) => Run(saved, t, left)
        case other => other
  }

  /** mu_execute with a flat loop. */
  function FlatExecute(s: State, fuel: nat): Result
  {
    if s.ds == [] then Fault
    else match Call(s.ds[0], s.(ds := s.ds[1..]), fuel)
      case Done(t, left) => Run(|s.rs|, t, left)
      case other => other
  }

  /** A loop bounded at saved takes over where another has stopped. */
  function Resume(saved: nat, r: Result): Result
  {
    match r
    case Done(t, left) => Run(saved, t, left)
    case other => other
  }

  /** Running to a deeper bound first changes nothing: an inner loop only takes
      steps the outer loop would have taken, and the outer loop carries on from
      wherever the inner one stopped. */
  lemma {:induction false} RunSplits(inner: nat, outer: nat, s: State, fuel: nat)
    requires outer <= inner
    ensures Run(outer, s, fuel) == Resume(outer, Run(inner, s, fuel))
    decreases fuel
  {
    if |s.rs| > inner {
      match AtIp(s)
      case None =>
      case Some(xt) =>
        match Call(xt, Skip(s), fuel)
        case Done(t, left) => RunSplits(inner, outer, t, left);
        case other =>
    }
  }

  /** A nested CALL made with the outer loop bounded at saved is the flat CALL
      followed by the flat loop, once the outer loop resumes. */
  lemma {:induction false} NestedCallIsFlat(saved: nat, xt: Cell, s: State, fuel: nat)
    requires saved <= |s.rs|
    ensures Resume(saved, NestedCall(xt, s, fuel)) == Resume(saved, Call(xt, s, fuel))
    decreases fuel, 0
  {
    hide Routine, NestedLoop, Run;
    if fuel > 0 && Fun(s.heap, xt) == Some(Execute) && s.ds != [] {
      var s1 := s.(ds := s.ds[1..]);
      NestedCallIsFlat(|s.rs|, s.ds[0], s1, fuel - 1);
      match NestedCall(s.ds[0], s1, fuel - 1) {
        case Done(t, left) =>
          NestedLoopIsFlat(|s.rs|, t, left);
          RunSplits(|s.rs|, saved, t, left);
        case other =>
      }
      match Call(s.ds[0], s1, fuel - 1) {
        case Done(t, left) => RunSplits(|s.rs|, saved, t, left);
        case other =>
      }
    }
  }

  lemma {:induction false} NestedLoopIsFlat(saved: nat, s: State, fuel: nat)
    ensures NestedLoop(saved, s, fuel) == Run(saved, s, fuel)
    decreases fuel, 1
  {
    if |s.rs| > saved && AtIp(s).Some? {
      var xt := AtIp(s).value;
      NestedCallIsFlat(saved, xt, Skip(s), fuel);
      match NestedCall(xt, Skip(s), fuel)
      case Done(t, left) => NestedLoopIsFlat(saved, t, left);
      case other =>
    }
  }

  /** mu_execute, re-entered to any depth, is the flat machine: for every budget it
      finishes in the same state having made the same number of CALLs, or is about to
      make the same CALL from the same state, or faults. */
  lemma NestedIsFlat(s: State, fuel: nat)
    ensures NestedExecute(s, fuel) == FlatExecute(s, fuel)
  {
    if s.ds != [] {
      var s1 := s.(ds := s.ds[1..]);
      NestedCallIsFlat(|s.rs|, s.ds[0], s1, fuel);
      match NestedCall(s.ds[0], s1, fuel)
      case Done(t, left) => NestedLoopIsFlat(|s.rs|, t, left);
      case other =>
    }
  }

  /** The n-th CALL, counted from zero, is the same in both machines. */
  lemma SameCalls(s: State, n: nat, xt: Cell, t: State)
    ensures NestedExecute(s, n) == Pending(xt, t) <==> FlatExecute(s, n) == Pending(xt, t)
  {
    NestedIsFlat(s, n);
  }
}
