/** How often counted loops run, and with which loop parameters on the return stack,
    on 64-bit cells that wrap. */
module LoopCounts {
  import opened Cells
  import opened Control
  import opened Structured

  /** Run the body a once for each element of frames, with those cells on top of rs.
      +loop's increment is dropped after each round. */
  ghost function Rounds(env: Env, a: Tree, plus: bool, w: World, rs: seq<RCell>, frames: seq<seq<RCell>>, fuel: nat)
      : Outcome
    decreases |frames|
  {
    if frames == [] then Ends(Through, w.(rs := rs), fuel)
    else match Eval(env, a, w.(rs := frames[0] + rs), fuel)
      case Ends(Through, w1, f1) =>
        if f1 == 0 then Unfinished
        else if plus && |w1.ds| == 0 then Undefined
        else Rounds(env, a, plus, if plus then w1.(ds := w1.ds[1..]) else w1, rs, frames[1..], f1 - 1)
      case other => other
  }

  /** leave ends a do loop like its last round does. */
  ghost function Left(o: Outcome): Outcome
  {
    match o case Ends(Leaving, w, f) => Ends(Through, w, f) case other => other
  }

  /** When the body runs to its end it has put the return stack back. */
  ghost predicate Balanced(env: Env, a: Tree)
  {
    forall w: World, fuel: nat ::
      var o := Eval(env, a, w, fuel);
      o.Ends? && o.how.Through? ==> o.w.rs == w.rs
  }

  /** ... and leaves step on the data stack. */
  ghost predicate Increments(env: Env, a: Tree, step: Cell)
  {
    forall w: World, fuel: nat ::
      var o := Eval(env, a, w, fuel);
      o.Ends? && o.how.Through? ==> |o.w.ds| > 0 && o.w.ds[0] == step
  }

  lemma KeepsStack(env: Env, a: Tree, w: World, fuel: nat)
    requires Balanced(env, a)
    ensures var o := Eval(env, a, w, fuel);
            o.Ends? && o.how.Through? ==> o.w.rs == w.rs
  {
    hide Eval;
  }

  lemma LeavesStep(env: Env, a: Tree, step: Cell, w: World, fuel: nat)
    requires Increments(env, a, step)
    ensures var o := Eval(env, a, w, fuel);
            o.Ends? && o.how.Through? ==> |o.w.ds| > 0 && o.w.ds[0] == step
  {
    hide Eval;
  }

  /** Rounds does not look at the return stack it is started with. */
  lemma SameRounds(env: Env, a: Tree, plus: bool, w: World, rs': seq<RCell>, rs: seq<RCell>, frames: seq<seq<RCell>>,
                   fuel: nat)
    ensures Rounds(env, a, plus, w.(rs := rs'), rs, frames, fuel) == Rounds(env, a, plus, w, rs, frames, fuel)
  {}

  // ----- for -----

  ghost function ForFrames(counts: seq<Cell>): (f: seq<seq<RCell>>)
    ensures |f| == |counts|
  {
    if counts == [] then [] else [[Num(counts[0])]] + ForFrames(counts[1..])
  }

  /** Each count is one less than the one before, and one less than the last is zero. */
  ghost predicate CountsDown(counts: seq<Cell>)
  {
    |counts| > 0 && forall k :: 0 <= k < |counts| ==> CountAt(counts, k)
  }

  ghost predicate CountAt(counts: seq<Cell>, k: nat)
    requires k < |counts|
  {
    if k + 1 < |counts| then Sub(counts[k], 1) == counts[k + 1] != 0 else Sub(counts[k], 1) == 0
  }

  lemma ShorterCounts(counts: seq<Cell>)
    requires CountsDown(counts)
    ensures |counts| > 0 && CountAt(counts, 0)
    ensures |counts| > 1 ==> CountsDown(counts[1..])
  {
    hide Sub;
    forall k | 0 <= k < |counts| - 1 ensures CountAt(counts[1..], k) {
      assert CountAt(counts, k + 1);
    }
  }

  /** The counts n, n - 1, ... 1. */
  ghost function Down(n: nat): (c: seq<Cell>)
    ensures |c| == n && forall k :: 0 <= k < n ==> c[k] == Wrap(n - k)
  {
    seq(n, k requires 0 <= k < n => Wrap(n - k))
  }

  lemma DownCounts(n: nat)
    requires 0 < n < TWO64
    ensures CountsDown(Down(n))
  {
    hide Wrap, Sub;
    var c := Down(n);
    forall k | 0 <= k < n ensures CountAt(c, k) {
      assert c[k] == Wrap(n - k);
      NextCount(n - k);
    }
  }

  lemma NextCount(m: nat)
    requires 0 < m < TWO64
    ensures Sub(Wrap(m), 1) == Wrap(m - 1) && (Wrap(m - 1) == 0 <==> m == 1)
  {
    hide Wrap, Sub;
    WrapAdd(m, 1);
    WrapZero(m - 1);
    WrapSmall(1);
  }

  lemma WrapSmall(x: int)
    ensures -TWO63 <= x < TWO63 ==> Wrap(x) == x
  {}

  /** A for loop runs its unsigned count, counting down to 1; zero skips it. */
  lemma ForRunsCount(env: Env, a: Tree, w: World, n: Cell, fuel: nat)
    requires Balanced(env, a)
    requires fuel >= 2 && |w.ds| > 0 && w.ds[0] == n
    ensures Eval(env, For(a), w, fuel) ==
            if n == 0 then Ends(Through, w.(ds := w.ds[1..]), fuel - 1)
            else Rounds(env, a, false, w.(ds := w.ds[1..]), w.rs, ForFrames(Down(Unsigned(n))), fuel - 2)
  {
    hide EvalFor, Rounds, ForFrames;
    if n != 0 {
      var w1 := w.(ds := w.ds[1..], rs := [Num(n)] + w.rs);
      DownCounts(Unsigned(n));
      ForRounds(env, a, w1, w.rs, Down(Unsigned(n)), fuel - 2);
      SameRounds(env, a, false, w.(ds := w.ds[1..]), w1.rs, w.rs, ForFrames(Down(Unsigned(n))), fuel - 2);
    }
  }

  lemma {:induction false} ForRounds(env: Env, a: Tree, w: World, rs: seq<RCell>, counts: seq<Cell>, fuel: nat)
    requires Balanced(env, a) && CountsDown(counts)
    requires w.rs == [Num(counts[0])] + rs
    ensures EvalFor(env, a, w, fuel) == Rounds(env, a, false, w, rs, ForFrames(counts), fuel)
    decreases |counts|
  {
    hide Eval, Sub, CountsDown, Balanced;
    ShorterCounts(counts);
    KeepsStack(env, a, w, fuel);
    assert w.(rs := ForFrames(counts)[0] + rs) == w;
    assert ForFrames(counts)[1..] == ForFrames(counts[1..]);
    match Eval(env, a, w, fuel)
    case Ends(Through, w1, f1) =>
      assert w1.rs == w.rs && w1.rs[1..] == rs;
      if f1 > 0 && |counts| > 1 {
        var rs1 := [Num(counts[1])] + rs;
        ForRounds(env, a, w1.(rs := rs1), rs, counts[1..], f1 - 1);
        SameRounds(env, a, false, w1, rs1, rs, ForFrames(counts[1..]), f1 - 1);
      }
    case other =>
  }

  // ----- do loops -----

  ghost function LoopFrame(index: Cell, limit: Cell): seq<RCell> { [Num(index), Num(limit), LoopExit] }

  ghost function LoopFrames(indexes: seq<Cell>, limit: Cell): (f: seq<seq<RCell>>)
    ensures |f| == |indexes|
    ensures forall k :: 0 <= k < |f| ==> f[k] == LoopFrame(indexes[k], limit)
  {
    if indexes == [] then [] else [LoopFrame(indexes[0], limit)] + LoopFrames(indexes[1..], limit)
  }

  /** What ends the loop when the offset goes from before to after. */
  ghost predicate Stops(plus: bool, before: Cell, after: Cell)
  {
    if plus then (after < 0) != (before < 0) else after == 0
  }

  /** Each offset is the one before plus step, and the loop stops after the last only. */
  ghost predicate Advances(plus: bool, step: Cell, indexes: seq<Cell>)
  {
    |indexes| > 0 && forall k :: 0 <= k < |indexes| ==> AdvancesAt(plus, step, indexes, k)
  }

  ghost predicate AdvancesAt(plus: bool, step: Cell, indexes: seq<Cell>, k: nat)
    requires k < |indexes|
  {
    var next := Add(indexes[k], step);
    (Stops(plus, indexes[k], next) <==> k == |indexes| - 1)
    && (k + 1 < |indexes| ==> indexes[k + 1] == next)
  }

  // One round of a do loop, on both sides, given how the body ends.

  ghost function DoStep(env: Env, a: Tree, plus: bool, o: Outcome): Outcome
  {
    match o
    case Ends(Through, w, f) =>
      if f == 0 then Unfinished
      else (match LoopEnd(plus, w)
            case None => Undefined
            case Some((again, w1)) => if again then EvalDo(env, a, plus, w1, f - 1) else Ends(Through, w1, f - 1))
    case Ends(Leaving, w, f) => Ends(Through, w, f)
    case other => other
  }

  ghost function RoundStep(env: Env, a: Tree, plus: bool, o: Outcome, rs: seq<RCell>, frames: seq<seq<RCell>>): Outcome
  {
    match o
    case Ends(Through, w, f) =>
      if f == 0 then Unfinished
      else if plus && |w.ds| == 0 then Undefined
      else Rounds(env, a, plus, if plus then w.(ds := w.ds[1..]) else w, rs, frames, f - 1)
    case other => other
  }

  lemma OneRound(env: Env, a: Tree, plus: bool, w: World, rs: seq<RCell>, frame: seq<RCell>, frames: seq<seq<RCell>>,
                 fuel: nat)
    requires w.rs == frame + rs
    ensures EvalDo(env, a, plus, w, fuel) == DoStep(env, a, plus, Eval(env, a, w, fuel))
    ensures Rounds(env, a, plus, w, rs, [frame] + frames, fuel) ==
            RoundStep(env, a, plus, Eval(env, a, w, fuel), rs, frames)
  {
    hide Eval, LoopEnd;
    assert ([frame] + frames)[1..] == frames && w.(rs := frame + rs) == w;
  }

  /** A do loop runs one round for each offset of a sequence that advances. */
  lemma {:induction false} DoRounds(env: Env, a: Tree, plus: bool, step: Cell, w: World, indexes: seq<Cell>,
                                    limit: Cell, rs: seq<RCell>, fuel: nat)
    requires Balanced(env, a) && Advances(plus, step, indexes)
    requires if plus then Increments(env, a, step) else step == 1
    requires w.rs == LoopFrame(indexes[0], limit) + rs
    ensures EvalDo(env, a, plus, w, fuel) == Left(Rounds(env, a, plus, w, rs, LoopFrames(indexes, limit), fuel))
    decreases |indexes|
  {
    hide Eval, EvalDo, Rounds, Add, Advances, Balanced, Increments, LoopEnd, LoopFrame;
    ShorterAdvances(plus, step, indexes);
    KeepsStack(env, a, w, fuel);
    if plus { LeavesStep(env, a, step, w, fuel); }
    OneRound(env, a, plus, w, rs, LoopFrame(indexes[0], limit), LoopFrames(indexes[1..], limit), fuel);
    match Eval(env, a, w, fuel)
    case Ends(Through, w1, f1) =>
      if f1 > 0 {
        LoopEndIs(plus, step, w1, indexes[0], limit, rs);
        var w2 := if plus then w1.(ds := w1.ds[1..]) else w1;
        if |indexes| > 1 {
          var rs1 := LoopFrame(indexes[1], limit) + rs;
          DoRounds(env, a, plus, step, w2.(rs := rs1), indexes[1..], limit, rs, f1 - 1);
          SameRounds(env, a, plus, w2, rs1, rs, LoopFrames(indexes[1..], limit), f1 - 1);
        } else {
          NoRounds(env, a, plus, w2, rs, f1 - 1);
        }
      }
    case other =>
  }

  lemma NoRounds(env: Env, a: Tree, plus: bool, w: World, rs: seq<RCell>, fuel: nat)
    ensures Rounds(env, a, plus, w, rs, [], fuel) == Ends(Through, w.(rs := rs), fuel)
  {}

  lemma ShorterAdvances(plus: bool, step: Cell, indexes: seq<Cell>)
    requires Advances(plus, step, indexes)
    ensures |indexes| > 0 && AdvancesAt(plus, step, indexes, 0)
    ensures |indexes| > 1 ==> Advances(plus, step, indexes[1..])
  {
    hide Add;
    forall k | 0 <= k < |indexes| - 1 ensures AdvancesAt(plus, step, indexes[1..], k) {
      assert AdvancesAt(plus, step, indexes, k + 1);
    }
  }

  lemma LoopEndIs(plus: bool, step: Cell, w: World, index: Cell, limit: Cell, rs: seq<RCell>)
    requires w.rs == LoopFrame(index, limit) + rs
    requires if plus then |w.ds| > 0 && w.ds[0] == step else step == 1
    ensures var next := Add(index, step);
            var w1 := if plus then w.(ds := w.ds[1..]) else w;
            LoopEnd(plus, w) ==
            Machine.Some(if Stops(plus, index, next) then (false, w1.(rs := rs))
                         else (true, w1.(rs := LoopFrame(next, limit) + rs)))
  {
    hide Add;
    assert w.rs[3..] == rs;
    assert [Num(Add(index, step))] + w.rs[1..] == LoopFrame(Add(index, step), limit) + rs;
  }

  // ----- do .. loop -----

  /** The number of rounds of do .. loop: limit - start modulo 2^64, zero meaning 2^64. */
  function LoopTrips(limit: Cell, start: Cell): (n: nat)
    ensures 0 < n <= TWO64 && Wrap(start + n) == limit
  {
    var d: int := limit as int - start as int;
    var n := if d > 0 then d else d + TWO64;
    assert Wrap(start + n) == limit by { WrapShift(limit, if d > 0 then 0 else 1); }
    n
  }

  /** The offsets from first by steps. */
  ghost function Offsets(first: int, step: int, n: nat): (c: seq<Cell>)
    ensures |c| == n && forall k :: 0 <= k < n ==> c[k] == Wrap(first + k * step)
  {
    seq(n, k requires 0 <= k < n => Wrap(first + k * step))
  }

  lemma LoopAdvances(limit: Cell, start: Cell)
    ensures Advances(false, 1, Offsets(start - limit, 1, LoopTrips(limit, start)))
  {
    hide Wrap, Add;
    var n := LoopTrips(limit, start);
    var c := Offsets(start - limit, 1, n);
    forall k | 0 <= k < n ensures AdvancesAt(false, 1, c, k) {
      WrapAdd(start - limit + k, 1);
      WrapSmall(1);
      LastOffset(limit, start, k + 1);
    }
  }

  lemma LastOffset(limit: Cell, start: Cell, k: nat)
    requires 0 < k <= LoopTrips(limit, start)
    ensures Wrap(start - limit + k) == 0 <==> k == LoopTrips(limit, start)
  {
    hide Wrap;
    var n := LoopTrips(limit, start);
    WrapZero(k - n);
    var turn := if limit > start then 0 else 1;
    WrapShift(k - n, turn);
    assert k - n + turn * TWO64 == start - limit + k;
  }

  /** do .. loop runs LoopTrips rounds, unless it is left; in round k the index i is
      start + k; and afterwards the return stack is as it was. */
  lemma LoopRunsTrips(env: Env, a: Tree, w: World, limit: Cell, start: Cell, fuel: nat)
    requires Balanced(env, a)
    requires fuel > 0 && |w.ds| > 1 && w.ds[0] == start && w.ds[1] == limit
    ensures var n := LoopTrips(limit, start);
            Eval(env, DoLoop(a, false), w, fuel) ==
            Left(Rounds(env, a, false, w.(ds := w.ds[2..]), w.rs,
                        LoopFrames(Offsets(start - limit, 1, n), limit), fuel - 1))
            && forall k {:trigger Offsets(start - limit, 1, n)[k]} :: 0 <= k < n ==>
                 Add(Offsets(start - limit, 1, n)[k], limit) == Wrap(start + k)
  {
    hide EvalDo, Wrap, Add, Rounds, LoopTrips, LoopFrames, Advances;
    var n := LoopTrips(limit, start);
    var indexes := Offsets(start - limit, 1, n);
    LoopAdvances(limit, start);
    OpenOffset(w, limit, start);
    assert indexes[0] == Wrap(start - limit);
    DoRounds(env, a, false, 1, OpenLoop(w), indexes, limit, w.rs, fuel - 1);
    SameRounds(env, a, false, w.(ds := w.ds[2..]), OpenLoop(w).rs, w.rs, LoopFrames(indexes, limit), fuel - 1);
    forall k | 0 <= k < n ensures Add(indexes[k], limit) == Wrap(start + k) {
      WrapAdd(start - limit + k, limit);
      WrapSmall(limit);
    }
  }

  lemma OpenOffset(w: World, limit: Cell, start: Cell)
    requires |w.ds| > 1 && w.ds[0] == start && w.ds[1] == limit
    ensures OpenLoop(w).rs == LoopFrame(Wrap(start - limit), limit) + w.rs
  {}

  /** In a round at offset index from limit, i is their sum; j and k are those of the loops
      around it. */
  lemma IndexWords(env: Env, w: World, a: Cell, la: Cell, b: Cell, lb: Cell, c: Cell, lc: Cell, rs: seq<RCell>)
    ensures w.rs == LoopFrame(a, la) + rs ==>
              Simple(env, Machine.LoopI, w) == Machine.Some(w.(ds := [Add(a, la)] + w.ds))
    ensures w.rs == LoopFrame(a, la) + LoopFrame(b, lb) + rs ==>
              Simple(env, Machine.LoopJ, w) == Machine.Some(w.(ds := [Add(b, lb)] + w.ds))
    ensures w.rs == LoopFrame(a, la) + LoopFrame(b, lb) + LoopFrame(c, lc) + rs ==>
              Simple(env, Machine.LoopK, w) == Machine.Some(w.(ds := [Add(c, lc)] + w.ds))
  {
    hide Add;
  }

  // ----- do .. +loop with a constant step -----

  /** The number of rounds from the given offset with the given step: until adding the
      step changes the sign of the offset. Upwards from below the limit that is the
      distance divided by the step, rounded up; downwards from the limit or above,
      rounded down plus one. From the other side the offset runs to the end of the
      64-bit range first. */
  function PlusTrips(index: Cell, step: Cell): (n: nat)
    requires step != 0
  {
    var i: int, s: int := index, step;
    if s > 0 then ((if i < 0 then 0 else TWO63) - i + s - 1) / s
    else (i - (if i < 0 then -TWO63 else 0)) / -s + 1
  }

  /** Before the last round the offset keeps its sign, and the last round changes it. */
  lemma PlusCrossing(index: Cell, step: Cell, k: nat)
    requires step != 0 && 0 < k <= PlusTrips(index, step)
    ensures var before, after := index + (k - 1) * step, index + k * step;
            after == before + step && -TWO63 <= before < TWO63 && (before < 0 <==> index < 0)
            && (k < PlusTrips(index, step) ==> -TWO63 <= after < TWO63 && (after < 0 <==> index < 0))
            && (k == PlusTrips(index, step) ==> -TWO64 <= after < TWO64 && (Wrap(after) < 0 <==> !(index < 0)))
  {
    var n := PlusTrips(index, step);
    NextMultiple(k, step);
    if step > 0 { UpCrossing(index, step, k); } else { DownCrossing(index, step, k); }
  }

  lemma NextMultiple(k: int, s: int)
    ensures k * s == (k - 1) * s + s
  {}

  lemma UpCrossing(i: Cell, s: Cell, k: nat)
    requires s > 0 && 0 < k <= PlusTrips(i, s)
    ensures var before := i + (k - 1) * s;
            var bound := if i < 0 then 0 else TWO63;
            i <= before < bound && (before + s >= bound <==> k == PlusTrips(i, s))
  {
    var n, d := PlusTrips(i, s), (if i < 0 then 0 else TWO63) - i;
    Ceiling(d, s);
    Scaled(0, k - 1, s);
    Scaled(k - 1, n - 1, s);
    NextMultiple(k, s);
    if k < n { Scaled(k, n - 1, s); }
  }

  lemma DownCrossing(i: Cell, s: Cell, k: nat)
    requires s < 0 && 0 < k <= PlusTrips(i, s)
    ensures var before := i + (k - 1) * s;
            var bound := if i < 0 then -TWO63 else 0;
            bound <= before <= i && (before + s < bound <==> k == PlusTrips(i, s))
  {
    var t: int := -(s as int);
    var n, d := PlusTrips(i, s), i - (if i < 0 then -TWO63 else 0);
    Floor(d, t);
    Scaled(0, k - 1, t);
    Scaled(k - 1, n - 1, t);
    NextMultiple(k, t);
    assert (k - 1) * t == -((k - 1) * s);
    if k < n { Scaled(k, n - 1, t); }
  }

  lemma Ceiling(d: int, s: int)
    requires d > 0 && s > 0
    ensures var n := (d + s - 1) / s; n > 0 && (n - 1) * s < d <= (n - 1) * s + s
  {
    var n := (d + s - 1) / s;
    assert d + s - 1 == n * s + (d + s - 1) % s;
    assert n * s == (n - 1) * s + s;
  }

  lemma Floor(d: int, s: int)
    requires d >= 0 && s > 0
    ensures var n := d / s + 1; n > 0 && (n - 1) * s <= d < (n - 1) * s + s
  {
    assert d == (d / s) * s + d % s;
  }

  lemma Scaled(k: int, m: int, s: int)
    requires s > 0
    ensures k <= m ==> k * s <= m * s
    ensures k > m ==> k * s >= m * s + s
  {
    if k > m {
      Product(k - m, s);
      assert k * s == m * s + (k - m) * s;
    } else {
      Product(m - k, s);
      assert m * s == k * s + (m - k) * s;
    }
  }

  lemma Product(x: int, s: int)
    requires x >= 0 && s > 0
    ensures x * s >= 0 && (x > 0 ==> x * s >= s)
  {
    if x > 0 { assert x * s == (x - 1) * s + s; }
  }

  lemma PlusAdvances(index: Cell, step: Cell)
    requires step != 0
    ensures PlusTrips(index, step) > 0
    ensures Advances(true, step, Offsets(index, step, PlusTrips(index, step)))
  {
    hide Wrap, Add, PlusTrips;
    var n := PlusTrips(index, step);
    PositiveTrips(index, step);
    var c := Offsets(index, step, n);
    forall k | 0 <= k < n ensures AdvancesAt(true, step, c, k) {
      PlusCrossing(index, step, k + 1);
      WrapAdd(index + k * step, step);
      WrapSmall(step);
      WrapSmall(index + k * step);
      WrapSmall(index + (k + 1) * step);
    }
  }

  lemma PositiveTrips(index: Cell, step: Cell)
    requires step != 0
    ensures PlusTrips(index, step) > 0
  {
    var i: int, s: int := index, step;
    if s > 0 { Ceiling((if i < 0 then 0 else TWO63) - i, s); }
  }

  /** do .. +loop with a constant step runs PlusTrips rounds, unless it is left; in round k
      the index i is start + k * step; and afterwards the return stack is as it was. */
  lemma PlusLoopRunsTrips(env: Env, a: Tree, w: World, limit: Cell, start: Cell, step: Cell, fuel: nat)
    requires Balanced(env, a) && Increments(env, a, step) && step != 0
    requires fuel > 0 && |w.ds| > 1 && w.ds[0] == start && w.ds[1] == limit
    ensures var index := Sub(start, limit);
            var indexes := Offsets(index, step, PlusTrips(index, step));
            Eval(env, DoLoop(a, true), w, fuel) ==
            Left(Rounds(env, a, true, w.(ds := w.ds[2..]), w.rs, LoopFrames(indexes, limit), fuel - 1))
            && forall k {:trigger indexes[k]} :: 0 <= k < |indexes| ==> Add(indexes[k], limit) == Wrap(start + k * step)
  {
    hide EvalDo, Wrap, Add, PlusTrips, LoopFrames, Rounds, Advances;
    var index := Sub(start, limit);
    var indexes := Offsets(index, step, PlusTrips(index, step));
    PlusAdvances(index, step);
    OpenOffset(w, limit, start);
    assert indexes[0] == index by { WrapSmall(index); assert index + 0 * step == index; }
    DoRounds(env, a, true, step, OpenLoop(w), indexes, limit, w.rs, fuel - 1);
    SameRounds(env, a, true, w.(ds := w.ds[2..]), OpenLoop(w).rs, w.rs, LoopFrames(indexes, limit), fuel - 1);
    forall k | 0 <= k < |indexes| ensures Add(indexes[k], limit) == Wrap(start + k * step) {
      IndexIs(limit, start, k * step);
    }
  }

  lemma IndexIs(limit: Cell, start: Cell, way: int)
    ensures Add(Wrap(Sub(start, limit) + way), limit) == Wrap(start + way)
  {
    hide Wrap, Add, Sub;
    WrapSmall(limit);
    WrapSmall(start);
    WrapAdd(start, limit);
    WrapAdd(Sub(start, limit) + way, limit);
    var d: int := start as int - limit as int;
    var turns := DistanceTurns(start, limit);
    WrapShift(start + way, turns);
    assert Sub(start, limit) + way + limit == start + way + turns * TWO64;
  }

  function DistanceTurns(start: Cell, limit: Cell): (k: int)
    ensures Sub(start, limit) as int == start as int - limit as int + k * TWO64
  {
    DistanceIs(start, limit);
    var d: int := start as int - limit as int;
    if d < -TWO63 then 1 else if d >= TWO63 then -1 else 0
  }

  /** With step zero the loop never ends by itself: the offset keeps its sign. */
  lemma ZeroStepNeverStops(index: Cell)
    ensures !Stops(true, index, Add(index, 0))
  {}

  /** Counting up from below the limit, the rounds are the distance divided by the step,
      rounded up, if and only if the distance is at most 2^63. */
  lemma PlusTripsUp(limit: Cell, start: Cell, step: Cell)
    requires start < limit && step > 0
    ensures var d: int := limit as int - start as int;
            PlusTrips(Sub(start, limit), step) == (d + step - 1) / step <==> d <= TWO63
  {
    hide PlusTrips;
    var d: int := limit as int - start as int;
    DistanceIs(start, limit);
    if d <= TWO63 {
      TripsFrom(-d, step);
    } else {
      TripsFrom(TWO64 - d, step);
      CeilingApart(d - TWO63, step, TWO63);
    }
  }

  /** Counting down from the limit or above, they are the distance divided by the step,
      rounded down, plus one, if and only if the distance is less than 2^63. */
  lemma PlusTripsDown(limit: Cell, start: Cell, step: Cell)
    requires start >= limit && step < 0
    ensures var d: int := start as int - limit as int;
            PlusTrips(Sub(start, limit), step) == d / -(step as int) + 1 <==> d < TWO63
  {
    hide PlusTrips;
    var d: int := start as int - limit as int;
    DistanceIs(start, limit);
    if d < TWO63 {
      TripsFrom(d, step);
    } else {
      TripsFrom(d - TWO64, step);
      FloorApart(d - TWO63, -(step as int), TWO63);
    }
  }

  lemma DistanceIs(start: Cell, limit: Cell)
    ensures var d: int := start as int - limit as int;
            Sub(start, limit) as int == if d < -TWO63 then d + TWO64 else if d >= TWO63 then d - TWO64 else d
  {}

  lemma TripsFrom(i: Cell, step: Cell)
    requires step != 0
    ensures var s: int := step;
            PlusTrips(i, step) ==
            if s > 0 then ((if i < 0 then 0 else TWO63) - i + s - 1) / s
            else (i - (if i < 0 then -TWO63 else 0)) / -s + 1
  {}

  lemma CeilingApart(d: int, s: int, more: int)
    requires d > 0 && 0 < s <= more
    ensures (d + s - 1) / s < (d + more + s - 1) / s
  {
    FloorApart(d + s - 1, s, more);
  }

  lemma FloorApart(d: int, s: int, more: int)
    requires d >= 0 && 0 < s <= more
    ensures d / s < (d + more) / s
  {
    Floor(d, s);
    Floor(d + more, s);
    var m, n := d / s, (d + more) / s;
    if n <= m { Scaled(n, m, s); }
  }
}
