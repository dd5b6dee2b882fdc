/** The shift registers of src/lfsr.c. */
module Lfsr {
  import opened Words

  datatype Register = Galois | GaloisTwo | Fibonacci | Galois64

  function Width(r: Register): nat { if r == Galois64 then 64 else 32 }

  /** The bits that (1U << 31) | (1 << 21) | 3 and its like set. */
  function Mask(r: Register): (m: Bits)
    requires r != Fibonacci
    ensures |m| == Width(r) && m[Width(r) - 1]
  {
    match r
    case Galois => seq(32, i => i == 31 || i == 21 || i == 1 || i == 0)
    case GaloisTwo => seq(32, i => i == 31 || i == 29 || i == 25 || i == 24)
    case Galois64 => seq(64, i => i == 63 || i == 62 || i == 60 || i == 59)
  }

  predicate State(r: Register, w: Bits) { |w| == Width(r) }

  /** One step: (bits >> 1) ^ (-(bits & 1) & mask), or for Fibonacci a shift to the left
      that brings in the xor of four taps. */
  function Step(r: Register, w: Bits): (v: Bits)
    requires State(r, w)
    ensures State(r, v)
  {
    if r == Fibonacci then
      var bit := (((w[31] != w[21]) != w[1]) != w[0]);
      [bit] + w[..31]
    else GaloisStep(w, Mask(r))
  }

  function GaloisStep(w: Bits, mask: Bits): (v: Bits)
    requires |w| == |mask| > 0
    ensures |v| == |w|
  {
    if w[0] then Xor(Right(w, 1), mask) else Right(w, 1)
  }

  function Zero(r: Register): (z: Bits)
    ensures State(r, z)
  {
    seq(Width(r), i => false)
  }

  function Ones(r: Register): Bits { seq(Width(r), i => true) }

  /** The step undone. */
  function Back(r: Register, v: Bits): (w: Bits)
    requires State(r, v)
    ensures State(r, w)
  {
    if r == Fibonacci then v[1..] + [((v[0] != v[22]) != v[2]) != v[1]]
    else GaloisUndo(v, Mask(r))
  }

  function GaloisUndo(v: Bits, mask: Bits): (w: Bits)
    requires |v| == |mask| > 0
    ensures |w| == |v|
  {
    var top := v[|v| - 1];
    [top] + (if top then Xor(v, mask) else v)[..|v| - 1]
  }

  lemma FibonacciBack(w: Bits)
    requires |w| == 32
    ensures Back(Fibonacci, Step(Fibonacci, w)) == w && Step(Fibonacci, Back(Fibonacci, w)) == w
  {
    var v, b := Step(Fibonacci, w), Back(Fibonacci, w);
    assert v[1..] == w[..31];
    assert Back(Fibonacci, v)[31] == w[31];
    assert Step(Fibonacci, b)[0] == w[0];
  }

  lemma XorTwice(a: Bits, m: Bits)
    requires |a| == |m|
    ensures Xor(Xor(a, m), m) == a
  {}

  lemma GaloisBack(w: Bits, m: Bits)
    requires |w| == |m| > 0 && m[|m| - 1]
    ensures GaloisUndo(GaloisStep(w, m), m) == w
  {
    XorTwice(Right(w, 1), m);
    assert GaloisStep(w, m)[|w| - 1] == w[0];
    assert [w[0]] + Right(w, 1)[..|w| - 1] == w;
  }

  lemma GaloisForth(v: Bits, m: Bits)
    requires |v| == |m| > 0 && m[|m| - 1]
    ensures GaloisStep(GaloisUndo(v, m), m) == v
  {
    XorTwice(v, m);
    var top := v[|v| - 1];
    var u := if top then Xor(v, m) else v;
    assert !u[|u| - 1];
    assert Right([top] + u[..|u| - 1], 1) == u;
  }

  lemma StepIsGalois(r: Register, w: Bits)
    requires State(r, w) && r != Fibonacci
    ensures Step(r, w) == GaloisStep(w, Mask(r)) && Back(r, w) == GaloisUndo(w, Mask(r))
  {
    hide GaloisStep, GaloisUndo;
  }

  /** A step is a bijection on the states. */
  lemma StepIsBijection(r: Register, w: Bits)
    requires State(r, w)
    ensures Back(r, Step(r, w)) == w && Step(r, Back(r, w)) == w
  {
    hide Step, Back, GaloisStep, GaloisUndo, Mask;
    if r == Fibonacci { FibonacciBack(w); } else {
      StepIsGalois(r, w);
      StepIsGalois(r, Step(r, w));
      StepIsGalois(r, Back(r, w));
      GaloisBack(w, Mask(r));
      GaloisForth(w, Mask(r));
    }
  }

  /** Zero stays zero, and nothing else gets there. */
  lemma OnlyZeroToZero(r: Register, w: Bits)
    requires State(r, w)
    ensures Step(r, w) == Zero(r) <==> w == Zero(r)
  {
    ZeroStays(r);
    StepIsBijection(r, w);
    StepIsBijection(r, Zero(r));
  }

  lemma ZeroStays(r: Register)
    ensures Step(r, Zero(r)) == Zero(r)
  {
    var z, n := Zero(r), Width(r);
    forall i | 0 <= i < n ensures Step(r, z)[i] == z[i] {}
  }

  function Steps(r: Register, w: Bits, n: nat): (v: Bits)
    requires State(r, w)
    ensures State(r, v)
  {
    if n == 0 then w else Step(r, Steps(r, w, n - 1))
  }

  /** n steps after m steps are m + n steps. */
  lemma {:induction false} StepsJoin(r: Register, w: Bits, m: nat, n: nat)
    requires State(r, w)
    ensures Steps(r, Steps(r, w, m), n) == Steps(r, w, m + n)
  {
    hide Step;
    if n > 0 { StepsJoin(r, w, m, n - 1); }
  }

  lemma {:induction false} StepsInjective(r: Register, w: Bits, v: Bits, n: nat)
    requires State(r, w) && State(r, v) && Steps(r, w, n) == Steps(r, v, n)
    ensures w == v
  {
    hide Step;
    if n > 0 {
      StepIsBijection(r, Steps(r, w, n - 1));
      StepIsBijection(r, Steps(r, v, n - 1));
      StepsInjective(r, w, v, n - 1);
    }
  }

  lemma {:induction false} StepsNotZero(r: Register, w: Bits, n: nat)
    requires State(r, w) && w != Zero(r)
    ensures Steps(r, w, n) != Zero(r)
  {
    hide Step;
    if n > 0 {
      StepsNotZero(r, w, n - 1);
      OnlyZeroToZero(r, Steps(r, w, n - 1));
    }
  }

  // ----- the taps, as recurrences on the bits that come out -----

  /** The lowest bit after n steps. */
  predicate Out(r: Register, w: Bits, n: nat)
    requires State(r, w)
  {
    Steps(r, w, n)[0]
  }

  /** How bit i moves in one step: down by one, with the lowest bit added in at the taps. */
  lemma GaloisMoves(r: Register, w: Bits, n: nat, i: nat)
    requires State(r, w) && r != Fibonacci && i < Width(r)
    ensures Steps(r, w, n + 1)[i] == ((i + 1 < Width(r) && Steps(r, w, n)[i + 1]) != (Mask(r)[i] && Out(r, w, n)))
  {
    hide Mask;
    StepIsGalois(r, Steps(r, w, n));
  }

  /** Where there are no taps the bits move down unchanged. */
  lemma {:induction false} GaloisSlides(r: Register, w: Bits, n: nat, i: nat, k: nat)
    requires State(r, w) && r != Fibonacci && i + k < Width(r)
    requires forall j :: i <= j < i + k ==> !Mask(r)[j]
    ensures Steps(r, w, n + k)[i] == Steps(r, w, n)[i + k]
    decreases k
  {
    hide Mask, Steps;
    if k > 0 {
      GaloisMoves(r, w, n + k - 1, i);
      GaloisSlides(r, w, n, i + 1, k - 1);
    }
  }

  /** mu_lfsr_gal, with taps at 32, 22, 2 and 1. */
  lemma GaloisRecurs(w: Bits, n: nat)
    requires |w| == 32
    ensures Out(Galois, w, n + 32) ==
            (((Out(Galois, w, n) != Out(Galois, w, n + 10)) != Out(Galois, w, n + 30)) != Out(Galois, w, n + 31))
  {
    hide Steps;
    GaloisMoves(Galois, w, n + 31, 0);
    GaloisMoves(Galois, w, n + 30, 1);
    GaloisSlides(Galois, w, n + 11, 2, 19);
    GaloisMoves(Galois, w, n + 10, 21);
    GaloisSlides(Galois, w, n + 1, 22, 9);
    GaloisMoves(Galois, w, n, 31);
  }

  /** mu_lfsr_gal_two, with taps at 32, 30, 26 and 25. */
  lemma GaloisTwoRecurs(w: Bits, n: nat)
    requires |w| == 32
    ensures Out(GaloisTwo, w, n + 32) ==
            (((Out(GaloisTwo, w, n) != Out(GaloisTwo, w, n + 2)) != Out(GaloisTwo, w, n + 6))
             != Out(GaloisTwo, w, n + 7))
  {
    hide Steps;
    GaloisSlides(GaloisTwo, w, n + 8, 0, 24);
    GaloisMoves(GaloisTwo, w, n + 7, 24);
    GaloisMoves(GaloisTwo, w, n + 6, 25);
    GaloisSlides(GaloisTwo, w, n + 3, 26, 3);
    GaloisMoves(GaloisTwo, w, n + 2, 29);
    GaloisSlides(GaloisTwo, w, n + 1, 30, 1);
    GaloisMoves(GaloisTwo, w, n, 31);
  }

  /** mu_lfsr_gal64, with taps at 64, 63, 61 and 60. */
  lemma Galois64Recurs(w: Bits, n: nat)
    requires |w| == 64
    ensures Out(Galois64, w, n + 64) ==
            (((Out(Galois64, w, n) != Out(Galois64, w, n + 1)) != Out(Galois64, w, n + 3)) != Out(Galois64, w, n + 4))
  {
    hide Steps;
    GaloisSlides(Galois64, w, n + 5, 0, 59);
    GaloisMoves(Galois64, w, n + 4, 59);
    GaloisMoves(Galois64, w, n + 3, 60);
    GaloisSlides(Galois64, w, n + 2, 61, 1);
    GaloisMoves(Galois64, w, n + 1, 62);
    GaloisMoves(Galois64, w, n, 63);
  }

  /** The Fibonacci register remembers what came out of it. */
  lemma {:induction false} FibonacciKeeps(w: Bits, n: nat, i: nat)
    requires |w| == 32 && i < 32
    ensures Steps(Fibonacci, w, n + i)[i] == Out(Fibonacci, w, n)
    decreases i
  {
    if i > 0 {
      FibonacciKeeps(w, n, i - 1);
      assert Steps(Fibonacci, w, n + i)[i] == Steps(Fibonacci, w, n + i - 1)[i - 1];
    }
  }

  /** mu_lfsr_fib obeys the recurrence of mu_lfsr_gal: the two have the same taps. */
  lemma FibonacciRecurs(w: Bits, n: nat)
    requires |w| == 32
    ensures Out(Fibonacci, w, n + 32) ==
            (((Out(Fibonacci, w, n) != Out(Fibonacci, w, n + 10)) != Out(Fibonacci, w, n + 30))
             != Out(Fibonacci, w, n + 31))
  {
    hide Steps, Step;
    FibonacciKeeps(w, n, 31);
    FibonacciKeeps(w, n + 10, 21);
    FibonacciKeeps(w, n + 30, 1);
    FibonacciBit(w, n + 31);
  }

  lemma FibonacciBit(w: Bits, n: nat)
    requires |w| == 32
    ensures var v := Steps(Fibonacci, w, n);
            Out(Fibonacci, w, n + 1) == (((v[31] != v[21]) != v[1]) != v[0])
  {}

  // ----- the counted generators -----

  /** lfsr-gal and the others  ( oldbits #bits - newbits)  The cell is cut down to the
      width of the register. */
  method Generate(r: Register, seed: WideCell, count: nat) returns (bits: Bits)
    ensures bits == Fit(Steps(r, Fit(seed, Width(r)), count), 64)
  {
    var w := Fit(seed, Width(r));
    var left: nat := count;
    while left > 0
      invariant left <= count && State(r, w) && w == Steps(r, Fit(seed, Width(r)), count - left)
    {
      left := left - 1;
      w := Step(r, w);
    }
    bits := Fit(w, 64);
  }

  /** Generating n bits and then m is generating m + n. */
  lemma GenerateJoins(r: Register, seed: WideCell, m: nat, n: nat)
    ensures var w := Fit(seed, Width(r));
            Steps(r, Fit(Fit(Steps(r, w, m), 64), Width(r)), n) == Steps(r, w, m + n)
  {
    var v := Steps(r, Fit(seed, Width(r)), m);
    assert Fit(Fit(v, 64), Width(r)) == v;
    StepsJoin(r, Fit(seed, Width(r)), m, n);
  }

  // ----- all words of a width, to count them -----

  function All(n: nat): set<Bits>
  {
    if n == 0 then {[]} else With(true, All(n - 1)) + With(false, All(n - 1))
  }

  function With(b: bool, s: set<Bits>): set<Bits> { set w | w in s :: [b] + w }

  lemma {:induction false} AllHas(n: nat, w: Bits)
    requires |w| == n
    ensures w in All(n)
  {
    if n > 0 {
      AllHas(n - 1, w[1..]);
      assert w == [w[0]] + w[1..];
      assert w in With(w[0], All(n - 1));
    }
  }

  lemma WithApart(b: bool, s: set<Bits>, w: Bits)
    requires w !in s
    ensures [b] + w !in With(b, s)
  {
    forall v | v in s ensures [b] + v != [b] + w { assert ([b] + v)[1..] == v && ([b] + w)[1..] == w; }
  }

  lemma {:induction false} WithSize(b: bool, s: set<Bits>)
    ensures |With(b, s)| == |s|
    decreases |s|
  {
    if s == {} {
      assert With(b, s) == {};
    } else {
      var w :| w in s;
      WithSize(b, s - {w});
      assert [b] + w !in With(b, s - {w}) by { WithApart(b, s - {w}, w); }
      assert With(b, s) == With(b, s - {w}) + {[b] + w};
    }
  }

  function Power2(n: nat): nat { if n == 0 then 1 else 2 * Power2(n - 1) }

  lemma {:induction false} AllSize(n: nat)
    ensures |All(n)| == Power2(n)
  {
    if n > 0 {
      AllSize(n - 1);
      WithSize(true, All(n - 1));
      WithSize(false, All(n - 1));
      var t, f := With(true, All(n - 1)), With(false, All(n - 1));
      assert t !! f by {
        forall w | w in t ensures w !in f { assert w[0]; }
      }
      assert |t + f| == |t| + |f|;
    }
  }

  // ----- the period loops -----

  /** The first n states after w. */
  function Orbit(r: Register, w: Bits, n: nat): set<Bits>
    requires State(r, w)
  {
    if n == 0 then {} else Orbit(r, w, n - 1) + {Steps(r, w, n)}
  }

  lemma {:induction false} OrbitHas(r: Register, w: Bits, n: nat, v: Bits)
    requires State(r, w) && v in Orbit(r, w, n)
    ensures State(r, v) && exists k :: 1 <= k <= n && Steps(r, w, k) == v
  {
    hide Step, Steps;
    if v == Steps(r, w, n) {} else { OrbitHas(r, w, n - 1, v); }
  }

  /** As long as the start has not come back, every state is new. */
  lemma NewState(r: Register, w: Bits, n: nat)
    requires State(r, w) && forall k :: 1 <= k <= n ==> Steps(r, w, k) != w
    ensures Steps(r, w, n + 1) !in Orbit(r, w, n)
  {
    hide Step, Steps;
    var v := Steps(r, w, n + 1);
    if v in Orbit(r, w, n) {
      OrbitHas(r, w, n, v);
      var k :| 1 <= k <= n && Steps(r, w, k) == v;
      StepsJoin(r, w, n + 1 - k, k);
      StepsInjective(r, w, Steps(r, w, n + 1 - k), k);
    }
  }

  lemma {:induction false} OrbitSize(r: Register, w: Bits, n: nat)
    requires State(r, w) && w != Zero(r) && forall k :: 1 <= k < n ==> Steps(r, w, k) != w
    ensures |Orbit(r, w, n)| == n <= Power2(Width(r)) - 1
  {
    hide Step, Steps, All, Power2, Zero;
    if n > 0 {
      OrbitSize(r, w, n - 1);
      NewState(r, w, n - 1);
    }
    OrbitInside(r, w, n);
    AllSize(Width(r));
    AllHas(Width(r), Zero(r));
    SubsetSize(Orbit(r, w, n), All(Width(r)) - {Zero(r)});
  }

  lemma OrbitInside(r: Register, w: Bits, n: nat)
    requires State(r, w) && w != Zero(r)
    ensures Orbit(r, w, n) <= All(Width(r)) - {Zero(r)}
  {
    hide Step, Steps, Orbit;
    forall v | v in Orbit(r, w, n) ensures v in All(Width(r)) - {Zero(r)} {
      OrbitHas(r, w, n, v);
      var k :| 1 <= k <= n && Steps(r, w, k) == v;
      StepsNotZero(r, w, k);
      AllHas(Width(r), v);
    }
  }

  lemma {:induction false} SubsetSize(a: set<Bits>, b: set<Bits>)
    requires a <= b
    ensures |a| <= |b|
    decreases |a|
  {
    if a != {} {
      var x :| x in a;
      SubsetSize(a - {x}, b - {x});
    }
  }

  /** mu_lfsr_gal_length and the others: the loop ends, because a bijection on finitely many
      states comes back to where it started, and counts the least period of all ones. */
  method Length(r: Register) returns (count: nat)
    requires r != Galois64
    ensures 1 <= count < Power2(32)
    ensures Steps(r, Ones(r), count) == Ones(r)
    ensures forall k :: 1 <= k < count ==> Steps(r, Ones(r), k) != Ones(r)
  {
    hide Step, Power2, Orbit;
    var start := Ones(r);
    assert start != Zero(r) by { assert start[0] && !Zero(r)[0]; }
    var bits := start;
    count := 0;
    OrbitSize(r, start, count);
    while true
      invariant State(r, bits) && bits == Steps(r, start, count) && count < Power2(32)
      invariant forall k :: 1 <= k <= count ==> Steps(r, start, k) != start
      decreases Power2(32) - count
    {
      count := count + 1;
      bits := Step(r, bits);
      OrbitSize(r, start, count);
      if bits == start { break; }
    }
  }
}
