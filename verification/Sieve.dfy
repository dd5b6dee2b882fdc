/** The bit-packed sieve of mu/lib/sieve.mu4. Bit i of the table stands for the odd number
    2i + 3. */
module Sieve {
  import opened Words

  // ----- primes -----

  predicate Times(n: nat, q: nat, d: nat) { n == q * d }

  ghost predicate Divides(d: nat, n: nat) { exists q: nat :: Times(n, q, d) }

  ghost predicate Prime(n: nat) { n >= 2 && forall d: nat :: 2 <= d < n ==> !Divides(d, n) }

  lemma {:induction false} PrimeDivisor(n: nat) returns (p: nat)
    requires n >= 2
    ensures Prime(p) && Divides(p, n) && p <= n && (!Prime(n) ==> p < n)
  {
    if Prime(n) {
      p := n;
      assert Times(n, 1, n);
    } else {
      var d: nat :| 2 <= d < n && Divides(d, n);
      p := PrimeDivisor(d);
      DividesTrans(p, d, n);
    }
  }

  lemma DividesTrans(a: nat, b: nat, c: nat)
    requires Divides(a, b) && Divides(b, c)
    ensures Divides(a, c)
  {
    var x: nat :| Times(b, x, a);
    var y: nat :| Times(c, y, b);
    assert y * (x * a) == (y * x) * a;
    assert Times(c, y * x, a);
  }

  function Odd(i: nat): nat { 2 * i + 3 }

  /** j is reached from i in steps of the i-th odd number exactly when that number divides
      the j-th. */
  lemma StepsToMultiple(i: nat, j: nat)
    requires i <= j
    ensures Divides(Odd(i), j - i) <==> Divides(Odd(i), Odd(j))
  {
    var p := Odd(i);
    if Divides(p, j - i) {
      var q: nat :| Times(j - i, q, p);
      assert (2 * q + 1) * p == 2 * (q * p) + p;
      assert Times(Odd(j), 2 * q + 1, p);
    }
    if Divides(p, Odd(j)) {
      var q: nat :| Times(Odd(j), q, p);
      var h := HalfOf(i, j, q);
      assert Times(j - i, h, p);
    }
  }

  /** An odd number divided by an odd number is odd. */
  lemma HalfOf(i: nat, j: nat, q: nat) returns (h: nat)
    requires i <= j && Odd(j) == q * Odd(i)
    ensures j - i == h * Odd(i)
  {
    var p := Odd(i);
    h := q / 2;
    assert (2 * h) * p == 2 * (h * p);
    if q != 2 * h {
      assert q == 2 * h + 1;
      assert (2 * h + 1) * p == (2 * h) * p + p;
    }
  }

  lemma DivisorBound(d: nat, n: nat)
    requires Divides(d, n) && n > 0
    ensures 1 <= d <= n
  {
    var q: nat :| Times(n, q, d);
    ProductBound(q, d);
  }

  lemma ProductBound(q: nat, d: nat)
    requires q * d > 0
    ensures q * d >= d > 0
  {
    assert q > 0 && d > 0;
    assert q * d == (q - 1) * d + d;
    assert (q - 1) * d >= 0;
  }

  /** The odd primes among the first n odd numbers from 3 on. */
  ghost function OddPrimes(n: nat): seq<nat>
  {
    if n == 0 then [] else OddPrimes(n - 1) + if Prime(Odd(n - 1)) then [Odd(n - 1)] else []
  }

  /** They are all the odd primes up to 2n + 1, in order. */
  lemma {:induction false} OddPrimesAre(n: nat)
    ensures forall x: nat :: x in OddPrimes(n) <==> Prime(x) && x % 2 == 1 && x <= 2 * n + 1
    ensures forall i, j :: 0 <= i < j < |OddPrimes(n)| ==> OddPrimes(n)[i] < OddPrimes(n)[j]
  {
    hide Prime;
    if n > 0 {
      OddPrimesAre(n - 1);
      forall x: nat ensures x in OddPrimes(n) <==> Prime(x) && x % 2 == 1 && x <= 2 * n + 1 {
        if x == 2 * n + 1 { assert x == Odd(n - 1); }
      }
      forall i, j | 0 <= i < j < |OddPrimes(n)| ensures OddPrimes(n)[i] < OddPrimes(n)[j] {
        if j == |OddPrimes(n)| - 1 && Prime(Odd(n - 1)) { assert OddPrimes(n - 1)[i] in OddPrimes(n - 1); }
      }
    } else {
      forall x: nat ensures x in OddPrimes(n) <==> Prime(x) && x % 2 == 1 && x <= 2 * n + 1 {
        if x <= 1 { NotPrime1(x); }
      }
    }
  }

  lemma NotPrime1(x: nat)
    requires x <= 1
    ensures !Prime(x)
  {}

  // ----- the table -----

  type Table = seq<Octet>

  /** seen?  of a whole table. */
  predicate Seen(t: Table, i: nat)
    requires i < 8 * |t|
  {
    t[i / 8][i % 8]
  }

  /** One of the first n odd numbers that are prime divides the j-th. */
  ghost predicate Struck(n: nat, j: nat) { exists i: nat :: i < n && Prime(Odd(i)) && Divides(Odd(i), Odd(j)) }

  /** When all smaller primes have been struck out, what is not struck is prime. */
  lemma NotStruckIsPrime(i: nat)
    ensures Struck(i, i) <==> !Prime(Odd(i))
  {
    hide Divides;
    if Struck(i, i) {
      var k: nat :| k < i && Prime(Odd(k)) && Divides(Odd(k), Odd(i));
      PrimeHasNoDivisor(Odd(i), Odd(k));
    }
    if !Prime(Odd(i)) {
      var p := PrimeDivisor(Odd(i));
      OddDivisor(i, p);
      var k := (p - 3) / 2;
      assert Odd(k) == p && k < i;
    }
  }

  lemma PrimeHasNoDivisor(n: nat, d: nat)
    requires 2 <= d < n && Divides(d, n)
    ensures !Prime(n)
  {}

  /** A prime divisor of an odd number is odd. */
  lemma OddDivisor(i: nat, p: nat)
    requires Prime(p) && Divides(p, Odd(i))
    ensures p % 2 == 1 && p >= 3
  {
    var h: nat := p / 2;
    var q: nat :| Times(Odd(i), q, p);
    EvenProduct(q, h);
  }

  lemma EvenProduct(q: nat, h: nat)
    ensures q * (2 * h) == 2 * (q * h)
  {}

  lemma StruckNext(n: nat, j: nat)
    ensures Struck(n + 1, j) <==> Struck(n, j) || (Prime(Odd(n)) && Divides(Odd(n), Odd(j)))
  {
    hide Prime, Divides;
    if Struck(n + 1, j) {
      var i: nat :| i < n + 1 && Prime(Odd(i)) && Divides(Odd(i), Odd(j));
      assert i == n || i < n;
    }
    if Struck(n, j) {
      var i: nat :| i < n && Prime(Odd(i)) && Divides(Odd(i), Odd(j));
      assert i < n + 1;
    }
  }

  lemma BelowNotDivided(i: nat, j: nat)
    requires j < i
    ensures !Divides(Odd(i), Odd(j))
  {
    if Divides(Odd(i), Odd(j)) { DivisorBound(Odd(i), Odd(j)); }
  }

  /** sieve has marked, of the multiples of Odd(i), those below k. */
  ghost predicate Marked(t: Table, was: Table, i: nat, k: nat)
    requires |t| == |was|
  {
    forall j: nat :: j < 8 * |t| ==> MarkedAt(t, was, i, k, j)
  }

  ghost predicate MarkedAt(t: Table, was: Table, i: nat, k: nat, j: nat)
    requires |t| == |was| && j < 8 * |t|
  {
    Seen(t, j) == (Seen(was, j) || (i <= j < k && Divides(Odd(i), Odd(j))))
  }

  ghost predicate AllStruck(t: Table, n: nat, size: nat)
    requires size <= 8 * |t|
  {
    forall j: nat :: j < size ==> StruckAt(t, n, j)
  }

  ghost predicate StruckAt(t: Table, n: nat, j: nat)
    requires j < 8 * |t|
  {
    Seen(t, j) == Struck(n, j)
  }

  class Sifter {
    const nodds: nat
    var bits: array<Octet>
    var printed: seq<nat>

    /** The buffer is all zeros when it is allotted. */
    constructor (nodds: nat)
      ensures this.nodds == nodds && Ok() && fresh(bits) && printed == []
      ensures forall j: nat :: j < nodds ==> !Seen(bits[..], j)
    {
      this.nodds := nodds;
      printed := [];
      bits := new Octet[(nodds + 7) / 8](i => [false, false, false, false, false, false, false, false]);
    }

    ghost predicate Ok()
      reads this
    {
      nodds <= 8 * bits.Length
    }

    /** seen */
    method Mark(i: nat)
      requires Ok() && i < nodds
      modifies bits
      ensures forall j: nat :: j < 8 * bits.Length ==> Seen(bits[..], j) == (j == i || Seen(old(bits[..]), j))
    {
      var byte, bit := i / 8, i % 8;
      bits[byte] := bits[byte][bit := true];
    }

    /** seen? */
    method IsSeen(i: nat) returns (b: bool)
      requires Ok() && i < nodds
      ensures b == Seen(bits[..], i)
    {
      b := bits[i / 8][i % 8];
    }

    /** sieve  ( i prime)  Mark i and every prime-th after it. */
    method Strike(i: nat)
      requires Ok() && i < nodds
      modifies bits
      ensures forall j: nat :: j < nodds ==> MarkedAt(bits[..], old(bits[..]), i, nodds, j)
    {
      hide Seen, Divides;
      ghost var was := bits[..];
      var p, k := Odd(i), i;
      ghost var q := 0;
      MarkedNone(was, i);
      while k < nodds
        invariant i <= k && k == i + q * p && Marked(bits[..], was, i, k)
        decreases nodds - k
      {
        ghost var t := bits[..];
        Mark(k);
        MarkedMore(bits[..], t, was, i, k, q);
        assert (q + 1) * p == q * p + p;
        k, q := k + p, q + 1;
      }
      MarkedEnough(bits[..], was, i, k, nodds);
    }

    /** prime?  ( found i - found' i+1) */
    method Test(found: nat, i: nat) returns (found': nat)
      requires Ok() && i < nodds && AllStruck(bits[..], i, nodds)
      modifies bits, this`printed
      ensures AllStruck(bits[..], i + 1, nodds)
      ensures !Seen(old(bits[..]), i) <==> Prime(Odd(i))
      ensures if Prime(Odd(i)) then found' == found + 1 && printed == old(printed) + [Odd(i)]
              else found' == found && printed == old(printed)
    {
      hide Seen, Divides, Prime;
      ghost var was := bits[..];
      assert StruckAt(was, i, i);
      NotStruckIsPrime(i);
      var seen := IsSeen(i);
      if !seen {
        printed := printed + [Odd(i)];
        Strike(i);
        found' := found + 1;
        StrikeAll(bits[..], was, i, nodds);
      } else {
        found' := found;
        SkipAll(was, i, nodds);
      }
    }

    /** erat  prints 2, then tests every index. */
    method Erat() returns (found: nat)
      requires Ok() && printed == [] && forall j: nat :: j < nodds ==> !Seen(bits[..], j)
      modifies bits, this`printed
      ensures printed == [2] + OddPrimes(nodds) && found == |OddPrimes(nodds)|
    {
      hide Seen, Prime;
      printed := printed + [2];
      found := 0;
      assert AllStruck(bits[..], 0, nodds);
      for i := 0 to nodds
        invariant AllStruck(bits[..], i, nodds)
        invariant printed == [2] + OddPrimes(i) && found == |OddPrimes(i)|
      {
        found := Test(found, i);
      }
    }
  }

  lemma MarkedNone(t: Table, i: nat)
    ensures Marked(t, t, i, i)
  {
    hide Seen, Divides;
    forall j: nat | j < 8 * |t| ensures MarkedAt(t, t, i, i, j) {}
  }

  /** Between one multiple and the next there is none. */
  lemma MarkedMore(t: Table, u: Table, was: Table, i: nat, k: nat, q: nat)
    requires |t| == |u| == |was| && k < 8 * |t| && k == i + q * Odd(i)
    requires Marked(u, was, i, k)
    requires forall j: nat :: j < 8 * |t| ==> Seen(t, j) == (j == k || Seen(u, j))
    ensures Marked(t, was, i, k + Odd(i))
  {
    hide Seen;
    var k1 := k + Odd(i);
    forall j: nat | j < 8 * |t| ensures MarkedAt(t, was, i, k1, j) {
      assert MarkedAt(u, was, i, k, j);
      if i <= j { StepsToMultiple(i, j); }
      if j == k { assert Times(j - i, q, Odd(i)); }
      if k < j < k + Odd(i) { Between(j - i, q, Odd(i)); }
    }
  }

  lemma Between(n: nat, q: nat, p: nat)
    requires q * p < n < q * p + p
    ensures !Divides(p, n)
  {
    forall r: nat ensures !Times(n, r, p) {
      if r <= q {
        assert q * p == r * p + (q - r) * p && (q - r) * p >= 0;
      } else {
        assert r * p == q * p + p + (r - q - 1) * p && (r - q - 1) * p >= 0;
      }
    }
  }

  lemma MarkedEnough(t: Table, was: Table, i: nat, k: nat, n: nat)
    requires |t| == |was| && Marked(t, was, i, k) && n <= k
    ensures forall j: nat :: j < 8 * |t| && j < n ==> MarkedAt(t, was, i, n, j)
  {
    hide Seen, Divides;
    forall j: nat | j < 8 * |t| && j < n ensures MarkedAt(t, was, i, n, j) { assert MarkedAt(t, was, i, k, j); }
  }

  lemma StrikeAll(t: Table, was: Table, i: nat, n: nat)
    requires |t| == |was| && i < n <= 8 * |t| && Prime(Odd(i)) && AllStruck(was, i, n)
    requires forall j: nat :: j < n ==> MarkedAt(t, was, i, n, j)
    ensures AllStruck(t, i + 1, n)
  {
    hide Seen, Divides, Prime, Struck;
    var i1 := i + 1;
    forall j: nat | j < n ensures StruckAt(t, i1, j) {
      assert StruckAt(was, i, j);
      assert MarkedAt(t, was, i, n, j);
      StruckNext(i, j);
      if j < i { BelowNotDivided(i, j); }
    }
  }

  lemma SkipAll(t: Table, i: nat, n: nat)
    requires i < n <= 8 * |t| && !Prime(Odd(i)) && AllStruck(t, i, n)
    ensures AllStruck(t, i + 1, n)
  {
    hide Seen, Divides, Prime, Struck;
    var i1 := i + 1;
    forall j: nat | j < n ensures StruckAt(t, i1, j) {
      assert StruckAt(t, i, j);
      StruckNext(i, j);
    }
  }
}
