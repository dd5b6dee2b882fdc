/** Polynomials over GF(2) and long division by the polynomial of the CRC. */
module Polynomials {
  // ----- polynomials over GF(2), as the sets of their exponents -----

  type Poly = set<nat>

  function Sum(a: Poly, b: Poly): Poly { (a - b) + (b - a) }

  /** a times x^k */
  function Shift(a: Poly, k: nat): Poly { set i | i in a :: i + k }

  lemma ShiftIn(a: Poly, k: nat, j: nat)
    ensures j in Shift(a, k) <==> j >= k && j - k in a
  {
    if j >= k && j - k in a { assert (j - k) + k in Shift(a, k); }
  }

  /** x^16 + x^12 + x^5 + 1 */
  const G: Poly := {0, 5, 12, 16}

  predicate Below(a: Poly, n: nat) { forall i :: i in a ==> i < n }

  /** The remainder of a modulo G, by long division: cancel the exponents from n - 1 down
      to 16, one after another. */
  function Reduce(a: Poly, n: nat): Poly
    decreases n
  {
    if n <= 16 then a else Reduce(if n - 1 in a then Sum(a, Shift(G, n - 17)) else a, n - 1)
  }

  /** A multiple of G: a sum of shifted copies of it. */
  function Multiple(q: seq<nat>): Poly
  {
    if q == [] then {} else Sum(Multiple(q[..|q| - 1]), Shift(G, q[|q| - 1]))
  }

  ghost predicate Congruent(a: Poly, b: Poly) { exists q :: Sum(a, b) == Multiple(q) }

  lemma ShiftG(k: nat)
    ensures Shift(G, k) == {k, k + 5, k + 12, k + 16}
  {
    forall j ensures j in Shift(G, k) <==> j in {k, k + 5, k + 12, k + 16} { if j >= 0 { ShiftIn(G, k, j); } }
  }

  /** Long division is linear. */
  lemma {:induction false} ReduceSum(a: Poly, b: Poly, n: nat)
    ensures Reduce(Sum(a, b), n) == Sum(Reduce(a, n), Reduce(b, n))
    decreases n
  {
    if n > 16 {
      var s := Shift(G, n - 17);
      var a' := if n - 1 in a then Sum(a, s) else a;
      var b' := if n - 1 in b then Sum(b, s) else b;
      ReduceSum(a', b', n - 1);
      assert Sum(a', b') == if n - 1 in Sum(a, b) then Sum(Sum(a, b), s) else Sum(a, b);
    }
  }

  lemma {:induction false} ReduceEmpty(n: nat)
    ensures Reduce({}, n) == {}
  {
    if n > 16 { ReduceEmpty(n - 1); }
  }

  /** It takes every shifted copy of G to zero. */
  lemma {:induction false} ReduceShiftG(k: nat, n: nat)
    requires k + 17 <= n
    ensures Reduce(Shift(G, k), n) == {}
  {
    ShiftG(k);
    if k + 17 == n {
      assert Sum(Shift(G, k), Shift(G, k)) == {};
      ReduceEmpty(n - 1);
    } else {
      ReduceShiftG(k, n - 1);
    }
  }

  predicate AllBelow(q: seq<nat>, n: nat) { forall i :: 0 <= i < |q| ==> q[i] + 17 <= n }

  lemma {:induction false} ReduceMultiple(q: seq<nat>, n: nat)
    requires AllBelow(q, n)
    ensures Reduce(Multiple(q), n) == {}
  {
    if q == [] {
      ReduceEmpty(n);
    } else {
      ReduceMultiple(q[..|q| - 1], n);
      ReduceShiftG(q[|q| - 1], n);
      ReduceSum(Multiple(q[..|q| - 1]), Shift(G, q[|q| - 1]), n);
    }
  }

  /** Division starting from higher up does not matter. */
  lemma {:induction false} ReduceHigher(a: Poly, n: nat, m: nat)
    requires Below(a, n) && n <= m
    ensures Reduce(a, m) == if n <= 16 then a else Reduce(a, n)
    decreases m
  {
    if n < m && m > 16 { ReduceHigher(a, n, m - 1); }
  }

  function Top(q: seq<nat>): nat
  {
    if q == [] then 0
    else
      var t, last := Top(q[..|q| - 1]), q[|q| - 1] + 17;
      if last > t then last else t
  }

  lemma {:induction false} TopAbove(q: seq<nat>)
    ensures AllBelow(q, Top(q))
  {
    if q != [] {
      TopAbove(q[..|q| - 1]);
      forall i | 0 <= i < |q| ensures q[i] + 17 <= Top(q) {
        if i < |q| - 1 { assert q[i] == q[..|q| - 1][i]; }
      }
    }
  }

  lemma AllBelowMore(q: seq<nat>, n: nat, m: nat)
    requires AllBelow(q, n) && n <= m
    ensures AllBelow(q, m)
  {}

  /** The remainder is the only polynomial of degree below 16 congruent to a. */
  lemma RemainderUnique(a: Poly, r: Poly, n: nat)
    requires Below(a, n) && Below(r, 16) && Congruent(a, r)
    ensures Reduce(a, n) == r
  {
    var q :| Sum(a, r) == Multiple(q);
    var m := n + 16 + Top(q);
    TopAbove(q);
    AllBelowMore(q, Top(q), m);
    ReduceMultiple(q, m);
    ReduceSum(a, r, m);
    ReduceHigher(a, n, m);
    ReduceHigher(r, 16, m);
    assert Reduce(a, m) == Reduce(r, m);
    if n <= 16 { assert Reduce(a, n) == a; }
  }

  /** And long division does give such a polynomial. */
  lemma {:induction false} RemainderExists(a: Poly, n: nat)
    requires Below(a, n)
    ensures Below(Reduce(a, n), 16) && Congruent(a, Reduce(a, n))
    decreases n
  {
    if n <= 16 {
      assert Sum(a, a) == Multiple([]);
    } else {
      var a' := if n - 1 in a then Sum(a, Shift(G, n - 17)) else a;
      ShiftG(n - 17);
      RemainderExists(a', n - 1);
      var q: seq<nat> :| Sum(a', Reduce(a', n - 1)) == Multiple(q);
      if n - 1 in a {
        var q' := q + [n - 17];
        assert q'[..|q|] == q;
        assert Sum(a, Reduce(a, n)) == Sum(Multiple(q), Shift(G, n - 17));
        assert Sum(a, Reduce(a, n)) == Multiple(q');
      }
    }
  }

  // ----- congruence -----

  lemma {:induction false} MultipleJoins(p: seq<nat>, q: seq<nat>)
    ensures Multiple(p + q) == Sum(Multiple(p), Multiple(q))
    decreases |q|
  {
    if q == [] {
      assert p + q == p;
    } else {
      MultipleJoins(p, q[..|q| - 1]);
      assert (p + q)[..|p + q| - 1] == p + q[..|q| - 1];
    }
  }

  function Raised(q: seq<nat>, k: nat): seq<nat> { seq(|q|, i requires 0 <= i < |q| => q[i] + k) }

  lemma ShiftSum(a: Poly, b: Poly, k: nat)
    ensures Shift(Sum(a, b), k) == Sum(Shift(a, k), Shift(b, k))
  {
    var l, r := Shift(Sum(a, b), k), Sum(Shift(a, k), Shift(b, k));
    forall j: nat ensures j in l <==> j in r { ShiftIn(Sum(a, b), k, j); ShiftIn(a, k, j); ShiftIn(b, k, j); }
  }

  lemma ShiftShift(a: Poly, k: nat, l: nat)
    ensures Shift(Shift(a, k), l) == Shift(a, k + l)
  {
    var x, y := Shift(Shift(a, k), l), Shift(a, k + l);
    forall j: nat ensures j in x <==> j in y {
      ShiftIn(Shift(a, k), l, j);
      ShiftIn(a, k + l, j);
      if j >= l { ShiftIn(a, k, j - l); }
    }
  }

  lemma {:induction false} MultipleRaised(q: seq<nat>, k: nat)
    ensures Multiple(Raised(q, k)) == Shift(Multiple(q), k)
  {
    if q != [] {
      MultipleRaised(q[..|q| - 1], k);
      assert Raised(q, k)[..|q| - 1] == Raised(q[..|q| - 1], k);
      ShiftSum(Multiple(q[..|q| - 1]), Shift(G, q[|q| - 1]), k);
      ShiftShift(G, q[|q| - 1], k);
    }
  }

  lemma CongruentSelf(a: Poly)
    ensures Congruent(a, a)
  {
    assert Sum(a, a) == Multiple([]);
  }

  lemma CongruentTrans(a: Poly, b: Poly, c: Poly)
    requires Congruent(a, b) && Congruent(b, c)
    ensures Congruent(a, c)
  {
    var p :| Sum(a, b) == Multiple(p);
    var q :| Sum(b, c) == Multiple(q);
    MultipleJoins(p, q);
    assert Sum(a, c) == Sum(Sum(a, b), Sum(b, c));
  }

  lemma CongruentShift(a: Poly, b: Poly, k: nat)
    requires Congruent(a, b)
    ensures Congruent(Shift(a, k), Shift(b, k))
  {
    var q :| Sum(a, b) == Multiple(q);
    MultipleRaised(q, k);
    ShiftSum(a, b, k);
  }

  lemma CongruentSum(a: Poly, b: Poly, c: Poly)
    requires Congruent(a, b)
    ensures Congruent(Sum(a, c), Sum(b, c))
  {
    assert Sum(Sum(a, c), Sum(b, c)) == Sum(a, b);
  }
}
