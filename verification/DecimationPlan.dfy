/** The choice of stage factors: the nearest decimation whose prime factors are at most 7, split into
    factors of at most 8. */
module DecimationPlan {
  import opened Bits
  import opened Decimation
  import D = Ddc

  /** The products of 2, 3, 5 and 7. */
  ghost predicate Smooth(n: nat) {
    n == 1 || (n > 1 && exists p | p in [2, 3, 5, 7] :: n % p == 0 && Smooth(n / p))
  }

  lemma SmoothTimes(n: nat, p: nat)
    requires p in [2, 3, 5, 7] && n > 0 && n % p == 0 && Smooth(n / p)
    ensures Smooth(n)
  {
    if n > 1 {
      assert n % p == 0 && Smooth(n / p);
    }
  }

  /** Numbers u, v with u p + v q == 1. */
  function Bezout(p: nat, q: nat): (c: (int, int))
    requires p in [2, 3, 5, 7] && q in [2, 3, 5, 7] && p != q
    ensures c.0 * p + c.1 * q == 1
  {
    if p > q then (Bezout(q, p).1, Bezout(q, p).0)
    else if p == 2 then ((1 - q) / 2, 1)
    else if p == 3 then (if q == 5 then (2, -1) else (-2, 1))
    else (3, -2)
  }

  /** With p and q coprime, p a == q b only for multiples of q and p. */
  lemma Coprime(p: nat, q: nat, u: int, v: int, a: int, b: int)
    requires u * p + v * q == 1 && p * a == q * b
    ensures var k := u * b + v * a; b == p * k && a == q * k
  {
    var k := u * b + v * a;
    assert p * k == (u * p) * b + v * (p * a) == (u * p) * b + (v * q) * b == (u * p + v * q) * b;
    assert q * k == u * (q * b) + (v * q) * a == (u * p) * a + (v * q) * a == (u * p + v * q) * a;
  }

  /** A prime that divides q m, and is not the prime q, divides m. */
  lemma OtherPrime(n: nat, p: nat, q: nat)
    requires p in [2, 3, 5, 7] && q in [2, 3, 5, 7] && p != q && n % p == 0 && n % q == 0
    ensures n / q % p == 0 && n / p % q == 0 && n / q / p == n / p / q
  {
    var c, a, b := Bezout(p, q), n / p, n / q;
    var k := c.0 * b + c.1 * a;
    assert n == p * a && n == q * b;
    Coprime(p, q, c.0, c.1, a, b);
    Exact(b, p, k);
    Exact(a, q, k);
  }

  lemma Exact(n: nat, d: nat, k: int)
    requires d > 0 && n == d * k
    ensures n % d == 0 && n / d == k
  {
    ModUnique(n, d, k, 0);
  }

  /** It does not matter which of its prime factors a smooth number is divided by. */
  lemma {:induction false} SmoothDivides(n: nat, p: nat)
    requires Smooth(n) && p in [2, 3, 5, 7] && n % p == 0
    ensures n >= p && Smooth(n / p)
  {
    var q :| q in [2, 3, 5, 7] && n % q == 0 && Smooth(n / q);
    if q != p {
      OtherPrime(n, p, q);
      SmoothDivides(n / q, p);
      SmoothTimes(n / p, q);
    }
  }

  /** Division by a number that does not divide n leaves it not dividing. */
  lemma StillNot(n: nat, p: nat, r: nat)
    requires p > 0 && r > 0 && n % p == 0 && n / p % r == 0
    ensures n % r == 0
  {
    var k := n / p / r;
    assert n == p * (r * k) == r * (p * k);
    Exact(n, r, p * k);
  }

  // ---------- the search ----------

  method DivideOut(n: nat, p: nat) returns (m: nat)
    requires n >= 1 && p in [2, 3, 5, 7]
    ensures m >= 1 && m % p != 0 && (Smooth(n) <==> Smooth(m))
    ensures forall r | r in [2, 3, 5, 7] :: n % r != 0 ==> m % r != 0
  {
    m := n;
    while m % p == 0
      invariant m >= 1 && (Smooth(n) <==> Smooth(m))
      invariant forall r | r in [2, 3, 5, 7] :: n % r != 0 ==> m % r != 0
      decreases m
    {
      Divided(m, p);
      m := m / p;
    }
  }

  lemma Divided(m: nat, p: nat)
    requires m >= 1 && p in [2, 3, 5, 7] && m % p == 0
    ensures 1 <= m / p < m && (Smooth(m) <==> Smooth(m / p))
    ensures forall r | r in [2, 3, 5, 7] :: m % r != 0 ==> m / p % r != 0
  {
    assert m == p * (m / p);
    if Smooth(m) {
      SmoothDivides(m, p);
    }
    if Smooth(m / p) {
      SmoothTimes(m, p);
    }
    forall r | r in [2, 3, 5, 7] ensures m % r != 0 ==> m / p % r != 0 {
      if m / p % r == 0 {
        StillNot(m, p, r);
      }
    }
  }

  method SmallFactors(n: nat) returns (small: bool)
    requires n >= 1
    ensures small == Smooth(n)
  {
    hide Smooth;
    var m := DivideOut(n, 2);
    m := DivideOut(m, 3);
    m := DivideOut(m, 5);
    m := DivideOut(m, 7);
    RoughIsOne(m);
    small := m == 1;
  }

  lemma RoughIsOne(m: nat)
    requires m >= 1 && m % 2 != 0 && m % 3 != 0 && m % 5 != 0 && m % 7 != 0
    ensures Smooth(m) <==> m == 1
  {
  }

  function Gap(a: int, b: int): nat {
    if a < b then b - a else a - b
  }

  /** best is the smooth number nearest to n, the smaller one of two. */
  ghost predicate Nearest(n: nat, best: nat) {
    Smooth(best) && forall m: nat :: Smooth(m) ==> Gap(m, n) > Gap(best, n) || (Gap(m, n) == Gap(best, n) && m >= best)
  }

  /** A power of two is within half of any number. */
  lemma {:induction false} PowerNear(n: nat) returns (p: nat)
    requires n >= 1
    ensures Smooth(p) && p <= n < 2 * p
  {
    if n == 1 {
      p := 1;
    } else {
      var q := PowerNear(n / 2);
      p := 2 * q;
      SmoothTimes(p, 2);
    }
  }

  method NearestSmooth(total: nat) returns (best: nat)
    requires total >= 1
    ensures best >= 1 && Nearest(total, best)
  {
    hide Smooth;
    ghost var power := PowerNear(total);
    SmoothIsPositive();
    best := total;
    var small := SmallFactors(total);
    if total > 1 && !small {
      var delta := 1;
      while delta <= total / 2
        invariant 1 <= delta && best == total && !small
        invariant forall m: nat :: Smooth(m) ==> Gap(m, total) >= delta
      {
        if total - delta >= 1 {
          small := SmallFactors(total - delta);
        }
        if small {
          best := total - delta;
          return;
        }
        small := SmallFactors(total + delta);
        if small {
          best := total + delta;
          return;
        }
        NoneAt(total, delta);
        delta := delta + 1;
      }
      assert false;
    } else {
      assert Smooth(total) by { OneIsSmooth(); }
    }
  }

  lemma OneIsSmooth()
    ensures Smooth(1)
  {
  }

  lemma SmoothIsPositive()
    ensures forall m: nat :: Smooth(m) ==> m >= 1
  {
  }

  lemma NoneAt(total: nat, delta: nat)
    requires delta <= total && !Smooth(total - delta) && !Smooth(total + delta)
    requires forall m: nat :: Smooth(m) ==> Gap(m, total) >= delta
    ensures forall m: nat :: Smooth(m) ==> Gap(m, total) >= delta + 1
  {
    hide Smooth;
    forall m: nat | Smooth(m) ensures Gap(m, total) >= delta + 1 {
      assert m != total - delta && m != total + delta;
    }
  }

  // ---------- the factors ----------

  function Product(fs: seq<nat>): nat {
    if fs == [] then 1 else Product(fs[..|fs| - 1]) * fs[|fs| - 1]
  }

  lemma ProductAppend(fs: seq<nat>, f: nat)
    ensures Product(fs + [f]) == Product(fs) * f
  {
    assert (fs + [f])[..|fs|] == fs;
  }

  /** The largest of 8, 7, ..., 2 that divides n, or 1. */
  method LargestFactor(n: nat) returns (f: nat)
    requires n > 1
    ensures f == 1 || (2 <= f <= 8 && n % f == 0)
    ensures forall c :: 2 <= c <= 8 && n % c == 0 ==> c <= f
  {
    var cand := 8;
    while cand >= 2
      invariant 1 <= cand <= 8
      invariant forall c :: cand < c <= 8 ==> n % c != 0
    {
      if n % cand == 0 {
        return cand;
      }
      cand := cand - 1;
    }
    f := 1;
  }

  /** A smooth product without one of its prime factors. */
  lemma SmoothFactorOut(n: nat, p: nat, m: nat)
    requires p in [2, 3, 5, 7] && n == p * m && Smooth(n)
    ensures Smooth(m)
  {
    Exact(n, p, m);
    SmoothDivides(n, p);
  }

  lemma SmoothCofactor(n: nat, f: nat, a: nat)
    requires Smooth(n) && 2 <= f <= 8 && n == f * a
    ensures Smooth(a)
  {
    hide Smooth;
    if f in [2, 3, 5, 7] {
      SmoothFactorOut(n, f, a);
    } else if f == 8 {
      SmoothFactorOut(n, 2, 4 * a);
      SmoothFactorOut(4 * a, 2, 2 * a);
      SmoothFactorOut(2 * a, 2, a);
    } else {
      SmoothFactorOut(n, 2, f / 2 * a);
      SmoothFactorOut(f / 2 * a, f / 2, a);
    }
  }

  lemma SmoothQuotient(n: nat, f: nat)
    requires Smooth(n) && n > 1 && 2 <= f <= 8 && n % f == 0
    ensures 1 <= n / f < n && Smooth(n / f) && n == f * (n / f)
  {
    hide Smooth;
    var a := n / f;
    assert n == f * a;
    SmoothCofactor(n, f, a);
    MulMonotone(f, a, 0);
    MulMonotone(a, 2, f);
  }

  lemma HasFactor(n: nat)
    requires Smooth(n) && n > 1
    ensures n % 2 == 0 || n % 3 == 0 || n % 5 == 0 || n % 7 == 0
  {
  }

  predicate Stages(fs: seq<nat>) {
    fs == [1] || (fs != [] && forall i :: 0 <= i < |fs| ==> 2 <= fs[i] <= 8)
  }

  predicate Divides(c: nat, n: nat)
    requires c > 0
  {
    n % c == 0
  }

  /** No number from 2 to 8 that divides n is larger than f. */
  ghost predicate AsLarge(f: nat, n: nat) {
    forall c :: 2 <= c <= 8 && Divides(c, n) ==> c <= f
  }

  /** Every stage takes the largest candidate that divides what is left to do. */
  ghost predicate Greedy(fs: seq<nat>) {
    forall i :: 0 <= i < |fs| ==> AsLarge(fs[i], Product(fs[i..]))
  }

  /** The same while a factor of rem is still to be found. */
  ghost predicate GreedySoFar(fs: seq<nat>, rem: nat) {
    forall i :: 0 <= i < |fs| ==> AsLarge(fs[i], Product(fs[i..]) * rem)
  }

  lemma GreedyNext(fs: seq<nat>, rem: nat, f: nat)
    requires GreedySoFar(fs, rem) && f >= 2 && rem == f * (rem / f) && AsLarge(f, rem)
    ensures GreedySoFar(fs + [f], rem / f)
  {
    hide Product, AsLarge;
    var gs := fs + [f];
    forall i | 0 <= i < |gs| ensures AsLarge(gs[i], Product(gs[i..]) * (rem / f)) {
      assert gs[i..] == fs[i..] + [f];
      ProductAppend(fs[i..], f);
      Associate(Product(fs[i..]), f, rem / f);
      if i == |fs| {
        ProductOfNone();
        assert fs[i..] == [];
      }
    }
  }

  lemma GreedyEnds(fs: seq<nat>)
    requires GreedySoFar(fs, 1)
    ensures Greedy(fs)
  {
    hide AsLarge;
    forall i | 0 <= i < |fs| ensures AsLarge(fs[i], Product(fs[i..])) {
      assert Product(fs[i..]) * 1 == Product(fs[i..]);
    }
  }

  lemma {:induction false} ProductHead(fs: seq<nat>)
    requires fs != []
    ensures Product(fs) == fs[0] * Product(fs[1..])
  {
    if |fs| > 1 {
      var n := |fs| - 1;
      ProductHead(fs[..n]);
      assert fs[1..][..n - 1] == fs[..n][1..];
      Associate(fs[0], Product(fs[1..n]), fs[n]);
      assert fs[..n][1..] == fs[1..n];
    }
  }

  lemma {:induction false} ProductPositive(fs: seq<nat>)
    requires forall i :: 0 <= i < |fs| ==> fs[i] >= 2
    ensures Product(fs) >= 1 && (fs != [] ==> Product(fs) >= 2)
  {
    if fs != [] {
      ProductPositive(fs[..|fs| - 1]);
      MulMonotone(fs[|fs| - 1], 1, Product(fs[..|fs| - 1]));
    }
  }

  lemma MultipleDivides(f: nat, m: nat)
    requires f > 0
    ensures Divides(f, f * m)
  {
    Exact(f * m, f, m);
  }

  /** Which leaves no choice: the product determines the stages. */
  lemma {:induction false} GreedyIsUnique(a: seq<nat>, b: seq<nat>)
    requires forall i :: 0 <= i < |a| ==> 2 <= a[i] <= 8
    requires forall i :: 0 <= i < |b| ==> 2 <= b[i] <= 8
    requires Greedy(a) && Greedy(b) && Product(a) == Product(b)
    ensures a == b
    decreases |a|
  {
    hide Product;
    ProductPositive(a);
    ProductPositive(b);
    if a == [] || b == [] {
      ProductOfNone();
    } else {
      ProductHead(a);
      ProductHead(b);
      MultipleDivides(a[0], Product(a[1..]));
      MultipleDivides(b[0], Product(b[1..]));
      assert a[0..] == a && b[0..] == b;
      assert AsLarge(a[0], Product(a)) && AsLarge(b[0], Product(b));
      assert a[0] == b[0];
      SameCofactor(a[0], Product(a[1..]), Product(b[1..]));
      GreedyRest(a);
      GreedyRest(b);
      GreedyIsUnique(a[1..], b[1..]);
      assert a == [a[0]] + a[1..] && b == [b[0]] + b[1..];
    }
  }

  lemma SameCofactor(f: nat, m: nat, n: nat)
    requires f > 0 && f * m == f * n
    ensures m == n
  {
    MulMonotone(f, m + 1, n);
    MulMonotone(f, n + 1, m);
  }

  lemma GreedyRest(fs: seq<nat>)
    requires fs != [] && Greedy(fs)
    ensures Greedy(fs[1..])
  {
    hide Product, AsLarge;
    var t := fs[1..];
    forall i | 0 <= i < |t| ensures AsLarge(t[i], Product(t[i..])) {
      assert t[i..] == fs[i + 1..];
    }
  }

  method Factor(total: nat) returns (factors: seq<nat>)
    requires total >= 1 && Smooth(total)
    ensures Stages(factors) && Product(factors) == total && Greedy(factors)
  {
    hide Smooth, Product, GreedySoFar;
    ProductOfNone();
    factors := [];
    var rem := total;
    NoneGreedy(rem);
    while rem > 1
      invariant rem >= 1 && Smooth(rem) && Product(factors) * rem == total
      invariant GreedySoFar(factors, rem)
      invariant forall i :: 0 <= i < |factors| ==> 2 <= factors[i] <= 8
    {
      HasFactor(rem);
      var f := LargestFactor(rem);
      if f == 1 {
        // a leftover prime factor above 7
        assert false;
      } else {
        SmoothQuotient(rem, f);
        ProductAppend(factors, f);
        Associate(Product(factors), f, rem / f);
        assert AsLarge(f, rem);
        GreedyNext(factors, rem, f);
        factors := factors + [f];
        rem := rem / f;
      }
    }
    GreedyEnds(factors);
    if factors == [] {
      factors := [1];
      OneGreedy();
    }
  }

  lemma NoneGreedy(rem: nat)
    ensures GreedySoFar([], rem)
  {
  }

  lemma OneGreedy()
    ensures Greedy([1])
  {
    ProductOfNone();
    assert [1][0..] == [1];
  }

  lemma ProductOfNone()
    ensures Product([]) == 1 && Product([1]) == 1
  {
  }

  /** For every ratio the plan multiplies up to the smooth number nearest to it, one for a ratio below
      one, and every stage is as large as it can be. */
  method Plan(ratio: int) returns (factors: seq<nat>)
    ensures Stages(factors) && Nearest(if ratio < 1 then 1 else ratio, Product(factors)) && Greedy(factors)
  {
    var totalDecim := if ratio < 1 then 1 else ratio;
    var best := NearestSmooth(totalDecim);
    factors := Factor(best);
  }

  /** A cascade with the planned factors decimates by the planned ratio. */
  lemma {:induction false} PlannedRatio<T>(chain: seq<Filter<T>>, factors: seq<nat>)
    requires |chain| == |factors| && forall i :: 0 <= i < |chain| ==> chain[i].factor == factors[i]
    ensures D.Ratio(chain) == Product(factors)
  {
    if chain != [] {
      PlannedRatio(chain[..|chain| - 1], factors[..|chain| - 1]);
    }
  }
}
