/** Commutative rings given by their operations.

    The transforms and filters compute with complex doubles; without rounding, all that is used of those
    is what is stated here. The laws are quantified under marks, which say at which elements they are
    wanted; the lemmas below are how they are meant to be used. */
module Rings {

  datatype Ring<!T(!new)> = Ring(zero: T, one: T, add: (T, T) -> T, neg: T -> T, mul: (T, T) -> T)
  {
    function sub(a: T, b: T): T {
      add(a, neg(b))
    }
  }

  // Marks that say at which elements the laws are wanted.
  ghost predicate At1<T>(a: T) { true }
  ghost predicate At2<T>(a: T, b: T) { true }
  ghost predicate At3<T>(a: T, b: T, c: T) { true }

  ghost predicate IsRing<T(!new)>(R: Ring<T>) {
    && (forall a, b, c {:trigger At3(a, b, c)} :: At3(a, b, c) ==>
          && R.add(R.add(a, b), c) == R.add(a, R.add(b, c))
          && R.mul(R.mul(a, b), c) == R.mul(a, R.mul(b, c))
          && R.mul(a, R.add(b, c)) == R.add(R.mul(a, b), R.mul(a, c)))
    && (forall a, b {:trigger At2(a, b)} :: At2(a, b) ==> R.add(a, b) == R.add(b, a) && R.mul(a, b) == R.mul(b, a))
    && (forall a {:trigger At1(a)} :: At1(a) ==>
          R.add(a, R.zero) == a && R.add(a, R.neg(a)) == R.zero && R.mul(a, R.one) == a)
  }

  lemma Laws3<T(!new)>(R: Ring<T>, a: T, b: T, c: T)
    requires IsRing(R)
    ensures R.add(R.add(a, b), c) == R.add(a, R.add(b, c))
    ensures R.mul(R.mul(a, b), c) == R.mul(a, R.mul(b, c))
    ensures R.mul(a, R.add(b, c)) == R.add(R.mul(a, b), R.mul(a, c))
  {
    assert At3(a, b, c);
  }

  lemma Commute<T(!new)>(R: Ring<T>, a: T, b: T)
    requires IsRing(R)
    ensures R.add(a, b) == R.add(b, a) && R.mul(a, b) == R.mul(b, a)
  {
    assert At2(a, b);
  }

  lemma Unit<T(!new)>(R: Ring<T>, a: T)
    requires IsRing(R)
    ensures R.add(a, R.zero) == a && R.add(R.zero, a) == a
    ensures R.mul(a, R.one) == a && R.mul(R.one, a) == a
    ensures R.add(a, R.neg(a)) == R.zero && R.add(R.neg(a), a) == R.zero
  {
    assert At1(a);
    Commute(R, a, R.zero);
    Commute(R, a, R.one);
    Commute(R, a, R.neg(a));
  }

  /** Cancellation: a sum determines its second term. */
  lemma Cancel<T(!new)>(R: Ring<T>, a: T, b: T, c: T)
    requires IsRing(R) && R.add(a, b) == R.add(a, c)
    ensures b == c
  {
    Laws3(R, R.neg(a), a, b);
    Laws3(R, R.neg(a), a, c);
    Unit(R, a);
    Unit(R, b);
    Unit(R, c);
  }

  lemma MulZero<T(!new)>(R: Ring<T>, a: T)
    requires IsRing(R)
    ensures R.mul(a, R.zero) == R.zero && R.mul(R.zero, a) == R.zero
  {
    Unit(R, R.zero);
    Laws3(R, a, R.zero, R.zero);
    Unit(R, R.mul(a, R.zero));
    Cancel(R, R.mul(a, R.zero), R.mul(a, R.zero), R.zero);
    Commute(R, a, R.zero);
  }

  lemma MulNeg<T(!new)>(R: Ring<T>, a: T, b: T)
    requires IsRing(R)
    ensures R.mul(a, R.neg(b)) == R.neg(R.mul(a, b)) && R.mul(R.neg(a), b) == R.neg(R.mul(a, b))
  {
    MulNegRight(R, a, b);
    MulNegRight(R, b, a);
    Commute(R, a, b);
    Commute(R, b, R.neg(a));
  }

  lemma MulNegRight<T(!new)>(R: Ring<T>, a: T, b: T)
    requires IsRing(R)
    ensures R.mul(a, R.neg(b)) == R.neg(R.mul(a, b))
  {
    Laws3(R, a, b, R.neg(b));
    Unit(R, b);
    MulZero(R, a);
    Unit(R, R.mul(a, b));
    Cancel(R, R.mul(a, b), R.mul(a, R.neg(b)), R.neg(R.mul(a, b)));
  }

  lemma NegNeg<T(!new)>(R: Ring<T>, a: T)
    requires IsRing(R)
    ensures R.neg(R.neg(a)) == a
  {
    Unit(R, a);
    Unit(R, R.neg(a));
    Cancel(R, R.neg(a), R.neg(R.neg(a)), a);
  }

  lemma NegAdd<T(!new)>(R: Ring<T>, a: T, b: T)
    requires IsRing(R)
    ensures R.neg(R.add(a, b)) == R.add(R.neg(a), R.neg(b))
  {
    Interchange(R, a, b, R.neg(a), R.neg(b));
    Unit(R, a);
    Unit(R, b);
    Unit(R, R.zero);
    Unit(R, R.add(a, b));
    Cancel(R, R.add(a, b), R.neg(R.add(a, b)), R.add(R.neg(a), R.neg(b)));
  }

  /** (a + b) + (c + d) == (a + c) + (b + d) */
  lemma Interchange<T(!new)>(R: Ring<T>, a: T, b: T, c: T, d: T)
    requires IsRing(R)
    ensures R.add(R.add(a, b), R.add(c, d)) == R.add(R.add(a, c), R.add(b, d))
  {
    Laws3(R, a, b, R.add(c, d));
    Laws3(R, b, c, d);
    Commute(R, b, c);
    Laws3(R, c, b, d);
    Laws3(R, a, c, R.add(b, d));
  }

  /** (a b) (c d) == (a c) (b d) */
  lemma MulInterchange<T(!new)>(R: Ring<T>, a: T, b: T, c: T, d: T)
    requires IsRing(R)
    ensures R.mul(R.mul(a, b), R.mul(c, d)) == R.mul(R.mul(a, c), R.mul(b, d))
  {
    Laws3(R, a, b, R.mul(c, d));
    Laws3(R, b, c, d);
    Commute(R, b, c);
    Laws3(R, c, b, d);
    Laws3(R, a, c, R.mul(b, d));
  }

  lemma MulSum<T(!new)>(R: Ring<T>, a: T, b: T, c: T)
    requires IsRing(R)
    ensures R.mul(R.add(a, b), c) == R.add(R.mul(a, c), R.mul(b, c))
  {
    Commute(R, R.add(a, b), c);
    Laws3(R, c, a, b);
    Commute(R, c, a);
    Commute(R, c, b);
  }

  // ---------- powers ----------

  function Pow<T(!new)>(R: Ring<T>, a: T, n: nat): T {
    if n == 0 then R.one else R.mul(a, Pow(R, a, n - 1))
  }

  lemma {:induction false} PowAdd<T(!new)>(R: Ring<T>, a: T, m: nat, n: nat)
    requires IsRing(R)
    ensures Pow(R, a, m + n) == R.mul(Pow(R, a, m), Pow(R, a, n))
  {
    if m == 0 {
      Unit(R, Pow(R, a, n));
    } else {
      PowAdd(R, a, m - 1, n);
      Laws3(R, a, Pow(R, a, m - 1), Pow(R, a, n));
    }
  }

  /** (a b)^n == a^n b^n */
  lemma {:induction false} PowOfProduct<T(!new)>(R: Ring<T>, a: T, b: T, n: nat)
    requires IsRing(R)
    ensures Pow(R, R.mul(a, b), n) == R.mul(Pow(R, a, n), Pow(R, b, n))
  {
    if n == 0 {
      Unit(R, R.one);
    } else {
      PowOfProduct(R, a, b, n - 1);
      MulInterchange(R, a, b, Pow(R, a, n - 1), Pow(R, b, n - 1));
    }
  }

  lemma {:induction false} PowOfOne<T(!new)>(R: Ring<T>, n: nat)
    requires IsRing(R)
    ensures Pow(R, R.one, n) == R.one
  {
    if n > 0 {
      PowOfOne(R, n - 1);
      Unit(R, R.one);
    }
  }

  /** (a a)^n == a^(2n) == (a^n)(a^n) */
  lemma PowSquare<T(!new)>(R: Ring<T>, a: T, n: nat)
    requires IsRing(R)
    ensures Pow(R, R.mul(a, a), n) == R.mul(Pow(R, a, n), Pow(R, a, n)) == Pow(R, a, 2 * n)
  {
    PowOfProduct(R, a, a, n);
    PowAdd(R, a, n, n);
  }

  // ---------- one instance: complex numbers ----------

  datatype Complex = Complex(re: real, im: real)

  function Plus(a: Complex, b: Complex): Complex {
    Complex(a.re + b.re, a.im + b.im)
  }

  function Minus(a: Complex): Complex {
    Complex(-a.re, -a.im)
  }

  function Times(a: Complex, b: Complex): Complex {
    Complex(a.re * b.re - a.im * b.im, a.re * b.im + a.im * b.re)
  }

  const COMPLEX: Ring<Complex> := Ring(Complex(0.0, 0.0), Complex(1.0, 0.0), Plus, Minus, Times)

  /** The laws hold of complex numbers, which is where the program computes. */
  lemma ComplexIsRing()
    ensures IsRing(COMPLEX)
  {
    forall a: Complex, b: Complex, c: Complex
      ensures Times(Times(a, b), c) == Times(a, Times(b, c))
      ensures Times(a, Plus(b, c)) == Plus(Times(a, b), Times(a, c))
    {
      ComplexLaws(a, b, c);
    }
  }

  lemma ComplexLaws(a: Complex, b: Complex, c: Complex)
    ensures Times(Times(a, b), c) == Times(a, Times(b, c))
    ensures Times(a, Plus(b, c)) == Plus(Times(a, b), Times(a, c))
  {
    ComplexMul(a, b, c);
    ComplexDistributes(a, b, c);
  }

  lemma ComplexMul(a: Complex, b: Complex, c: Complex)
    ensures Times(Times(a, b), c) == Times(a, Times(b, c))
  {
    var ar, ai, br, bi, cr, ci := a.re, a.im, b.re, b.im, c.re, c.im;
    var l, r := Times(Times(a, b), c), Times(a, Times(b, c));
    assert l.re == (ar * br - ai * bi) * cr - (ar * bi + ai * br) * ci;
    assert l.im == (ar * br - ai * bi) * ci + (ar * bi + ai * br) * cr;
    assert r.re == ar * (br * cr - bi * ci) - ai * (br * ci + bi * cr);
    assert r.im == ar * (br * ci + bi * cr) + ai * (br * cr - bi * ci);
    hide Times;
    Triple(ar, ai, br, bi, cr, ci);
  }

  lemma ComplexDistributes(a: Complex, b: Complex, c: Complex)
    ensures Times(a, Plus(b, c)) == Plus(Times(a, b), Times(a, c))
  {
    Spread(a.re, b.re, c.re);
    Spread(a.re, b.im, c.im);
    Spread(a.im, b.re, c.re);
    Spread(a.im, b.im, c.im);
  }

  lemma Triple(ar: real, ai: real, br: real, bi: real, cr: real, ci: real)
    ensures (ar * br - ai * bi) * cr - (ar * bi + ai * br) * ci == ar * (br * cr - bi * ci) - ai * (br * ci + bi * cr)
    ensures (ar * br - ai * bi) * ci + (ar * bi + ai * br) * cr == ar * (br * ci + bi * cr) + ai * (br * cr - bi * ci)
  {
    Spread(cr, ar * br, ai * bi);
    Spread(ci, ar * bi, ai * br);
    Spread(ci, ar * br, ai * bi);
    Spread(cr, ar * bi, ai * br);
    Spread(ar, br * cr, bi * ci);
    Spread(ai, br * ci, bi * cr);
    Spread(ar, br * ci, bi * cr);
    Spread(ai, br * cr, bi * ci);
    Regroup(ar, br, cr);
    Regroup(ai, bi, cr);
    Regroup(ar, bi, ci);
    Regroup(ai, br, ci);
    Regroup(ar, br, ci);
    Regroup(ai, bi, ci);
    Regroup(ar, bi, cr);
    Regroup(ai, br, cr);
  }

  lemma Spread(x: real, y: real, z: real)
    ensures x * (y + z) == x * y + x * z && x * (y - z) == x * y - x * z
  {
  }

  lemma Regroup(x: real, y: real, z: real)
    ensures x * y * z == x * (y * z)
  {
  }
}
