/** Transforms of real signals through a complex transform of half the size. */
module RealFft {
  import opened Bits
  import opened Rings
  import opened Poly
  import opened Fourier
  import opened InPlaceFft

  /** Complex conjugation and the imaginary unit. */
  datatype Conjugation<!T(!new)> = Conjugation(conj: T -> T, i: T)

  ghost predicate IsInvolution<T(!new)>(R: Ring<T>, C: Conjugation<T>) {
    && (forall a, b {:trigger At2(a, b)} :: At2(a, b) ==>
          C.conj(R.add(a, b)) == R.add(C.conj(a), C.conj(b)) && C.conj(R.mul(a, b)) == R.mul(C.conj(a), C.conj(b)))
    && (forall a {:trigger At1(a)} :: At1(a) ==> C.conj(C.conj(a)) == a)
    && R.mul(C.i, C.i) == R.neg(R.one) && C.conj(C.i) == R.neg(C.i)
  }

  ghost predicate IsConjugation<T(!new)>(R: Ring<T>, C: Conjugation<T>, W: Roots<T>, top: nat) {
    IsInvolution(R, C) && forall s: nat :: s <= top ==> C.conj(W.fwd(s)) == W.bwd(s)
  }

  ghost predicate AllReal<T(!new)>(C: Conjugation<T>, x: seq<T>) {
    forall k :: 0 <= k < |x| ==> C.conj(x[k]) == x[k]
  }

  function Re<T(!new)>(R: Ring<T>, C: Conjugation<T>, half: T, z: T): T {
    R.mul(half, R.add(z, C.conj(z)))
  }

  function Im<T(!new)>(R: Ring<T>, C: Conjugation<T>, half: T, z: T): T {
    R.mul(half, R.mul(R.neg(C.i), R.sub(z, C.conj(z))))
  }

  // ---------- conjugation ----------

  lemma ConjSum<T(!new)>(R: Ring<T>, C: Conjugation<T>, W: Roots<T>, top: nat, a: T, b: T)
    requires IsConjugation(R, C, W, top)
    ensures C.conj(R.add(a, b)) == R.add(C.conj(a), C.conj(b)) && C.conj(R.mul(a, b)) == R.mul(C.conj(a), C.conj(b))
    ensures C.conj(C.conj(a)) == a
  {
    assert At2(a, b) && At1(a);
  }

  lemma ConjUnits<T(!new)>(R: Ring<T>, C: Conjugation<T>, W: Roots<T>, top: nat)
    requires IsRing(R) && IsConjugation(R, C, W, top)
    ensures C.conj(R.zero) == R.zero && C.conj(R.one) == R.one
  {
    ConjSum(R, C, W, top, R.zero, R.zero);
    Unit(R, R.zero);
    Unit(R, C.conj(R.zero));
    Cancel(R, C.conj(R.zero), C.conj(R.zero), R.zero);
    ConjSum(R, C, W, top, R.one, C.conj(R.one));
    Unit(R, C.conj(R.one));
    Unit(R, C.conj(C.conj(R.one)));
  }

  lemma ConjNeg<T(!new)>(R: Ring<T>, C: Conjugation<T>, W: Roots<T>, top: nat, a: T)
    requires IsRing(R) && IsConjugation(R, C, W, top)
    ensures C.conj(R.neg(a)) == R.neg(C.conj(a))
  {
    ConjSum(R, C, W, top, a, R.neg(a));
    ConjUnits(R, C, W, top);
    Unit(R, a);
    Unit(R, C.conj(a));
    Cancel(R, C.conj(a), C.conj(R.neg(a)), R.neg(C.conj(a)));
  }

  lemma {:induction false} ConjPow<T(!new)>(R: Ring<T>, C: Conjugation<T>, W: Roots<T>, top: nat, a: T, n: nat)
    requires IsRing(R) && IsConjugation(R, C, W, top)
    ensures C.conj(Pow(R, a, n)) == Pow(R, C.conj(a), n)
  {
    if n == 0 {
      ConjUnits(R, C, W, top);
    } else {
      ConjPow(R, C, W, top, a, n - 1);
      ConjSum(R, C, W, top, a, Pow(R, a, n - 1));
    }
  }

  /** The values of a real polynomial at conjugate points are conjugate. */
  lemma {:induction false} ConjEval<T(!new)>(R: Ring<T>, C: Conjugation<T>, W: Roots<T>, top: nat, x: seq<T>, z: T)
    requires IsRing(R) && IsConjugation(R, C, W, top) && AllReal(C, x)
    ensures C.conj(Eval(R, x, z)) == Eval(R, x, C.conj(z))
  {
    if x == [] {
      ConjUnits(R, C, W, top);
    } else {
      var p := Eval(R, x[1..], z);
      ConjEval(R, C, W, top, x[1..], z);
      ConjSum(R, C, W, top, x[0], R.mul(z, p));
      ConjSum(R, C, W, top, z, p);
    }
  }

  /** On the unit circle, the conjugate of the (n-k)-th power is the k-th. */
  lemma ConjTurn<T(!new)>(R: Ring<T>, C: Conjugation<T>, W: Roots<T>, top: nat, s: nat, k: nat)
    requires IsRoots(R, W, top) && IsConjugation(R, C, W, top) && s <= top && k <= Pow2(s)
    ensures C.conj(Pow(R, W.fwd(s), Pow2(s) - k)) == Pow(R, W.fwd(s), k)
  {
    var w, v, n := W.fwd(s), W.bwd(s), Pow2(s);
    ConjPow(R, C, W, top, w, n - k);
    var p := Pow(R, v, n - k);
    FullTurn(R, W.fwd, top, s);
    PowAdd(R, w, k, n - k);
    PowOfProduct(R, w, v, n - k);
    PowOfOne(R, n - k);
    Laws3(R, Pow(R, w, k), Pow(R, w, n - k), p);
    Unit(R, p);
    Unit(R, Pow(R, w, k));
  }

  // ---------- the recombination ----------

  /** A (e + x) + B (e - x) == (A + B) e + (A - B) x */
  lemma SumDiff<T(!new)>(R: Ring<T>, a: T, b: T, e: T, x: T)
    requires IsRing(R)
    ensures R.add(R.mul(a, R.add(e, x)), R.mul(b, R.sub(e, x))) == R.add(R.mul(R.add(a, b), e), R.mul(R.sub(a, b), x))
  {
    Laws3(R, a, e, x);
    Laws3(R, b, e, R.neg(x));
    Interchange(R, R.mul(a, e), R.mul(a, x), R.mul(b, e), R.mul(b, R.neg(x)));
    MulSum(R, a, b, e);
    MulSum(R, a, R.neg(b), x);
    MulNeg(R, b, x);
  }

  /** half (1 - y) + half (1 + y) == 1, and their difference is -y. */
  lemma Halves<T(!new)>(R: Ring<T>, half: T, y: T)
    requires IsRing(R) && R.add(half, half) == R.one
    ensures var a, b := R.mul(half, R.sub(R.one, y)), R.mul(half, R.add(R.one, y));
            && R.add(a, b) == R.one && R.add(b, a) == R.one
            && R.sub(a, b) == R.neg(y) && R.sub(b, a) == y
  {
    var u, v := R.sub(R.one, y), R.add(R.one, y);
    var a, b := R.mul(half, u), R.mul(half, v);
    Laws3(R, half, u, v);
    Interchange(R, R.one, R.neg(y), R.one, y);
    Unit(R, y);
    Unit(R, R.add(R.one, R.one));
    Laws3(R, half, R.one, R.one);
    Unit(R, half);
    Commute(R, a, b);
    Laws3(R, half, v, R.neg(u));
    MulNeg(R, half, u);
    NegAdd(R, R.one, R.neg(y));
    NegNeg(R, y);
    Interchange(R, R.one, y, R.neg(R.one), y);
    Unit(R, R.one);
    Unit(R, R.add(y, y));
    Laws3(R, half, y, y);
    MulSum(R, half, half, y);
    Unit(R, y);
    NegAdd(R, b, R.neg(a));
    NegNeg(R, a);
    Commute(R, a, R.neg(b));
  }

  /** (-(i u)) (i o) == u o */
  lemma TurnBack<T(!new)>(R: Ring<T>, i: T, u: T, o: T)
    requires IsRing(R) && R.mul(i, i) == R.neg(R.one)
    ensures R.mul(R.neg(R.mul(i, u)), R.mul(i, o)) == R.mul(u, o)
    ensures R.mul(R.mul(i, u), R.mul(i, o)) == R.neg(R.mul(u, o))
  {
    var p := R.mul(u, o);
    MulInterchange(R, i, u, i, o);
    MulNeg(R, R.one, p);
    Unit(R, p);
    MulNeg(R, R.mul(i, u), R.mul(i, o));
    NegNeg(R, p);
  }

  function DiddleA<T(!new)>(R: Ring<T>, i: T, half: T, u: T): T {
    R.mul(half, R.sub(R.one, R.mul(i, u)))
  }

  function DiddleB<T(!new)>(R: Ring<T>, i: T, half: T, u: T): T {
    R.mul(half, R.add(R.one, R.mul(i, u)))
  }

  /** With f = e + i o and g = e - i o: A f + B g == e + u o and B f + A g == e - u o. */
  lemma Recombine<T(!new)>(R: Ring<T>, i: T, half: T, u: T, e: T, o: T)
    requires IsRing(R) && R.add(half, half) == R.one && R.mul(i, i) == R.neg(R.one)
    ensures var a, b := DiddleA(R, i, half, u), DiddleB(R, i, half, u);
            var f, g := R.add(e, R.mul(i, o)), R.sub(e, R.mul(i, o));
            && R.add(R.mul(f, a), R.mul(b, g)) == R.add(e, R.mul(u, o))
            && R.add(R.mul(f, b), R.mul(a, g)) == R.sub(e, R.mul(u, o))
  {
    var a, b := DiddleA(R, i, half, u), DiddleB(R, i, half, u);
    var x := R.mul(i, o);
    var f, g := R.add(e, x), R.sub(e, x);
    Halves(R, half, R.mul(i, u));
    SumDiff(R, a, b, e, x);
    SumDiff(R, b, a, e, x);
    TurnBack(R, i, u, o);
    Unit(R, e);
    Commute(R, f, a);
    Commute(R, f, b);
  }

  // ---------- packing ----------

  /** Two real samples as one complex one. */
  function Packed<T(!new)>(R: Ring<T>, i: T, x: seq<T>): (f: seq<T>)
    ensures |f| == |x| / 2
    ensures forall k :: 0 <= k < |x| / 2 ==> f[k] == R.add(x[2 * k], R.mul(i, x[2 * k + 1]))
  {
    seq(|x| / 2, k requires 0 <= k < |x| / 2 => R.add(x[2 * k], R.mul(i, x[2 * k + 1])))
  }

  lemma PackedEval<T(!new)>(R: Ring<T>, i: T, x: seq<T>, z: T)
    requires IsRing(R) && |x| % 2 == 0
    ensures Eval(R, Packed(R, i, x), z) == R.add(Eval(R, Evens(x), z), R.mul(i, Eval(R, Odds(x), z)))
  {
    var e, o := Evens(x), Odds(x);
    forall k | 0 <= k < |x| / 2 ensures Packed(R, i, x)[k] == AddSeq(R, e, Scale(R, i, o))[k] {
      EvensAt(x, k);
    }
    assert Packed(R, i, x) == AddSeq(R, e, Scale(R, i, o));
    EvalAdd(R, e, Scale(R, i, o), z);
    EvalScale(R, i, o, z);
  }

  lemma RealHalves<T(!new)>(C: Conjugation<T>, x: seq<T>)
    requires AllReal(C, x)
    ensures AllReal(C, Evens(x)) && AllReal(C, Odds(x))
  {
    forall k | 0 <= k < |Evens(x)| ensures C.conj(Evens(x)[k]) == Evens(x)[k] {
      EvensAt(x, k);
    }
    forall k | 0 <= k < |Odds(x)| ensures C.conj(Odds(x)[k]) == Odds(x)[k] {
      EvensAt(x, k);
    }
  }

  /** Element k of the half-size transform, and the conjugate of its mirror element. */
  lemma PackedSpectrum<T(!new)>(R: Ring<T>, C: Conjugation<T>, W: Roots<T>, top: nat, p: nat, x: seq<T>, k: nat, m: nat)
    requires IsRoots(R, W, top) && IsConjugation(R, C, W, top) && p <= top
    requires |x| == 2 * Pow2(p) && AllReal(C, x)
    requires k < Pow2(p) && m == if k == 0 then 0 else Pow2(p) - k
    ensures var w := W.fwd(p);
            var e, o := Eval(R, Evens(x), Pow(R, w, k)), Eval(R, Odds(x), Pow(R, w, k));
            && Eval(R, Packed(R, C.i, x), Pow(R, w, k)) == R.add(e, R.mul(C.i, o))
            && C.conj(Eval(R, Packed(R, C.i, x), Pow(R, w, m))) == R.sub(e, R.mul(C.i, o))
  {
    hide Eval, Evens, Odds, Packed, Pow2;
    var w, n := W.fwd(p), Pow2(p);
    PackedEval(R, C.i, x, Pow(R, w, k));
    PackedEval(R, C.i, x, Pow(R, w, m));
    RealHalves(C, x);
    var z := Pow(R, w, m);
    if k == 0 {
      ConjUnits(R, C, W, top);
    } else {
      ConjTurn(R, C, W, top, p, k);
    }
    ConjEval(R, C, W, top, Evens(x), z);
    ConjEval(R, C, W, top, Odds(x), z);
    var e, o := Eval(R, Evens(x), z), Eval(R, Odds(x), z);
    ConjSum(R, C, W, top, e, R.mul(C.i, o));
    ConjSum(R, C, W, top, C.i, o);
    MulNeg(R, C.i, C.conj(o));
  }

  // ---------- the spectrum of a real signal ----------

  /** Element k of the real transform from two elements of the complex one. */
  lemma LowHalf<T(!new)>(R: Ring<T>, C: Conjugation<T>, W: Roots<T>, top: nat, p: nat, x: seq<T>, k: nat, m: nat)
    requires IsRoots(R, W, top) && IsConjugation(R, C, W, top) && p + 1 <= top
    requires |x| == 2 * Pow2(p) && AllReal(C, x)
    requires k < Pow2(p) && m == if k == 0 then 0 else Pow2(p) - k
    ensures var u := Pow(R, W.fwd(p + 1), k);
            var f := Eval(R, Packed(R, C.i, x), Pow(R, W.fwd(p), k));
            var g := C.conj(Eval(R, Packed(R, C.i, x), Pow(R, W.fwd(p), m)));
            var a, b := DiddleA(R, C.i, W.half, u), DiddleB(R, C.i, W.half, u);
            && Eval(R, x, u) == R.add(R.mul(f, a), R.mul(b, g))
            && Eval(R, x, Pow(R, W.fwd(p + 1), Pow2(p) + k)) == R.add(R.mul(f, b), R.mul(a, g))
  {
    hide Eval, Evens, Odds, Packed, Pow2, DiddleA, DiddleB, Pow;
    var w, v := W.fwd(p), W.fwd(p + 1);
    TowerStep(R, W.fwd, top, p + 1);
    HalfTurn(R, W.fwd, top, p + 1);
    PackedSpectrum(R, C, W, top, p, x, k, m);
    DftTop(R, x, v, k);
    DftBottom(R, x, v, Pow2(p), k);
    Recombine(R, C.i, W.half, Pow(R, v, k), Eval(R, Evens(x), Pow(R, w, k)), Eval(R, Odds(x), Pow(R, w, k)));
  }

  /** The other half is the mirror image, conjugated. */
  lemma MirrorHalf<T(!new)>(R: Ring<T>, C: Conjugation<T>, W: Roots<T>, top: nat, s: nat, x: seq<T>, k: nat)
    requires IsRoots(R, W, top) && IsConjugation(R, C, W, top) && s <= top && AllReal(C, x) && k <= Pow2(s)
    ensures C.conj(Eval(R, x, Pow(R, W.fwd(s), Pow2(s) - k))) == Eval(R, x, Pow(R, W.fwd(s), k))
  {
    ConjEval(R, C, W, top, x, Pow(R, W.fwd(s), Pow2(s) - k));
    ConjTurn(R, C, W, top, s, k);
  }

  lemma ConjHalf<T(!new)>(R: Ring<T>, C: Conjugation<T>, W: Roots<T>, top: nat)
    requires IsRoots(R, W, top) && IsConjugation(R, C, W, top)
    ensures C.conj(W.half) == W.half
  {
    var h, g := W.half, C.conj(W.half);
    ConjSum(R, C, W, top, h, h);
    ConjUnits(R, C, W, top);
    Laws3(R, h, g, g);
    MulSum(R, h, h, g);
    Unit(R, h);
    Unit(R, g);
  }

  lemma ConjDiddles<T(!new)>(R: Ring<T>, C: Conjugation<T>, W: Roots<T>, top: nat, u: T)
    requires IsRoots(R, W, top) && IsConjugation(R, C, W, top)
    ensures C.conj(DiddleA(R, C.i, W.half, u)) == DiddleB(R, C.i, W.half, C.conj(u))
    ensures C.conj(DiddleB(R, C.i, W.half, u)) == DiddleA(R, C.i, W.half, C.conj(u))
  {
    var y := R.mul(C.i, u);
    ConjHalf(R, C, W, top);
    ConjUnits(R, C, W, top);
    ConjSum(R, C, W, top, W.half, R.sub(R.one, y));
    ConjSum(R, C, W, top, W.half, R.add(R.one, y));
    ConjSum(R, C, W, top, R.one, R.neg(y));
    ConjSum(R, C, W, top, R.one, y);
    ConjNeg(R, C, W, top, y);
    ConjSum(R, C, W, top, C.i, u);
    MulNeg(R, C.i, C.conj(u));
    NegNeg(R, R.mul(C.i, C.conj(u)));
  }

  /** Element k of the complex transform back from two elements of the real one. */
  lemma Separate<T(!new)>(R: Ring<T>, C: Conjugation<T>, W: Roots<T>, top: nat, p: nat, x: seq<T>, k: nat)
    requires IsRoots(R, W, top) && IsConjugation(R, C, W, top) && p + 1 <= top
    requires |x| == 2 * Pow2(p) && AllReal(C, x) && k < Pow2(p)
    ensures var u := Pow(R, W.fwd(p + 1), k);
            var a, b := DiddleA(R, C.i, W.half, u), DiddleB(R, C.i, W.half, u);
            R.add(R.mul(Eval(R, x, u), C.conj(a)),
                  R.mul(C.conj(b), C.conj(Eval(R, x, Pow(R, W.fwd(p + 1), Pow2(p) - k)))))
              == Eval(R, Packed(R, C.i, x), Pow(R, W.fwd(p), k))
  {
    hide Eval, Evens, Odds, Packed, Pow2, Pow;
    var w, v, u := W.fwd(p), W.fwd(p + 1), Pow(R, W.fwd(p + 1), k);
    var e, o := Eval(R, Evens(x), Pow(R, w, k)), Eval(R, Odds(x), Pow(R, w, k));
    TowerStep(R, W.fwd, top, p + 1);
    HalfTurn(R, W.fwd, top, p + 1);
    DftTop(R, x, v, k);
    DftBottom(R, x, v, Pow2(p), k);
    PowStep(p);
    MirrorHalf(R, C, W, top, p + 1, x, Pow2(p) + k);
    ConjDiddles(R, C, W, top, u);
    PackedEval(R, C.i, x, Pow(R, w, k));
    UnitCircle(R, C, W, top, p + 1, k);
    var c := C.conj(u);
    var a, b := DiddleA(R, C.i, W.half, c), DiddleB(R, C.i, W.half, c);
    Halves(R, W.half, R.mul(C.i, c));
    SumDiff(R, b, a, e, R.mul(u, o));
    Commute(R, R.add(e, R.mul(u, o)), b);
    Unit(R, e);
    Laws3(R, C.i, c, R.mul(u, o));
    Laws3(R, c, u, o);
    Unit(R, o);
  }

  lemma UnitCircle<T(!new)>(R: Ring<T>, C: Conjugation<T>, W: Roots<T>, top: nat, s: nat, k: nat)
    requires IsRoots(R, W, top) && IsConjugation(R, C, W, top) && s <= top
    ensures var u := Pow(R, W.fwd(s), k); R.mul(C.conj(u), u) == R.one
  {
    ConjPow(R, C, W, top, W.fwd(s), k);
    PowOfProduct(R, W.fwd(s), W.bwd(s), k);
    PowOfOne(R, k);
    Commute(R, Pow(R, W.fwd(s), k), Pow(R, W.bwd(s), k));
  }

  /** The real and imaginary parts of a packed sample. */
  lemma Parts<T(!new)>(R: Ring<T>, C: Conjugation<T>, W: Roots<T>, top: nat, a: T, b: T)
    requires IsRoots(R, W, top) && IsConjugation(R, C, W, top) && C.conj(a) == a && C.conj(b) == b
    ensures var z := R.add(a, R.mul(C.i, b)); Re(R, C, W.half, z) == a && Im(R, C, W.half, z) == b
  {
    var x := R.mul(C.i, b);
    var z := R.add(a, x);
    ConjSum(R, C, W, top, a, x);
    ConjSum(R, C, W, top, C.i, b);
    MulNeg(R, C.i, b);
    var zc := R.add(a, R.neg(x));
    Interchange(R, a, x, a, R.neg(x));
    Unit(R, x);
    Unit(R, R.add(a, a));
    HalfDouble(R, W.half, R.one, a);
    Unit(R, W.half);
    Unit(R, a);
    // the difference is 2 i b
    NegAdd(R, a, R.neg(x));
    NegNeg(R, x);
    Interchange(R, a, x, R.neg(a), x);
    Unit(R, R.add(x, x));
    Laws3(R, R.neg(C.i), x, x);
    Laws3(R, R.neg(C.i), C.i, b);
    MulNeg(R, C.i, C.i);
    NegNeg(R, R.one);
    Unit(R, b);
    HalfDouble(R, W.half, R.one, b);
  }

  /** Every element of the half-size spectrum from two elements of the full one. */
  function Rejoined<T(!new)>(R: Ring<T>, conj: T -> T, a: seq<T>, b: seq<T>, x: seq<T>): (F: seq<T>)
    requires |a| == |b| && |x| == 2 * |a|
    ensures |F| == |a|
    ensures forall k :: 0 <= k < |a| ==>
              F[k] == R.add(R.mul(x[k], conj(a[k])), R.mul(conj(b[k]), conj(x[|a| - k])))
  {
    var n := |a|;
    seq(n, k requires 0 <= k < n => R.add(R.mul(x[k], conj(a[k])), R.mul(conj(b[k]), conj(x[n - k]))))
  }

  method RejoinLoop<T(0, !new)>(R: Ring<T>, conj: T -> T, a: seq<T>, b: seq<T>, complex: array<T>) returns (F: array<T>)
    requires |a| == |b| && complex.Length == 2 * |a|
    ensures fresh(F) && F[..] == Rejoined(R, conj, a, b, complex[..])
  {
    ghost var x := complex[..];
    var n := |a|;
    F := new T[n](_ => R.zero);
    for i := 0 to n
      invariant complex[..] == x && F.Length == n
      invariant forall k :: 0 <= k < i ==> F[k] == R.add(R.mul(x[k], conj(a[k])), R.mul(conj(b[k]), conj(x[n - k])))
    {
      F[i] := R.add(R.mul(complex[i], conj(a[i])), R.mul(conj(b[i]), conj(complex[n - i])));
    }
  }

  // ---------- the transforms ----------

  class RealTransforms<T(0, !new)> {
    const R: Ring<T>
    const W: Roots<T>
    const C: Conjugation<T>
    const fft: Jfft<T>
    var diddleA: seq<T>
    var diddleB: seq<T>

    /** The complex transform is set up for half the size, and so are the factors. */
    ghost predicate Ready()
      reads this, fft
    {
      && fft.Ready() && fft.R == R && fft.W == W && fft.nfft_2power + 1 <= fft.top
      && IsConjugation(R, C, W, fft.top)
      && |diddleA| == |diddleB| == fft.nfft
      && forall k :: 0 <= k < fft.nfft ==>
           var u := Pow(R, W.fwd(fft.nfft_2power + 1), k);
           diddleA[k] == DiddleA(R, C.i, W.half, u) && diddleB[k] == DiddleB(R, C.i, W.half, u)
    }

    constructor (fft: Jfft<T>, C: Conjugation<T>)
      requires fft.Ready() && fft.nfft_2power + 1 <= fft.top && IsConjugation(fft.R, C, fft.W, fft.top)
      ensures Ready() && this.fft == fft && this.C == C && R == fft.R && W == fft.W
    {
      this.fft, this.C, R, W := fft, C, fft.R, fft.W;
      var n, p := fft.nfft, fft.nfft_2power;
      var v := fft.W.fwd(p + 1);
      var D, i, half := fft.R, C.i, fft.W.half;
      diddleA := seq(n, k requires 0 <= k < n => DiddleA(D, i, half, Pow(D, v, k)));
      diddleB := seq(n, k requires 0 <= k < n => DiddleB(D, i, half, Pow(D, v, k)));
    }

    /** The full-size spectrum, and the half-size one of the packed signal. */
    ghost function Spectrum(x: seq<T>): (y: seq<T>)
      requires Ready()
      reads this, fft
      ensures |y| == |x|
    {
      Dft(R, x, W.fwd(fft.nfft_2power + 1))
    }

    ghost function HalfSpectrum(x: seq<T>): (y: seq<T>)
      requires Ready()
      reads this, fft
      ensures |y| == |x| / 2
    {
      Dft(R, Packed(R, C.i, x), W.fwd(fft.nfft_2power))
    }

    ghost predicate Fits(x: seq<T>)
      requires Ready()
      reads this, fft
    {
      |x| == 2 * fft.nfft && AllReal(C, x)
    }

    lemma LowElement(x: seq<T>, k: nat, m: nat)
      requires Ready() && Fits(x) && k < fft.nfft && m == if k == 0 then 0 else fft.nfft - k
      ensures var F := HalfSpectrum(x);
              && R.add(R.mul(F[k], diddleA[k]), R.mul(diddleB[k], C.conj(F[m]))) == Spectrum(x)[k]
              && R.add(R.mul(F[k], diddleB[k]), R.mul(diddleA[k], C.conj(F[m]))) == Spectrum(x)[fft.nfft + k]
    {
      hide IsRoots, IsConjugation, AllReal, Table, Eval, Pow, Pow2, DiddleA, DiddleB, Packed;
      LowHalf(R, C, W, fft.top, fft.nfft_2power, x, k, m);
    }

    lemma MirrorElement(x: seq<T>, k: nat)
      requires Ready() && Fits(x) && 1 <= k <= fft.nfft
      ensures C.conj(Spectrum(x)[k]) == Spectrum(x)[2 * fft.nfft - k]
    {
      hide IsRoots, IsConjugation, AllReal, Table, Eval, Pow, Pow2, DiddleA, DiddleB, Packed;
      PowStep(fft.nfft_2power);
      MirrorHalf(R, C, W, fft.top, fft.nfft_2power + 1, x, 2 * fft.nfft - k);
    }

    lemma BackElement(x: seq<T>, k: nat)
      requires Ready() && Fits(x) && k < fft.nfft
      ensures var X := Spectrum(x);
              R.add(R.mul(X[k], C.conj(diddleA[k])), R.mul(C.conj(diddleB[k]), C.conj(X[fft.nfft - k])))
                  == HalfSpectrum(x)[k]
    {
      hide IsRoots, IsConjugation, AllReal, Table, Eval, Pow, Pow2, DiddleA, DiddleB, Packed;
      Separate(R, C, W, fft.top, fft.nfft_2power, x, k);
    }

    /** A real signal of twice the size of the complex transform into its spectrum. */
    method FftReal(signal: array<T>, complex: array<T>)
      requires Ready() && Fits(signal[..]) && complex.Length == 2 * fft.nfft && complex != signal
      modifies complex
      ensures complex[..] == Spectrum(signal[..])
    {
      hide Ready, Spectrum, HalfSpectrum;
      var F := PackAndTransform(signal);
      Diddle(F, complex, signal[..]);
    }

    method PackAndTransform(signal: array<T>) returns (F: array<T>)
      requires Ready() && Fits(signal[..])
      ensures fresh(F) && F[..] == HalfSpectrum(signal[..])
    {
      hide IsRoots, IsConjugation, AllReal, Table, Eval, Pow, Pow2;
      F := new T[fft.nfft](_ => R.zero);
      ghost var x := signal[..];
      for i := 0 to fft.nfft
        invariant F[..i] == Packed(R, C.i, x)[..i]
        invariant signal[..] == x
      {
        F[i] := R.add(signal[2 * i], R.mul(C.i, signal[2 * i + 1]));
      }
      assert F[..] == Packed(R, C.i, x);
      fft.Fft(F, false);
    }

    method Diddle(F: array<T>, complex: array<T>, ghost x: seq<T>)
      requires Ready() && Fits(x) && F[..] == HalfSpectrum(x) && complex.Length == 2 * fft.nfft && F != complex
      modifies complex
      ensures complex[..] == Spectrum(x)
    {
      hide IsRoots, IsConjugation, AllReal, Table, Spectrum, HalfSpectrum, DiddleA, DiddleB, DoneTo;
      ghost var want := Spectrum(x);
      var nfft := fft.nfft;
      LowElement(x, 0, 0);
      complex[0] := R.add(R.mul(F[0], diddleA[0]), R.mul(diddleB[0], C.conj(F[0])));
      complex[nfft] := R.add(R.mul(F[0], diddleB[0]), R.mul(diddleA[0], C.conj(F[0])));
      DoneStart(complex[..], want, nfft);
      for i := 1 to nfft
        invariant F[..] == HalfSpectrum(x) && DoneTo(complex[..], want, nfft, i)
      {
        DiddlePair(F, complex, x, i);
      }
      DoneEnd(complex[..], want, nfft);
    }

    method DiddlePair(F: array<T>, complex: array<T>, ghost x: seq<T>, i: nat)
      requires Ready() && Fits(x) && F[..] == HalfSpectrum(x) && complex.Length == 2 * fft.nfft && F != complex
      requires 1 <= i < fft.nfft && DoneTo(complex[..], Spectrum(x), fft.nfft, i)
      modifies complex
      ensures DoneTo(complex[..], Spectrum(x), fft.nfft, i + 1)
    {
      hide IsRoots, IsConjugation, AllReal, Table, Spectrum, HalfSpectrum, DiddleA, DiddleB, DoneTo;
      ghost var want, was := Spectrum(x), complex[..];
      var nfft, NpN := fft.nfft, 2 * fft.nfft;
      LowElement(x, i, nfft - i);
      MirrorElement(x, i);
      DoneStep(complex[..], want, nfft, i);
      complex[i] := R.add(R.mul(F[i], diddleA[i]), R.mul(diddleB[i], C.conj(F[nfft - i])));
      complex[NpN - i] := C.conj(complex[i]);
      assert complex[..] == was[i := want[i]][NpN - i := want[NpN - i]];
    }

    /** What the inverse makes of any spectrum before its complex transform. */
    function Recombined(complex: seq<T>): (F: seq<T>)
      requires |complex| == 2 * fft.nfft == 2 * |diddleA| == 2 * |diddleB|
      reads this, fft
      ensures |F| == fft.nfft
    {
      Rejoined(R, C.conj, diddleA, diddleB, complex)
    }

    /** The real and imaginary parts of every element, in turn. */
    function Split(f: seq<T>): (x: seq<T>)
      ensures |x| == 2 * |f|
      ensures forall k :: 0 <= k < |f| ==> x[2 * k] == Re(R, C, W.half, f[k]) && x[2 * k + 1] == Im(R, C, W.half, f[k])
    {
      if f == [] then []
      else
        var n := |f| - 1;
        Split(f[..n]) + [Re(R, C, W.half, f[n]), Im(R, C, W.half, f[n])]
    }

    /** A spectrum back into a real signal. */
    method IfftReal(complex: array<T>, signal: array<T>)
      requires Ready() && complex.Length == signal.Length == 2 * fft.nfft
      modifies signal
      ensures signal[..] == Split(fft.Transform(Recombined(old(complex[..])), true))
    {
      hide IsRoots, IsConjugation, Table, Split, Rejoined;
      var F := RejoinLoop(R, C.conj, diddleA, diddleB, complex);
      fft.Fft(F, true);
      Join(F, signal);
    }

    method Join(F: array<T>, signal: array<T>)
      requires signal.Length == 2 * F.Length && F != signal
      modifies signal
      ensures signal[..] == Split(F[..])
    {
      ghost var f := F[..];
      for i := 0 to F.Length
        invariant F[..] == f && signal[..2 * i] == Split(f[..i])
      {
        signal[2 * i] := Re(R, C, W.half, F[i]);
        signal[2 * i + 1] := Im(R, C, W.half, F[i]);
        assert f[..i + 1][..i] == f[..i];
        assert signal[..2 * (i + 1)] == signal[..2 * i] + [signal[2 * i], signal[2 * i + 1]];
      }
      assert f[..F.Length] == f;
    }

    /** The real inverse undoes the real transform. */
    lemma RealInverse(x: seq<T>)
      requires Ready() && Fits(x)
      ensures Split(fft.Transform(Recombined(Spectrum(x)), true)) == x
    {
      hide Spectrum, HalfSpectrum, IsRoots, IsConjugation, AllReal, Table, Split, DiddleA, DiddleB;
      var X := Spectrum(x);
      forall k | 0 <= k < fft.nfft ensures Recombined(X)[k] == HalfSpectrum(x)[k] {
        BackElement(x, k);
      }
      assert Recombined(X) == HalfSpectrum(x);
      BackToPacked(x);
      SplitPacked(x);
    }

    lemma BackToPacked(x: seq<T>)
      requires Ready() && Fits(x)
      ensures fft.Transform(HalfSpectrum(x), true) == Packed(R, C.i, x)
    {
      hide IsRoots, IsConjugation, AllReal, Table, DiddleA, DiddleB;
      fft.InverseUndoesForward(Packed(R, C.i, x));
    }

    lemma SplitPacked(x: seq<T>)
      requires IsRoots(R, W, fft.top) && IsConjugation(R, C, W, fft.top) && AllReal(C, x) && |x| % 2 == 0
      ensures Split(Packed(R, C.i, x)) == x
    {
      hide IsRoots, IsConjugation, Re, Im;
      var y := Split(Packed(R, C.i, x));
      forall k | 0 <= k < |x| / 2 ensures y[2 * k] == x[2 * k] && y[2 * k + 1] == x[2 * k + 1] {
        Parts(R, C, W, fft.top, x[2 * k], x[2 * k + 1]);
      }
      Halved(y, x);
    }
  }

  lemma Halved<T>(a: seq<T>, b: seq<T>)
    requires |a| == |b| && |a| % 2 == 0
    requires forall k :: 0 <= k < |a| / 2 ==> a[2 * k] == b[2 * k] && a[2 * k + 1] == b[2 * k + 1]
    ensures a == b
  {
    forall j | 0 <= j < |a| ensures a[j] == b[j] {
      assert 2 * (j / 2) == j || 2 * (j / 2) + 1 == j;
      var k := j / 2;
      assert a[2 * k] == b[2 * k] && a[2 * k + 1] == b[2 * k + 1];
    }
  }

  // ---------- filling from both ends ----------

  ghost predicate DoneTo<T>(a: seq<T>, want: seq<T>, n: nat, i: nat)
    requires |a| == |want| == 2 * n && n > 0
  {
    forall k :: 0 <= k < 2 * n && (k < i || k == n || k > 2 * n - i) ==> a[k] == want[k]
  }

  lemma DoneStart<T>(a: seq<T>, want: seq<T>, n: nat)
    requires |a| == |want| == 2 * n && n > 0 && a[0] == want[0] && a[n] == want[n]
    ensures DoneTo(a, want, n, 1)
  {
  }

  lemma DoneStep<T>(a: seq<T>, want: seq<T>, n: nat, i: nat)
    requires |a| == |want| == 2 * n && 1 <= i < n && DoneTo(a, want, n, i)
    ensures DoneTo(a[i := want[i]][2 * n - i := want[2 * n - i]], want, n, i + 1)
  {
  }

  lemma DoneEnd<T>(a: seq<T>, want: seq<T>, n: nat)
    requires |a| == |want| == 2 * n && n > 0 && DoneTo(a, want, n, n)
    ensures a == want
  {
  }

  // ---------- an instance ----------

  function QuarterTurns<T(!new)>(R: Ring<T>, i: T, half: T): Roots<T> {
    Roots(s => if s == 0 then R.one else if s == 1 then R.neg(R.one) else R.neg(i),
          s => if s == 0 then R.one else if s == 1 then R.neg(R.one) else i, half)
  }

  /** An imaginary unit and a half give roots of unity up to order four, turned round by conjugation. */
  lemma QuarterTurnsAreRoots<T(!new)>(R: Ring<T>, C: Conjugation<T>, half: T)
    requires IsRing(R) && IsInvolution(R, C) && R.add(half, half) == R.one
    ensures IsRoots(R, QuarterTurns(R, C.i, half), 2) && IsConjugation(R, C, QuarterTurns(R, C.i, half), 2)
  {
    QuarterSquares(R, C.i);
    var W := QuarterTurns(R, C.i, half);
    var none := Roots(s => R.one, s => C.conj(R.one), half);
    ConjUnits(R, C, none, 0);
    ConjNeg(R, C, none, 0, R.one);
    ConjNeg(R, C, none, 0, C.i);
    NegNeg(R, C.i);
    hide IsRing, IsInvolution;
  }

  lemma QuarterSquares<T(!new)>(R: Ring<T>, i: T)
    requires IsRing(R) && R.mul(i, i) == R.neg(R.one)
    ensures R.mul(R.one, R.one) == R.one && R.mul(R.neg(R.one), R.neg(R.one)) == R.one
    ensures R.mul(R.neg(i), R.neg(i)) == R.neg(R.one) && R.mul(R.neg(i), i) == R.one
  {
    Unit(R, R.one);
    MulNeg(R, R.neg(R.one), R.one);
    NegNeg(R, R.one);
    Unit(R, R.neg(R.one));
    MulNeg(R, R.neg(i), i);
    MulNeg(R, i, i);
    NegNeg(R, R.mul(i, i));
  }

  function Conjugate(z: Complex): Complex {
    Complex(z.re, -z.im)
  }

  const CONJUGATE: Conjugation<Complex> := Conjugation(Conjugate, Complex(0.0, 1.0))

  /** What is assumed of conjugation holds of the complex numbers. */
  lemma ComplexConjugation()
    ensures IsInvolution(COMPLEX, CONJUGATE)
  {
    ImaginaryUnit();
    hide Times, Plus, Minus, Conjugate;
    var R, C := COMPLEX, CONJUGATE;
    forall a: Complex, b: Complex {:trigger At2(a, b)} | At2(a, b)
      ensures C.conj(R.add(a, b)) == R.add(C.conj(a), C.conj(b)) && C.conj(R.mul(a, b)) == R.mul(C.conj(a), C.conj(b))
    {
      ConjugateLaws(a, b);
    }
    forall a: Complex {:trigger At1(a)} | At1(a) ensures C.conj(C.conj(a)) == a {
      ConjugateLaws(a, a);
    }
  }

  lemma ImaginaryUnit()
    ensures COMPLEX.mul(CONJUGATE.i, CONJUGATE.i) == COMPLEX.neg(COMPLEX.one)
    ensures CONJUGATE.conj(CONJUGATE.i) == COMPLEX.neg(CONJUGATE.i)
  {
    hide Times;
    TimesOf(0.0, 1.0, 0.0, 1.0);
  }

  lemma TimesOf(a: real, b: real, c: real, d: real)
    ensures Times(Complex(a, b), Complex(c, d)) == Complex(a * c - b * d, a * d + b * c)
  {
  }

  lemma ConjugateLaws(a: Complex, b: Complex)
    ensures Conjugate(Plus(a, b)) == Plus(Conjugate(a), Conjugate(b))
    ensures Conjugate(Times(a, b)) == Times(Conjugate(a), Conjugate(b))
    ensures Conjugate(Conjugate(a)) == a
  {
    assert a.re * -b.im == -(a.re * b.im);
    assert -a.im * b.re == -(a.im * b.re);
    assert -a.im * -b.im == a.im * b.im;
  }
}
