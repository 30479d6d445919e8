/** The Fourier transform of a vector whose length is a power of two.

    It splits into two transforms of half the size, and the inverse transform undoes it; both follow from
    what roots of unity do at half a turn and at a whole one. */
module Fourier {
  import opened Bits
  import opened Rings
  import opened Poly

  /** exp(-2 pi i / 2^s) and exp(2 pi i / 2^s) for s up to some bound, and 1/2. */
  datatype Roots<!T(!new)> = Roots(fwd: nat -> T, bwd: nat -> T, half: T)

  /** f(s) is a root of unity of order 2^s, each the square of the next. */
  ghost predicate IsTower<T(!new)>(R: Ring<T>, f: nat -> T, top: nat) {
    && f(0) == R.one
    && (top >= 1 ==> f(1) == R.neg(R.one))
    && forall s: nat {:trigger Order(s)} :: Order(s) && 1 <= s <= top ==> f(s - 1) == R.mul(f(s), f(s))
  }

  // Marks the orders at which the squares are wanted.
  ghost predicate Order(s: nat) { true }

  ghost predicate IsRoots<T(!new)>(R: Ring<T>, W: Roots<T>, top: nat) {
    && IsRing(R)
    && IsTower(R, W.fwd, top) && IsTower(R, W.bwd, top)
    && (forall s: nat :: s <= top ==> R.mul(W.fwd(s), W.bwd(s)) == R.one)
    && R.add(W.half, W.half) == R.one
  }

  /** Half a turn is minus one. */
  lemma {:induction false} HalfTurn<T(!new)>(R: Ring<T>, f: nat -> T, top: nat, s: nat)
    requires IsRing(R) && IsTower(R, f, top) && 1 <= s <= top
    ensures Pow(R, f(s), Pow2(s - 1)) == R.neg(R.one)
  {
    if s == 1 {
      Unit(R, f(1));
      assert Pow(R, f(1), 1) == R.mul(f(1), Pow(R, f(1), 0));
    } else {
      HalfTurn(R, f, top, s - 1);
      assert Order(s);
      PowSquare(R, f(s), Pow2(s - 2));
    }
  }

  /** A whole turn is one. */
  lemma FullTurn<T(!new)>(R: Ring<T>, f: nat -> T, top: nat, s: nat)
    requires IsRing(R) && IsTower(R, f, top) && s <= top
    ensures Pow(R, f(s), Pow2(s)) == R.one
  {
    if s == 0 {
      Unit(R, R.one);
      assert Pow(R, f(0), 1) == R.mul(f(0), Pow(R, f(0), 0));
    } else {
      HalfTurn(R, f, top, s);
      PowAdd(R, f(s), Pow2(s - 1), Pow2(s - 1));
      MulNeg(R, R.neg(R.one), R.one);
      NegNeg(R, R.one);
      Unit(R, R.one);
      Unit(R, R.neg(R.one));
    }
  }

  // ---------- splitting ----------

  /** Butterflies over two half-size transforms: the top halves, and the bottom halves. */
  function Tops<T(!new)>(R: Ring<T>, e: seq<T>, o: seq<T>, w: T): (y: seq<T>)
    requires |e| == |o|
    ensures |y| == |e| && forall k :: 0 <= k < |e| ==> y[k] == R.add(e[k], R.mul(Pow(R, w, k), o[k]))
  {
    seq(|e|, k requires 0 <= k < |e| => R.add(e[k], R.mul(Pow(R, w, k), o[k])))
  }

  function Bottoms<T(!new)>(R: Ring<T>, e: seq<T>, o: seq<T>, w: T): (y: seq<T>)
    requires |e| == |o|
    ensures |y| == |e| && forall k :: 0 <= k < |e| ==> y[k] == R.sub(e[k], R.mul(Pow(R, w, k), o[k]))
  {
    seq(|e|, k requires 0 <= k < |e| => R.sub(e[k], R.mul(Pow(R, w, k), o[k])))
  }

  function Combine<T(!new)>(R: Ring<T>, e: seq<T>, o: seq<T>, w: T): (y: seq<T>)
    requires |e| == |o|
    ensures |y| == 2 * |e|
  {
    Tops(R, e, o, w) + Bottoms(R, e, o, w)
  }

  lemma DftTop<T(!new)>(R: Ring<T>, x: seq<T>, w: T, k: nat)
    requires IsRing(R)
    ensures Eval(R, x, Pow(R, w, k))
         == R.add(Eval(R, Evens(x), Pow(R, R.mul(w, w), k)),
                  R.mul(Pow(R, w, k), Eval(R, Odds(x), Pow(R, R.mul(w, w), k))))
  {
    PowOfProduct(R, w, w, k);
    EvalSplit(R, x, Pow(R, w, k));
  }

  lemma DftBottom<T(!new)>(R: Ring<T>, x: seq<T>, w: T, m: nat, k: nat)
    requires IsRing(R) && Pow(R, w, m) == R.neg(R.one)
    ensures Eval(R, x, Pow(R, w, m + k))
         == R.sub(Eval(R, Evens(x), Pow(R, R.mul(w, w), k)),
                  R.mul(Pow(R, w, k), Eval(R, Odds(x), Pow(R, R.mul(w, w), k))))
  {
    var z := Pow(R, w, k);
    PowOfProduct(R, w, w, k);
    PowAdd(R, w, m, k);
    MulNeg(R, R.one, z);
    Unit(R, z);
    SquareOfNeg(R, z);
    EvalSplit(R, x, R.neg(z));
    MulNeg(R, z, Eval(R, Odds(x), R.mul(z, z)));
  }

  lemma DftSplit<T(!new)>(R: Ring<T>, x: seq<T>, w: T, m: nat)
    requires IsRing(R) && |x| == 2 * m && Pow(R, w, m) == R.neg(R.one)
    ensures Dft(R, x, w) == Combine(R, Dft(R, Evens(x), R.mul(w, w)), Dft(R, Odds(x), R.mul(w, w)), w)
  {
    hide Eval, Pow, Evens, Odds, IsRing, Combine;
    var ww := R.mul(w, w);
    var e, o := Dft(R, Evens(x), ww), Dft(R, Odds(x), ww);
    forall j | 0 <= j < 2 * m ensures Dft(R, x, w)[j] == Combine(R, e, o, w)[j] {
      CombineAt(R, e, o, w, j);
      if j < m {
        DftTop(R, x, w, j);
      } else {
        DftBottom(R, x, w, m, j - m);
      }
    }
  }

  lemma CombineAt<T(!new)>(R: Ring<T>, e: seq<T>, o: seq<T>, w: T, j: nat)
    requires |e| == |o| && j < 2 * |e|
    ensures j < |e| ==> Combine(R, e, o, w)[j] == R.add(e[j], R.mul(Pow(R, w, j), o[j]))
    ensures j >= |e| ==>
              Combine(R, e, o, w)[j] == R.sub(e[j - |e|], R.mul(Pow(R, w, j - |e|), o[j - |e|]))
  {
  }

  lemma SquareOfNeg<T(!new)>(R: Ring<T>, z: T)
    requires IsRing(R)
    ensures R.mul(R.neg(z), R.neg(z)) == R.mul(z, z)
  {
    MulNeg(R, R.neg(z), z);
    MulNeg(R, z, z);
    NegNeg(R, R.mul(z, z));
  }

  // ---------- the inverse ----------

  lemma {:induction false} PowSwap<T(!new)>(R: Ring<T>, a: T, j: nat, m: nat)
    requires IsRing(R)
    ensures Pow(R, Pow(R, a, j), m) == Pow(R, Pow(R, a, m), j)
  {
    if j == 0 {
      PowOfOne(R, m);
    } else {
      PowSwap(R, a, j - 1, m);
      PowOfProduct(R, a, Pow(R, a, j - 1), m);
    }
  }

  lemma {:induction false} SignPow<T(!new)>(R: Ring<T>, i: nat)
    requires IsRing(R)
    ensures Pow(R, R.neg(R.one), 2 * i) == R.one && Pow(R, R.neg(R.one), 2 * i + 1) == R.neg(R.one)
  {
    var n := R.neg(R.one);
    SquareOfNeg(R, R.one);
    Unit(R, R.one);
    PowSquare(R, n, i);
    PowOfOne(R, i);
    Unit(R, n);
  }

  /** Half of the double. */
  lemma HalfDouble<T(!new)>(R: Ring<T>, half: T, h: T, d: T)
    requires IsRing(R) && R.add(half, half) == R.one
    ensures R.mul(R.mul(half, h), R.add(d, d)) == R.mul(h, d)
  {
    Commute(R, half, h);
    Laws3(R, h, half, R.add(d, d));
    Laws3(R, half, d, d);
    MulSum(R, half, half, d);
    Unit(R, d);
  }

  /** Tops plus bottoms is twice the even part. */
  lemma TopsPlusBottoms<T(!new)>(R: Ring<T>, e: seq<T>, o: seq<T>, w: T)
    requires IsRing(R) && |e| == |o|
    ensures AddSeq(R, Tops(R, e, o, w), Bottoms(R, e, o, w)) == AddSeq(R, e, e)
  {
    forall k | 0 <= k < |e|
      ensures R.add(Tops(R, e, o, w)[k], Bottoms(R, e, o, w)[k]) == R.add(e[k], e[k])
    {
      var t := R.mul(Pow(R, w, k), o[k]);
      Interchange(R, e[k], t, e[k], R.neg(t));
      Unit(R, t);
      Unit(R, R.add(e[k], e[k]));
    }
  }

  /** Tops minus bottoms is twice the odd part, twisted. */
  lemma TopsMinusBottoms<T(!new)>(R: Ring<T>, e: seq<T>, o: seq<T>, w: T)
    requires IsRing(R) && |e| == |o|
    ensures AddSeq(R, Tops(R, e, o, w), Scale(R, R.neg(R.one), Bottoms(R, e, o, w))) == Twist(R, AddSeq(R, o, o), w)
  {
    forall k | 0 <= k < |e|
      ensures R.add(Tops(R, e, o, w)[k], R.mul(R.neg(R.one), Bottoms(R, e, o, w)[k]))
           == R.mul(Pow(R, w, k), R.add(o[k], o[k]))
    {
      var p := Pow(R, w, k);
      var t := R.mul(p, o[k]);
      var b := R.sub(e[k], t);
      MulNeg(R, R.one, b);
      Unit(R, b);
      NegAdd(R, e[k], R.neg(t));
      NegNeg(R, t);
      Interchange(R, e[k], t, R.neg(e[k]), t);
      Unit(R, e[k]);
      Unit(R, R.add(t, t));
      Laws3(R, p, o[k], o[k]);
    }
  }

  /** The transform of a transform, at an even and at an odd place. */
  lemma EvenPlace<T(!new)>(R: Ring<T>, e: seq<T>, o: seq<T>, w: T, z: T)
    requires IsRing(R) && |e| == |o| && Pow(R, z, |e|) == R.one
    ensures Eval(R, Combine(R, e, o, w), z) == R.add(Eval(R, e, z), Eval(R, e, z))
  {
    EvalConcat(R, Tops(R, e, o, w), Bottoms(R, e, o, w), z);
    Unit(R, Eval(R, Bottoms(R, e, o, w), z));
    EvalAdd(R, Tops(R, e, o, w), Bottoms(R, e, o, w), z);
    TopsPlusBottoms(R, e, o, w);
    EvalAdd(R, e, e, z);
  }

  lemma OddPlace<T(!new)>(R: Ring<T>, e: seq<T>, o: seq<T>, w: T, z: T)
    requires IsRing(R) && |e| == |o| && Pow(R, z, |e|) == R.neg(R.one)
    ensures Eval(R, Combine(R, e, o, w), z) == R.add(Eval(R, o, R.mul(w, z)), Eval(R, o, R.mul(w, z)))
  {
    var t, b := Tops(R, e, o, w), Bottoms(R, e, o, w);
    EvalConcat(R, t, b, z);
    EvalScale(R, R.neg(R.one), b, z);
    EvalAdd(R, t, Scale(R, R.neg(R.one), b), z);
    TopsMinusBottoms(R, e, o, w);
    EvalTwist(R, AddSeq(R, o, o), w, z);
    EvalAdd(R, o, o, R.mul(w, z));
  }

  lemma EvenStep<T(!new)>(R: Ring<T>, x: seq<T>, w: T, v: T, half: T, h: T, m: nat, i: nat)
    requires IsRing(R) && |x| == 2 * m && R.add(half, half) == R.one
    requires Pow(R, w, m) == R.neg(R.one) && Pow(R, v, m) == R.neg(R.one)
    ensures R.mul(R.mul(half, h), Eval(R, Dft(R, x, w), Pow(R, v, 2 * i)))
         == R.mul(h, Eval(R, Dft(R, Evens(x), R.mul(w, w)), Pow(R, R.mul(v, v), i)))
  {
    hide Eval, Dft, Combine, Evens, Odds, IsRing;
    DftSplit(R, x, w, m);
    var e, o := Dft(R, Evens(x), R.mul(w, w)), Dft(R, Odds(x), R.mul(w, w));
    PowSwap(R, v, 2 * i, m);
    SignPow(R, i);
    EvenPlace(R, e, o, w, Pow(R, v, 2 * i));
    PowSquare(R, v, i);
    HalfDouble(R, half, h, Eval(R, e, Pow(R, v, 2 * i)));
  }

  lemma OddStep<T(!new)>(R: Ring<T>, x: seq<T>, w: T, v: T, half: T, h: T, m: nat, i: nat)
    requires IsRing(R) && |x| == 2 * m && R.add(half, half) == R.one && R.mul(w, v) == R.one
    requires Pow(R, w, m) == R.neg(R.one) && Pow(R, v, m) == R.neg(R.one)
    ensures R.mul(R.mul(half, h), Eval(R, Dft(R, x, w), Pow(R, v, 2 * i + 1)))
         == R.mul(h, Eval(R, Dft(R, Odds(x), R.mul(w, w)), Pow(R, R.mul(v, v), i)))
  {
    hide Eval, Dft, Combine, Evens, Odds, IsRing;
    DftSplit(R, x, w, m);
    var e, o := Dft(R, Evens(x), R.mul(w, w)), Dft(R, Odds(x), R.mul(w, w));
    PowSwap(R, v, 2 * i + 1, m);
    SignPow(R, i);
    OddPlace(R, e, o, w, Pow(R, v, 2 * i + 1));
    PowSquare(R, v, i);
    Laws3(R, w, v, Pow(R, v, 2 * i));
    Unit(R, Pow(R, v, 2 * i));
    HalfDouble(R, half, h, Eval(R, o, Pow(R, v, 2 * i)));
  }

  /** The scaled backward transform undoes the forward one, place by place. */
  lemma {:induction false} InverseAt<T(!new)>(R: Ring<T>, f: nat -> T, g: nat -> T, half: T, top: nat, p: nat,
      x: seq<T>, j: nat)
    requires IsRing(R) && IsTower(R, f, top) && IsTower(R, g, top) && R.add(half, half) == R.one
    requires forall s: nat :: s <= top ==> R.mul(f(s), g(s)) == R.one
    requires p <= top && |x| == Pow2(p) && j < |x|
    ensures R.mul(Pow(R, half, p), Eval(R, Dft(R, x, f(p)), Pow(R, g(p), j))) == x[j]
    decreases p
  {
    hide Eval, Dft, Evens, Odds, IsRing;
    if p == 0 {
      DftOfOne(R, x, f(0));
      Singleton(R, x, Pow(R, g(0), j));
      Unit(R, x[0]);
    } else {
      var m, i := Pow2(p - 1), j / 2;
      TowerStep(R, f, top, p);
      TowerStep(R, g, top, p);
      HalfTurn(R, f, top, p);
      HalfTurn(R, g, top, p);
      EvensAt(x, i);
      if j == 2 * i {
        InverseAt(R, f, g, half, top, p - 1, Evens(x), i);
        EvenStep(R, x, f(p), g(p), half, Pow(R, half, p - 1), m, i);
      } else {
        assert j == 2 * i + 1;
        InverseAt(R, f, g, half, top, p - 1, Odds(x), i);
        OddStep(R, x, f(p), g(p), half, Pow(R, half, p - 1), m, i);
      }
    }
  }

  lemma TowerStep<T(!new)>(R: Ring<T>, f: nat -> T, top: nat, s: nat)
    requires IsTower(R, f, top) && 1 <= s <= top
    ensures f(s - 1) == R.mul(f(s), f(s))
  {
    assert Order(s);
  }

  lemma DftOfOne<T(!new)>(R: Ring<T>, x: seq<T>, w: T)
    requires IsRing(R) && |x| == 1
    ensures Dft(R, x, w) == x
  {
    Singleton(R, x, Pow(R, w, 0));
  }

  lemma Singleton<T(!new)>(R: Ring<T>, x: seq<T>, z: T)
    requires IsRing(R) && |x| == 1
    ensures Eval(R, x, z) == x[0]
  {
    MulZero(R, z);
    Unit(R, x[0]);
    assert Eval(R, x[1..], z) == R.zero;
  }

  /** Forward, then backward and scaled by 1/2^p: the identity. */
  lemma InverseUndoes<T(!new)>(R: Ring<T>, f: nat -> T, g: nat -> T, half: T, top: nat, p: nat, x: seq<T>)
    requires IsRing(R) && IsTower(R, f, top) && IsTower(R, g, top) && R.add(half, half) == R.one
    requires forall s: nat :: s <= top ==> R.mul(f(s), g(s)) == R.one
    requires p <= top && |x| == Pow2(p)
    ensures Scale(R, Pow(R, half, p), Dft(R, Dft(R, x, f(p)), g(p))) == x
  {
    hide Pow, Eval, IsTower, IsRing;
    forall j | 0 <= j < |x| ensures Scale(R, Pow(R, half, p), Dft(R, Dft(R, x, f(p)), g(p)))[j] == x[j] {
      InverseAt(R, f, g, half, top, p, x, j);
    }
  }
}
