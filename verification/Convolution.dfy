/** Linear convolution by its definition, and its transform. */
module Convolution {
  import opened Rings
  import opened Poly

  /** Sample j of a stream that is zero before its start and after its end. */
  function At<T(!new)>(R: Ring<T>, x: seq<T>, j: int): T {
    if 0 <= j < |x| then x[j] else R.zero
  }

  /** h[0] x[j] + h[1] x[j-1] + ... + h[K-1] x[j-K+1] */
  function ConvAt<T(!new)>(R: Ring<T>, h: seq<T>, x: seq<T>, j: int): T {
    if h == [] then R.zero else R.add(R.mul(h[0], At(R, x, j)), ConvAt(R, h[1..], x, j - 1))
  }

  function Conv<T(!new)>(R: Ring<T>, h: seq<T>, x: seq<T>, n: nat): (y: seq<T>)
    ensures |y| == n && forall j :: 0 <= j < n ==> y[j] == ConvAt(R, h, x, j)
  {
    seq(n, j requires 0 <= j < n => ConvAt(R, h, x, j))
  }

  // ---------- where it is zero ----------

  /** Nothing comes out before the first input or once the last has left the kernel. */
  lemma {:induction false} ConvOutside<T(!new)>(R: Ring<T>, h: seq<T>, x: seq<T>, j: int)
    requires IsRing(R) && (j < 0 || j >= |x| + |h| - 1)
    ensures ConvAt(R, h, x, j) == R.zero
  {
    if h != [] {
      MulZero(R, h[0]);
      Unit(R, R.zero);
      ConvOutside(R, h[1..], x, j - 1);
    }
  }

  /** What comes after sample j does not matter to output j. */
  lemma {:induction false} ConvCausal<T(!new)>(R: Ring<T>, h: seq<T>, x: seq<T>, y: seq<T>, j: int)
    requires j < |x|
    ensures ConvAt(R, h, x + y, j) == ConvAt(R, h, x, j)
  {
    if h != [] {
      ConvCausal(R, h[1..], x, y, j - 1);
    }
  }

  /** Overlap-add: the parts of a stream contribute separately. */
  lemma {:induction false} ConvConcat<T(!new)>(R: Ring<T>, h: seq<T>, x: seq<T>, y: seq<T>, j: int)
    requires IsRing(R)
    ensures ConvAt(R, h, x + y, j) == R.add(ConvAt(R, h, x, j), ConvAt(R, h, y, j - |x|))
  {
    if h == [] {
      Unit(R, R.zero);
    } else {
      ConvConcat(R, h[1..], x, y, j - 1);
      var a, b := At(R, x, j), At(R, y, j - |x|);
      Unit(R, a);
      Unit(R, b);
      assert At(R, x + y, j) == R.add(a, b);
      Laws3(R, h[0], a, b);
      Interchange(R, R.mul(h[0], a), R.mul(h[0], b), ConvAt(R, h[1..], x, j - 1), ConvAt(R, h[1..], y, j - |x| - 1));
    }
  }

  // ---------- its values as a polynomial ----------

  function Padded<T(!new)>(R: Ring<T>, x: seq<T>, n: nat): (y: seq<T>)
    requires |x| <= n
    ensures |y| == n
  {
    x + ZeroSeq(R, n - |x|)
  }

  lemma EvalPadded<T(!new)>(R: Ring<T>, x: seq<T>, n: nat, z: T)
    requires IsRing(R) && |x| <= n
    ensures Eval(R, Padded(R, x, n), z) == Eval(R, x, z)
  {
    EvalConcat(R, x, ZeroSeq(R, n - |x|), z);
    EvalZeros(R, n - |x|, z);
    MulZero(R, Pow(R, z, |x|));
    Unit(R, Eval(R, x, z));
  }

  lemma ConvRow<T(!new)>(R: Ring<T>, h: seq<T>, x: seq<T>, n: nat)
    requires IsRing(R) && h != [] && |x| <= n && n > 0
    ensures Conv(R, h, x, n) == AddSeq(R, Scale(R, h[0], Padded(R, x, n)), [R.zero] + Conv(R, h[1..], x, n - 1))
  {
    ConvOutside(R, h[1..], x, -1);
  }

  /** The convolution of h and x, long enough to hold all of it, is their product as polynomials. */
  lemma {:induction false} EvalConv<T(!new)>(R: Ring<T>, h: seq<T>, x: seq<T>, n: nat, z: T)
    requires IsRing(R) && h != [] && |h| + |x| <= n + 1
    ensures Eval(R, Conv(R, h, x, n), z) == R.mul(Eval(R, h, z), Eval(R, x, z))
  {
    if n == 0 {
      assert x == [] && |h| == 1;
      MulZero(R, Eval(R, h, z));
    } else {
      var t, p := h[1..], Eval(R, x, z);
      var rest := Conv(R, t, x, n - 1);
      ConvRow(R, h, x, n);
      EvalAdd(R, Scale(R, h[0], Padded(R, x, n)), [R.zero] + rest, z);
      EvalScale(R, h[0], Padded(R, x, n), z);
      EvalPadded(R, x, n, z);
      assert ([R.zero] + rest)[1..] == rest;
      Unit(R, R.mul(z, Eval(R, rest, z)));
      if t == [] {
        assert rest == ZeroSeq(R, n - 1);
        EvalZeros(R, n - 1, z);
        MulZero(R, z);
        MulZero(R, p);
      } else {
        EvalConv(R, t, x, n - 1, z);
      }
      Laws3(R, z, Eval(R, t, z), p);
      MulSum(R, h[0], R.mul(z, Eval(R, t, z)), p);
      assert Eval(R, rest, z) == R.mul(Eval(R, t, z), p);
    }
  }

  /** The product of the two spectra, element by element. */
  function Product<T(!new)>(R: Ring<T>, a: seq<T>, b: seq<T>): (c: seq<T>)
    requires |a| == |b|
    ensures |c| == |a| && forall k :: 0 <= k < |a| ==> c[k] == R.mul(a[k], b[k])
  {
    seq(|a|, k requires 0 <= k < |a| => R.mul(a[k], b[k]))
  }

  /** The convolution theorem: with enough room for both, the spectra multiply. */
  lemma SpectraMultiply<T(!new)>(R: Ring<T>, h: seq<T>, x: seq<T>, n: nat, w: T)
    requires IsRing(R) && h != [] && |h| + |x| <= n + 1 && |h| <= n && |x| <= n
    ensures Product(R, Dft(R, Padded(R, x, n), w), Dft(R, Padded(R, h, n), w)) == Dft(R, Conv(R, h, x, n), w)
  {
    hide Conv, Padded, Eval, IsRing;
    forall k | 0 <= k < n
      ensures Product(R, Dft(R, Padded(R, x, n), w), Dft(R, Padded(R, h, n), w))[k] == Dft(R, Conv(R, h, x, n), w)[k]
    {
      var z := Pow(R, w, k);
      EvalConv(R, h, x, n, z);
      EvalPadded(R, x, n, z);
      EvalPadded(R, h, n, z);
      Commute(R, Eval(R, x, z), Eval(R, h, z));
    }
  }
}
