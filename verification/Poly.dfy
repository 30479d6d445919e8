/** Sequences as polynomials.

    The discrete Fourier transform of x is the values of x at the powers of a root of unity, which is the
    definition that JFFT::sft sums up term by term. */
module Poly {
  import opened Rings

  /** x[0] + x[1] z + x[2] z^2 + ... */
  function Eval<T(!new)>(R: Ring<T>, x: seq<T>, z: T): T {
    if x == [] then R.zero else R.add(x[0], R.mul(z, Eval(R, x[1..], z)))
  }

  function Dft<T(!new)>(R: Ring<T>, x: seq<T>, w: T): (y: seq<T>)
    ensures |y| == |x|
  {
    seq(|x|, k requires 0 <= k < |x| => Eval(R, x, Pow(R, w, k)))
  }

  function Evens<T>(x: seq<T>): (y: seq<T>)
    ensures |y| == (|x| + 1) / 2
  {
    if x == [] then [] else [x[0]] + Odds(x[1..])
  }

  function Odds<T>(x: seq<T>): (y: seq<T>)
    ensures |y| == |x| / 2
  {
    if x == [] then [] else Evens(x[1..])
  }

  lemma {:induction false} EvensAt<T>(x: seq<T>, i: nat)
    ensures 2 * i < |x| ==> Evens(x)[i] == x[2 * i]
    ensures 2 * i + 1 < |x| ==> Odds(x)[i] == x[2 * i + 1]
    decreases |x|
  {
    if |x| >= 2 {
      var t := x[2..];
      assert x[1..][1..] == t;
      assert Evens(x) == [x[0]] + Evens(t) && Odds(x) == [x[1]] + Odds(t);
      if i > 0 {
        EvensAt(t, i - 1);
      }
    }
  }

  /** x(z) = even(z^2) + z odd(z^2) */
  lemma {:induction false} EvalSplit<T(!new)>(R: Ring<T>, x: seq<T>, z: T)
    requires IsRing(R)
    ensures Eval(R, x, z) == R.add(Eval(R, Evens(x), R.mul(z, z)), R.mul(z, Eval(R, Odds(x), R.mul(z, z))))
  {
    var zz := R.mul(z, z);
    if x == [] {
      MulZero(R, z);
      Unit(R, R.zero);
    } else {
      var t := x[1..];
      EvalSplit(R, t, z);
      var e, o := Eval(R, Evens(t), zz), Eval(R, Odds(t), zz);
      assert Evens(x)[1..] == Odds(t);
      assert Eval(R, Evens(x), zz) == R.add(x[0], R.mul(zz, o));
      assert Odds(x) == Evens(t);
      Laws3(R, z, e, R.mul(z, o));
      Laws3(R, z, z, o);
      Commute(R, R.mul(z, e), R.mul(zz, o));
      Laws3(R, x[0], R.mul(zz, o), R.mul(z, e));
    }
  }

  // ---------- linearity ----------

  function AddSeq<T(!new)>(R: Ring<T>, a: seq<T>, b: seq<T>): (c: seq<T>)
    requires |a| == |b|
    ensures |c| == |a| && forall i :: 0 <= i < |a| ==> c[i] == R.add(a[i], b[i])
  {
    seq(|a|, i requires 0 <= i < |a| => R.add(a[i], b[i]))
  }

  function Scale<T(!new)>(R: Ring<T>, c: T, a: seq<T>): (b: seq<T>)
    ensures |b| == |a| && forall i :: 0 <= i < |a| ==> b[i] == R.mul(c, a[i])
  {
    seq(|a|, i requires 0 <= i < |a| => R.mul(c, a[i]))
  }

  function ZeroSeq<T(!new)>(R: Ring<T>, n: nat): (z: seq<T>)
    ensures |z| == n && forall i :: 0 <= i < n ==> z[i] == R.zero
  {
    seq(n, _ => R.zero)
  }

  lemma {:induction false} EvalAdd<T(!new)>(R: Ring<T>, a: seq<T>, b: seq<T>, z: T)
    requires IsRing(R) && |a| == |b|
    ensures Eval(R, AddSeq(R, a, b), z) == R.add(Eval(R, a, z), Eval(R, b, z))
  {
    if a == [] {
      Unit(R, R.zero);
    } else {
      EvalAdd(R, a[1..], b[1..], z);
      assert AddSeq(R, a, b)[1..] == AddSeq(R, a[1..], b[1..]);
      var p, q := Eval(R, a[1..], z), Eval(R, b[1..], z);
      Laws3(R, z, p, q);
      Interchange(R, a[0], b[0], R.mul(z, p), R.mul(z, q));
    }
  }

  lemma {:induction false} EvalScale<T(!new)>(R: Ring<T>, c: T, a: seq<T>, z: T)
    requires IsRing(R)
    ensures Eval(R, Scale(R, c, a), z) == R.mul(c, Eval(R, a, z))
  {
    if a == [] {
      MulZero(R, c);
    } else {
      EvalScale(R, c, a[1..], z);
      assert Scale(R, c, a)[1..] == Scale(R, c, a[1..]);
      var p := Eval(R, a[1..], z);
      Laws3(R, z, c, p);
      Commute(R, z, c);
      Laws3(R, c, z, p);
      Laws3(R, c, a[0], R.mul(z, p));
    }
  }

  lemma {:induction false} EvalZeros<T(!new)>(R: Ring<T>, n: nat, z: T)
    requires IsRing(R)
    ensures Eval(R, ZeroSeq(R, n), z) == R.zero
  {
    if n > 0 {
      EvalZeros(R, n - 1, z);
      assert ZeroSeq(R, n)[1..] == ZeroSeq(R, n - 1);
      MulZero(R, z);
      Unit(R, R.zero);
    }
  }

  /** (a ++ b)(z) = a(z) + z^|a| b(z) */
  lemma {:induction false} EvalConcat<T(!new)>(R: Ring<T>, a: seq<T>, b: seq<T>, z: T)
    requires IsRing(R)
    ensures Eval(R, a + b, z) == R.add(Eval(R, a, z), R.mul(Pow(R, z, |a|), Eval(R, b, z)))
  {
    var q := Eval(R, b, z);
    if a == [] {
      assert a + b == b;
      Unit(R, q);
    } else {
      EvalConcat(R, a[1..], b, z);
      assert (a + b)[1..] == a[1..] + b;
      var p, m := Eval(R, a[1..], z), Pow(R, z, |a| - 1);
      Laws3(R, z, p, R.mul(m, q));
      Laws3(R, z, m, q);
      Laws3(R, a[0], R.mul(z, p), R.mul(R.mul(z, m), q));
    }
  }

  /** x with element k multiplied by u^k. */
  function Twist<T(!new)>(R: Ring<T>, x: seq<T>, u: T): (y: seq<T>)
    ensures |y| == |x| && forall k :: 0 <= k < |x| ==> y[k] == R.mul(Pow(R, u, k), x[k])
  {
    seq(|x|, k requires 0 <= k < |x| => R.mul(Pow(R, u, k), x[k]))
  }

  lemma {:induction false} EvalTwist<T(!new)>(R: Ring<T>, x: seq<T>, u: T, z: T)
    requires IsRing(R)
    ensures Eval(R, Twist(R, x, u), z) == Eval(R, x, R.mul(u, z))
  {
    if x != [] {
      var t := x[1..];
      EvalTwist(R, t, u, z);
      var tail := Twist(R, x, u)[1..];
      assert tail == Scale(R, u, Twist(R, t, u)) by {
        forall k | 0 <= k < |t| ensures tail[k] == R.mul(u, R.mul(Pow(R, u, k), t[k])) {
          Laws3(R, u, Pow(R, u, k), t[k]);
        }
      }
      EvalScale(R, u, Twist(R, t, u), z);
      var p := Eval(R, t, R.mul(u, z));
      Laws3(R, z, u, p);
      Commute(R, z, u);
      Unit(R, x[0]);
    }
  }
}
