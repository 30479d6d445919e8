/** Bits, the numbers they spell, and the bitwise operators of C on naturals.

    A bit sequence is read most significant bit first unless a member says otherwise. Words are naturals
    below 2^32, and arithmetic on them wraps with `Word`. */
module Bits {

  type bit = x: int | 0 <= x <= 1

  type byte = x: int | 0 <= x < 256

  /** Wrap-around of an unsigned 32-bit integer. */
  function Word(x: nat): (w: nat)
    ensures w < 0x1_0000_0000
  {
    if x < 0x1_0000_0000 then x else Word(x - 0x1_0000_0000)
  }

  lemma {:induction false} WordIsMod(x: nat)
    ensures Word(x) == x % 0x1_0000_0000
  {
    if x >= 0x1_0000_0000 {
      WordIsMod(x - 0x1_0000_0000);
    }
  }

  function Xor(a: bit, b: bit): bit {
    if a == b then 0 else 1
  }

  function Zeros(n: nat): (z: seq<bit>)
    ensures |z| == n
    ensures forall i :: 0 <= i < n ==> z[i] == 0
  {
    seq(n, _ => 0)
  }

  function Reverse(s: seq<bit>): (r: seq<bit>)
    ensures |r| == |s| && forall i :: 0 <= i < |s| ==> r[i] == s[|s| - 1 - i]
  {
    seq(|s|, i requires 0 <= i < |s| => s[|s| - 1 - i])
  }

  function Pow2(n: nat): (p: nat)
    ensures p > 0
  {
    if n == 0 then 1 else 2 * Pow2(n - 1)
  }

  /** The powers used as literals. */
  lemma Powers()
    ensures Pow2(1) == 2 && Pow2(2) == 4 && Pow2(4) == 16 && Pow2(6) == 64 && Pow2(8) == 0x100
    ensures Pow2(16) == 0x1_0000 && Pow2(24) == 0x100_0000 && Pow2(32) == 0x1_0000_0000
  {
  }

  lemma PowStep(n: nat)
    ensures Pow2(n + 1) == 2 * Pow2(n)
  {
  }

  lemma {:induction false} PowSum(a: nat, b: nat)
    ensures Pow2(a + b) == Pow2(a) * Pow2(b)
  {
    if b > 0 {
      PowSum(a, b - 1);
      Twice(Pow2(a), Pow2(b - 1));
    }
  }

  /** The number a bit string spells, most significant bit first. */
  function Val(bs: seq<bit>): nat {
    if bs == [] then 0 else 2 * Val(bs[..|bs| - 1]) + bs[|bs| - 1]
  }

  lemma ValAppend(bs: seq<bit>, b: bit)
    ensures Val(bs + [b]) == 2 * Val(bs) + b
  {
    assert (bs + [b])[..|bs|] == bs;
  }

  lemma {:induction false} ValConcat(a: seq<bit>, b: seq<bit>)
    ensures Val(a + b) == Val(a) * Pow2(|b|) + Val(b)
  {
    if b == [] {
      assert a + b == a;
    } else {
      var c, x := b[..|b| - 1], b[|b| - 1];
      assert a + b == (a + c) + [x];
      ValAppend(a + c, x);
      ValConcat(a, c);
      Twice(Val(a), Pow2(|c|));
    }
  }

  lemma Twice(x: int, y: int)
    ensures x * (2 * y) == 2 * (x * y)
  {
  }

  lemma {:induction false} ValBound(bs: seq<bit>)
    ensures Val(bs) < Pow2(|bs|)
  {
    if bs != [] {
      ValBound(bs[..|bs| - 1]);
    }
  }

  lemma {:induction false} ValZeros(n: nat)
    ensures Val(Zeros(n)) == 0
  {
    if n > 0 {
      assert Zeros(n)[..n - 1] == Zeros(n - 1);
      ValZeros(n - 1);
    }
  }

  lemma {:induction false} ValInjective(a: seq<bit>, b: seq<bit>)
    requires |a| == |b| && Val(a) == Val(b)
    ensures a == b
  {
    if a != [] {
      var n := |a| - 1;
      ValInjective(a[..n], b[..n]);
      assert a == a[..n] + [a[n]] && b == b[..n] + [b[n]];
    }
  }

  /** Dropping high bits is the remainder, dropping low bits the quotient. */
  lemma ValDivMod(bs: seq<bit>, k: nat)
    requires k <= |bs|
    ensures Val(bs) / Pow2(|bs| - k) == Val(bs[..k])
    ensures Val(bs) % Pow2(|bs| - k) == Val(bs[k..])
  {
    assert bs == bs[..k] + bs[k..];
    ValConcat(bs[..k], bs[k..]);
    ValBound(bs[k..]);
    DivModUnique(Val(bs), Pow2(|bs| - k), Val(bs[..k]), Val(bs[k..]));
  }

  lemma DivModUnique(n: nat, d: nat, q: nat, r: nat)
    requires d > 0 && r < d && n == q * d + r
    ensures n / d == q && n % d == r
  {
    var q', r' := n / d, n % d;
    assert n == d * q' + r';
    MulMonotone(d, q' + 1, q);
    MulMonotone(d, q + 1, q');
  }

  lemma MulMonotone(d: nat, x: int, y: int)
    ensures x <= y ==> d * x <= d * y
  {
  }

  /** Bit j of x. */
  function BitAt(x: nat, j: nat): bit
    decreases j
  {
    if j == 0 then x % 2 else BitAt(x / 2, j - 1)
  }

  /** The n low bits of x, most significant first. */
  function BitsOf(x: nat, n: nat): (bs: seq<bit>)
    ensures |bs| == n && forall i :: 0 <= i < n ==> bs[i] == BitAt(x, n - 1 - i)
  {
    seq(n, i requires 0 <= i < n => BitAt(x, n - 1 - i))
  }

  lemma BitsOfStep(x: nat, n: nat)
    requires n > 0
    ensures BitsOf(x, n) == BitsOf(x / 2, n - 1) + [x % 2]
  {
  }

  lemma {:induction false} BitsOfVal(x: nat, n: nat)
    requires x < Pow2(n)
    ensures Val(BitsOf(x, n)) == x
  {
    if n > 0 {
      BitsOfVal(x / 2, n - 1);
      BitsOfStep(x, n);
      ValAppend(BitsOf(x / 2, n - 1), x % 2);
    }
  }

  lemma ValBitsOf(bs: seq<bit>)
    ensures BitsOf(Val(bs), |bs|) == bs
  {
    ValBound(bs);
    BitsOfVal(Val(bs), |bs|);
    ValInjective(BitsOf(Val(bs), |bs|), bs);
  }
}
