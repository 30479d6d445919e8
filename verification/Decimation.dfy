/** FIR filtering with decimation, one sample at a time out of a ring buffer. */
module Decimation {
  // There are two rings: one of a power of two with masked unsigned 64-bit positions, and one as long as
  // the filter.

  import opened Bits
  import opened Rings
  import opened Convolution
  import opened BitReversal

  /** Coefficients, and how many samples go in for one to come out. */
  datatype Filter<T> = Filter(h: seq<T>, factor: nat)
  {
    predicate Valid() {
      h != [] && factor >= 1
    }
  }

  /** What comes out for a whole stream: an output at every factor-th input. */
  ghost function Decimated<T(!new)>(R: Ring<T>, f: Filter<T>, xs: seq<T>): seq<T>
    requires f.Valid()
  {
    if xs == [] then []
    else
      var n := |xs| - 1;
      Decimated(R, f, xs[..n]) + if |xs| % f.factor == 0 then [ConvAt(R, f.h, xs, n)] else []
  }

  lemma DecimatedStep<T(!new)>(R: Ring<T>, f: Filter<T>, xs: seq<T>, x: T)
    requires f.Valid()
    ensures Decimated(R, f, xs + [x])
         == Decimated(R, f, xs) + if (|xs| + 1) % f.factor == 0 then [ConvAt(R, f.h, xs + [x], |xs|)] else []
  {
    assert (xs + [x])[..|xs|] == xs;
  }

  /** n inputs give floor(n / factor) outputs, and output m is the convolution of the stream with the
      coefficients at input (m + 1) factor - 1. */
  lemma {:induction false} DecimatedIsConvolution<T(!new)>(R: Ring<T>, f: Filter<T>, xs: seq<T>)
    requires f.Valid()
    ensures |Decimated(R, f, xs)| == |xs| / f.factor
    ensures forall m: nat :: m < |xs| / f.factor ==>
              Decimated(R, f, xs)[m] == ConvAt(R, f.h, xs, f.factor * (m + 1) - 1)
  {
    if xs == [] {
      QuotientOfZero(f.factor);
    } else {
      hide ConvAt;
      var n, d := |xs| - 1, f.factor;
      var before := xs[..n];
      DecimatedIsConvolution(R, f, before);
      QuotientStep(n, d);
      forall m: nat | m < |xs| / d ensures Decimated(R, f, xs)[m] == ConvAt(R, f.h, xs, d * (m + 1) - 1) {
        if m < n / d {
          LastOfGroup(n, d, m);
          assert before + [xs[n]] == xs;
          ConvCausal(R, f.h, before, [xs[n]], d * (m + 1) - 1);
        }
      }
    }
  }

  lemma QuotientOfZero(d: nat)
    requires d >= 1
    ensures 0 / d == 0
  {
    DivModUnique(0, d, 0, 0);
  }

  lemma QuotientStep(n: nat, d: nat)
    requires d >= 1
    ensures (n + 1) % d == 0 ==> (n + 1) / d == n / d + 1 && n + 1 == d * (n / d + 1)
    ensures (n + 1) % d != 0 ==> (n + 1) / d == n / d && (n + 1) % d == n % d + 1
    ensures (n + 1) % d == 0 <==> n % d + 1 >= d
  {
    var q, r := n / d, n % d;
    assert n == q * d + r;
    if r + 1 == d {
      assert (q + 1) * d == q * d + d;
      DivModUnique(n + 1, d, q + 1, 0);
    } else {
      DivModUnique(n + 1, d, q, r + 1);
    }
  }

  lemma LastOfGroup(n: nat, d: nat, m: nat)
    requires d >= 1 && m < n / d
    ensures d * (m + 1) - 1 < n
  {
    MulMonotone(d, m + 1, n / d);
    assert n == d * (n / d) + n % d;
  }

  // ---------- positions in a ring ----------

  /** Positions less than c apart are different cells of a ring of c. */
  lemma Apart(a: int, b: int, c: nat)
    requires c > 0 && a < b < a + c
    ensures a % c != b % c
  {
    if a % c == b % c {
      var p, q := a / c, b / c;
      assert b - a == c * q - c * p;
      MulLess(c, p, q);
    }
  }

  lemma MulLess(c: nat, p: int, q: int)
    ensures !(0 < c * q - c * p < c)
  {
    if q <= p {
      MulMonotone(c, q, p);
    } else {
      MulMonotone(c, p + 1, q);
    }
  }

  /** A remainder determines itself, for any integer. */
  lemma ModUnique(a: int, c: nat, q: int, r: nat)
    requires c > 0 && r < c && a == c * q + r
    ensures a % c == r
  {
    var p, s := a / c, a % c;
    assert a == c * p + s;
    if r != s {
      if s < r { MulLess(c, q, p); } else { MulLess(c, p, q); }
    }
  }

  /** Where sample j of a stream stands in a ring of c; samples before the start have places too. */
  function Cell(j: int, c: nat): (i: nat)
    requires c > 0
    ensures i < c
  {
    j % c
  }

  /** The ring holds the newest samples of a stream that was zero before its start. */
  ghost predicate Holds<T(!new)>(R: Ring<T>, ring: seq<T>, past: seq<T>) {
    |ring| > 0 && forall j: int :: |past| - |ring| <= j < |past| ==> ring[Cell(j, |ring|)] == At(R, past, j)
  }

  lemma HoldsNothing<T(!new)>(R: Ring<T>, ring: seq<T>)
    requires |ring| > 0 && forall j :: 0 <= j < |ring| ==> ring[j] == R.zero
    ensures Holds(R, ring, [])
  {
  }

  lemma HoldsNext<T(!new)>(R: Ring<T>, ring: seq<T>, past: seq<T>, x: T)
    requires Holds(R, ring, past)
    ensures Holds(R, ring[Cell(|past|, |ring|) := x], past + [x])
  {
    hide Cell;
    var c, n := |ring|, |past|;
    var after, now := ring[Cell(n, c) := x], past + [x];
    forall j: int | n + 1 - c <= j < n + 1 ensures after[Cell(j, c)] == At(R, now, j) {
      if j < n {
        CellsApart(j, n, c);
        assert At(R, now, j) == At(R, past, j);
      }
    }
  }

  lemma CellsApart(a: int, b: int, c: nat)
    requires c > 0 && a < b < a + c
    ensures Cell(a, c) != Cell(b, c)
  {
    Apart(a, b, c);
  }

  // ---------- the masked ring ----------

  const TWO_64: nat := 0x1_0000_0000_0000_0000

  /** An unsigned 64-bit position of any integer. */
  function Wrap64(x: int): (w: nat)
    ensures w < TWO_64
  {
    x % TWO_64
  }

  lemma Pow2Of64()
    ensures Pow2(64) == TWO_64
  {
    Powers();
    PowSum(32, 32);
  }

  /** Wrapping twice is wrapping once, when the smaller ring divides the larger. */
  lemma WrapWrap(a: int, c: nat, d: nat)
    requires c > 0 && d > 0
    ensures (a % (c * d)) % c == a % c
  {
    var n := c * d;
    MulMonotone(c, 1, d);
    var p, r := a / n, a % n;
    assert a == n * p + r;
    var q, s := r / c, r % c;
    assert r == c * q + s;
    Associate(c, d, p);
    assert c * (d * p) + c * q == c * (d * p + q) by { Factor(c, d * p, q); }
    ModUnique(a, c, d * p + q, s);
  }

  lemma Associate(c: int, d: int, p: int)
    ensures (c * d) * p == c * (d * p)
  {
  }

  lemma Factor(c: int, x: int, y: int)
    ensures c * x + c * y == c * (x + y)
  {
  }

  /** Counting back from a wrapped position under a mask reaches the right cell, even when the
      position wraps below zero. */
  lemma MaskedIndex(n: int, k: nat, q: nat)
    requires q <= 64
    ensures And(Wrap64(Wrap64(Wrap64(n) - 1) - k), Pow2(q) - 1) == Cell(n - 1 - k, Pow2(q))
    ensures And(Wrap64(n), Pow2(q) - 1) == Cell(n, Pow2(q))
  {
    hide And;
    var c, d := Pow2(q), Pow2(64 - q);
    Pow2Of64();
    PowSum(q, 64 - q);
    AndMask(Wrap64(Wrap64(Wrap64(n) - 1) - k), q);
    AndMask(Wrap64(n), q);
    WrapWrap(n, c, d);
    WrapStep(n, 1, TWO_64);
    WrapStep(n - 1, k, TWO_64);
    WrapWrap(n - 1 - k, c, d);
  }

  lemma WrapStep(a: int, k: nat, n: nat)
    requires n > 0
    ensures (a % n - k) % n == (a - k) % n
  {
    var p, s := a / n, (a - k) / n;
    var r := (a - k) % n;
    assert a == n * p + a % n && a - k == n * s + r;
    Subtract(n, s, p);
    ModUnique(a % n - k, n, s - p, r);
  }

  lemma Subtract(n: int, s: int, p: int)
    ensures n * s - n * p == n * (s - p)
  {
  }

  method RingSize(taps: nat) returns (cap: nat, ghost q: nat)
    requires taps <= Pow2(32)
    ensures q <= 32 && cap == Pow2(q) && taps <= cap && (cap == 1 || cap / 2 < taps)
  {
    cap, q := 1, 0;
    while cap < taps
      invariant q <= 32 && cap == Pow2(q) && (cap == 1 || cap / 2 < taps)
      decreases taps - cap
    {
      if q == 32 {
        assert false;
      }
      cap, q := 2 * cap, q + 1;
    }
  }

  class FirDecimator<T(0, !new)> {
    const R: Ring<T>
    const factor: nat
    const h: seq<T>
    const mask: nat
    const delay: array<T>
    var wpos: nat
    var count: nat
    /** log2 of the ring, and the samples so far. */
    ghost const log: nat
    ghost var past: seq<T>

    ghost function TheFilter(): Filter<T> {
      Filter(h, factor)
    }

    ghost predicate Valid()
      reads this, delay
    {
      && IsRing(R) && TheFilter().Valid()
      && log <= 64 && mask == Pow2(log) - 1 && delay.Length == Pow2(log) && |h| <= Pow2(log)
      && wpos == Wrap64(|past|) && count == |past| % factor
      && Holds(R, delay[..], past)
    }

    /** A ring of the least power of two that holds the filter. The sizes of the program, 32-bit
        integers, leave no need to go beyond 64 bits. */
    constructor (R: Ring<T>, f: Filter<T>)
      requires IsRing(R) && f.Valid() && |f.h| <= Pow2(32)
      ensures Valid() && this.R == R && TheFilter() == f && past == [] && fresh(delay)
    {
      var cap, q := RingSize(|f.h|);
      this.R, factor, h := R, f.factor, f.h;
      mask, log := cap - 1, q;
      delay := new T[cap](_ => R.zero);
      wpos, count, past := 0, 0, [];
      new;
      hide IsRing, Pow2;
      HoldsNothing(R, delay[..]);
      DivModUnique(0, factor, 0, 0);
      hide Holds;
    }

    /** One sample in; at every factor-th, the convolution out. */
    method Push(x: T) returns (out: seq<T>)
      requires Valid()
      modifies this, delay
      ensures Valid() && past == old(past) + [x]
      ensures out == if |past| % factor == 0 then [ConvAt(R, h, past, |past| - 1)] else []
    {
      hide IsRing, Wrap64, And, Pow2, Cell, Holds, ConvAt;
      MaskedIndex(|past|, 0, log);
      HoldsNext(R, delay[..], past, x);
      delay[And(wpos, mask)] := x;
      WrapNext(|past|);
      QuotientStep(|past|, factor);
      wpos := Wrap64(wpos + 1);
      past := past + [x];
      count := count + 1;
      if count < factor {
        return [];
      }
      count := 0;
      var acc := MultiplyAccumulate();
      return [acc];
    }

    /** The filter over the ring, newest sample first. */
    method MultiplyAccumulate() returns (acc: T)
      requires IsRing(R) && log <= 64 && mask == Pow2(log) - 1 && delay.Length == Pow2(log) && |h| <= Pow2(log)
      requires wpos == Wrap64(|past|) && Holds(R, delay[..], past)
      ensures acc == ConvAt(R, h, past, |past| - 1)
    {
      hide IsRing, Wrap64, And, Pow2, ConvAt, Cell;
      acc := R.zero;
      var idx := Wrap64(wpos - 1);
      assert h[0..] == h;
      Unit(R, ConvAt(R, h, past, |past| - 1));
      for k := 0 to |h|
        invariant R.add(acc, ConvAt(R, h[k..], past, |past| - 1 - k)) == ConvAt(R, h, past, |past| - 1)
      {
        MaskedIndex(|past|, k, log);
        var i := And(Wrap64(idx - k), mask);
        assert delay[i] == delay[..][Cell(|past| - 1 - k, delay.Length)];
        Accumulate(R, h, past, |past| - 1, k, acc);
        acc := R.add(acc, R.mul(delay[i], h[k]));
      }
      Unit(R, acc);
      assert h[|h|..] == [];
      ConvOfNone(R, past, |past| - 1 - |h|);
    }
  }

  lemma WrapNext(n: nat)
    ensures Wrap64(Wrap64(n) + 1) == Wrap64(n + 1)
  {
  }

  lemma ConvOfNone<T(!new)>(R: Ring<T>, x: seq<T>, j: int)
    ensures ConvAt(R, [], x, j) == R.zero
  {
  }

  /** One more product moves from the rest of the convolution into the sum. */
  lemma Accumulate<T(!new)>(R: Ring<T>, h: seq<T>, x: seq<T>, j: int, k: nat, acc: T)
    requires IsRing(R) && k < |h|
    ensures R.add(R.add(acc, R.mul(At(R, x, j - k), h[k])), ConvAt(R, h[k + 1..], x, j - (k + 1)))
         == R.add(acc, ConvAt(R, h[k..], x, j - k))
  {
    assert h[k..][1..] == h[k + 1..];
    Commute(R, At(R, x, j - k), h[k]);
    Laws3(R, acc, R.mul(h[k], At(R, x, j - k)), ConvAt(R, h[k + 1..], x, j - k - 1));
  }

  // ---------- the ring as long as the filter ----------

  /** The remainder of C: it has the sign of the dividend. */
  function Remainder(a: int, c: nat): int
    requires c > 0
  {
    if a >= 0 then a % c else -(-a % c)
  }

  lemma BackIndex(p: int, n: int, k: nat, c: nat)
    requires c > 0 && p == n % c && k < c
    ensures var r := Remainder(p - 1 - k, c); (if r < 0 then r + c else r) == Cell(n - 1 - k, c)
  {
    var a := p - 1 - k;
    WrapStep(n, 1 + k, c);
    if a < 0 {
      if a + c == 0 {
        DivModUnique(c, c, 1, 0);
        ModUnique(a, c, -1, 0);
      } else {
        DivModUnique(-a, c, 0, -a);
        ModUnique(a, c, -1, a + c);
      }
    }
  }

  class DecimFir<T(0, !new)> {
    const R: Ring<T>
    const D: nat
    const h: seq<T>
    const hist: array<T>
    var pos: int
    var phase: int
    /** The samples so far. */
    ghost var past: seq<T>

    ghost function TheFilter(): Filter<T> {
      Filter(h, D)
    }

    ghost predicate Valid()
      reads this, hist
    {
      && IsRing(R) && TheFilter().Valid() && hist.Length == |h|
      && pos == |past| % |h| && phase == |past| % D
      && Holds(R, hist[..], past)
    }

    constructor (R: Ring<T>, f: Filter<T>)
      requires IsRing(R) && f.Valid()
      ensures Valid() && this.R == R && TheFilter() == f && past == [] && fresh(hist)
    {
      this.R, D, h := R, f.factor, f.h;
      hist := new T[|f.h|](_ => R.zero);
      pos, phase, past := 0, 0, [];
      new;
      hide IsRing;
      HoldsNothing(R, hist[..]);
      DivModUnique(0, D, 0, 0);
      DivModUnique(0, |h|, 0, 0);
      hide Holds;
    }

    /** A block of samples: the outputs are appended, and meet the same specification. */
    method Process(input: seq<T>, out: seq<T>) returns (out': seq<T>)
      requires Valid()
      modifies this, hist
      ensures Valid() && past == old(past) + input
      ensures exists tail :: out' == out + tail
                && Decimated(R, TheFilter(), past) == Decimated(R, TheFilter(), old(past)) + tail
    {
      hide IsRing, Decimated, Holds;
      out' := out;
      ghost var tail := [];
      for i := 0 to |input|
        invariant Valid() && past == old(past) + input[..i]
        invariant out' == out + tail && Decimated(R, TheFilter(), past) == Decimated(R, TheFilter(), old(past)) + tail
      {
        DecimatedStep(R, TheFilter(), past, input[i]);
        assert input[..i + 1] == input[..i] + [input[i]];
        var more := Take(input[i]);
        out' := out' + more;
        tail := tail + more;
      }
      assert input[..|input|] == input;
    }

    /** The body of the loop. */
    method Take(x: T) returns (out: seq<T>)
      requires Valid()
      modifies this, hist
      ensures Valid() && past == old(past) + [x]
      ensures out == if |past| % D == 0 then [ConvAt(R, h, past, |past| - 1)] else []
    {
      hide IsRing, Holds, ConvAt, Remainder;
      HoldsNext(R, hist[..], past, x);
      QuotientStep(|past|, D);
      QuotientStep(|past|, |h|);
      hist[pos] := x;
      pos := Remainder(pos + 1, |h|);
      past := past + [x];
      RingStep(|past|, |h|);
      phase := phase + 1;
      if phase >= D {
        phase := 0;
        var acc := MultiplyAccumulate();
        return [acc];
      }
      return [];
    }

    method MultiplyAccumulate() returns (acc: T)
      requires IsRing(R) && h != [] && hist.Length == |h| && pos == |past| % |h| && Holds(R, hist[..], past)
      ensures acc == ConvAt(R, h, past, |past| - 1)
    {
      hide IsRing, ConvAt, Remainder, Cell;
      acc := R.zero;
      assert h[0..] == h;
      Unit(R, ConvAt(R, h, past, |past| - 1));
      for j := 0 to |h|
        invariant R.add(acc, ConvAt(R, h[j..], past, |past| - 1 - j)) == ConvAt(R, h, past, |past| - 1)
      {
        BackIndex(pos, |past|, j, |h|);
        var hi := Remainder(pos - 1 - j, |h|);
        if hi < 0 {
          hi := hi + |h|;
        }
        assert hist[hi] == hist[..][Cell(|past| - 1 - j, hist.Length)];
        Accumulate(R, h, past, |past| - 1, j, acc);
        Commute(R, At(R, past, |past| - 1 - j), h[j]);
        acc := R.add(acc, R.mul(h[j], hist[hi]));
      }
      Unit(R, acc);
      assert h[|h|..] == [];
      ConvOfNone(R, past, |past| - 1 - |h|);
    }
  }

  lemma RingStep(n: nat, c: nat)
    requires c > 0 && n > 0
    ensures Remainder((n - 1) % c + 1, c) == n % c
  {
    QuotientStep(n - 1, c);
    if n % c != 0 {
      DivModUnique((n - 1) % c + 1, c, 0, (n - 1) % c + 1);
    } else {
      DivModUnique(c, c, 1, 0);
    }
  }
}
