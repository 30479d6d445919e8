/** Digital down-conversion: mix to baseband, then a cascade of decimating filters. */
module Ddc {
  import opened Bits
  import opened Rings
  import opened Convolution
  import opened BitReversal
  import opened Decimation

  // ---------- the cascade on whole streams ----------

  ghost predicate AllValid<T>(chain: seq<Filter<T>>) {
    forall i :: 0 <= i < |chain| ==> chain[i].Valid()
  }

  /** One filter after the other. */
  ghost function Through<T(!new)>(R: Ring<T>, chain: seq<Filter<T>>, xs: seq<T>): seq<T>
    requires AllValid(chain)
  {
    if chain == [] then xs
    else
      var n := |chain| - 1;
      Decimated(R, chain[n], Through(R, chain[..n], xs))
  }

  function Ratio<T>(chain: seq<Filter<T>>): nat {
    if chain == [] then 1 else Ratio(chain[..|chain| - 1]) * chain[|chain| - 1].factor
  }

  /** n inputs give floor(n / product of the factors) outputs. */
  lemma {:induction false} ThroughLength<T(!new)>(R: Ring<T>, chain: seq<Filter<T>>, xs: seq<T>)
    requires AllValid(chain)
    ensures Ratio(chain) > 0 && |Through(R, chain, xs)| == |xs| / Ratio(chain)
  {
    if chain != [] {
      var n := |chain| - 1;
      ThroughLength(R, chain[..n], xs);
      DecimatedIsConvolution(R, chain[n], Through(R, chain[..n], xs));
      QuotientTwice(|xs|, Ratio(chain[..n]), chain[n].factor);
    }
  }

  lemma QuotientTwice(n: nat, a: nat, b: nat)
    requires a > 0 && b > 0
    ensures a * b > 0 && n / (a * b) == n / a / b
  {
    var q := n / a;
    assert n == a * q + n % a && q == b * (q / b) + q % b;
    Regroup(n, a, b, q / b, q % b, n % a);
    DivModUnique(n, a * b, q / b, a * (q % b) + n % a);
  }

  lemma Regroup(n: nat, a: nat, b: nat, p: nat, s: nat, r: nat)
    requires r < a && s < b && n == a * (b * p + s) + r
    ensures a * b > 0 && 0 <= a * s + r < a * b && n == p * (a * b) + (a * s + r)
  {
    Associate(a, b, p);
    Factor(a, b * p, s);
    MulMonotone(a, s + 1, b);
    Factor(a, s, 1);
  }

  /** What more input adds comes after what was there: outputs are never revised. */
  lemma {:induction false} DecimatedGrows<T(!new)>(R: Ring<T>, f: Filter<T>, xs: seq<T>, ys: seq<T>)
    requires f.Valid()
    ensures Decimated(R, f, xs) <= Decimated(R, f, xs + ys)
  {
    hide ConvAt;
    if ys == [] {
      assert xs + ys == xs;
    } else {
      var n := |ys| - 1;
      DecimatedGrows(R, f, xs, ys[..n]);
      assert (xs + ys)[..|xs + ys| - 1] == xs + ys[..n];
    }
  }

  lemma {:induction false} ThroughGrows<T(!new)>(R: Ring<T>, chain: seq<Filter<T>>, xs: seq<T>, ys: seq<T>)
    requires AllValid(chain)
    ensures Through(R, chain, xs) <= Through(R, chain, xs + ys)
  {
    if chain != [] {
      var n := |chain| - 1;
      ThroughGrows(R, chain[..n], xs, ys);
      var a, b := Through(R, chain[..n], xs), Through(R, chain[..n], xs + ys);
      assert b == a + b[|a|..];
      DecimatedGrows(R, chain[n], a, b[|a|..]);
    }
  }

  // ---------- mixing ----------

  /** The oscillator, its step, and the samples it has been used for. */
  datatype Nco<T> = Nco(osc: T, rot: T, count: nat)

  /** One sample mixed; every 1024th time the oscillator is brought back to unit size by `renorm`. */
  function MixOne<T(!new)>(R: Ring<T>, renorm: T -> T, m: Nco<T>, x: T): (Nco<T>, T) {
    var turned := R.mul(m.osc, m.rot);
    var count := Wrap64(m.count + 1);
    (Nco(if And(count, 1023) == 0 then renorm(turned) else turned, m.rot, count), R.mul(x, m.osc))
  }

  lemma WrapKeeps(x: int)
    ensures Wrap64(x) % 1024 == x % 1024
  {
    var q := x / TWO_64;
    assert x == q * TWO_64 + Wrap64(x);
    assert x == (q * 0x40_0000_0000_0000) * 1024 + Wrap64(x);
  }

  /** The mask means every 1024th sample, also across the wrap of the counter. */
  lemma EveryThousandth<T(!new)>(R: Ring<T>, renorm: T -> T, m: Nco<T>, x: T)
    ensures var turned, n := R.mul(m.osc, m.rot), MixOne(R, renorm, m, x).0;
            n.osc == (if (m.count + 1) % 1024 == 0 then renorm(turned) else turned) && n.rot == m.rot
    ensures MixOne(R, renorm, m, x).1 == R.mul(x, m.osc)
  {
    var count := Wrap64(m.count + 1);
    WrapKeeps(m.count + 1);
    AndMask(count, 10);
    assert Pow2(10) == 1024;
  }

  function Mix<T(!new)>(R: Ring<T>, renorm: T -> T, m: Nco<T>, xs: seq<T>): (r: (Nco<T>, seq<T>))
    ensures |r.1| == |xs|
  {
    if xs == [] then (m, [])
    else
      var n := |xs| - 1;
      var before := Mix(R, renorm, m, xs[..n]);
      var step := MixOne(R, renorm, before.0, xs[n]);
      (step.0, before.1 + [step.1])
  }

  /** As long as renormalising does not move the oscillator, which it never needs to without rounding,
      sample t is turned by the t-th power of the step. */
  lemma {:induction false} MixIsRotation<T(!new)>(R: Ring<T>, renorm: T -> T, m: Nco<T>, xs: seq<T>)
    requires IsRing(R) && m.osc == R.one
    requires forall k: nat :: renorm(Pow(R, m.rot, k)) == Pow(R, m.rot, k)
    ensures Mix(R, renorm, m, xs).0.osc == Pow(R, m.rot, |xs|) && Mix(R, renorm, m, xs).0.rot == m.rot
    ensures forall t :: 0 <= t < |xs| ==> Mix(R, renorm, m, xs).1[t] == R.mul(xs[t], Pow(R, m.rot, t))
  {
    hide And, Wrap64;
    if xs != [] {
      var n := |xs| - 1;
      MixIsRotation(R, renorm, m, xs[..n]);
      Commute(R, Pow(R, m.rot, n), m.rot);
      assert renorm(Pow(R, m.rot, n + 1)) == Pow(R, m.rot, n + 1);
    }
  }

  // Renormalising as the program does it, on complex numbers.

  function Norm(z: Complex): real {
    z.re * z.re + z.im * z.im
  }

  /** What std::abs is on the unit circle: the root of the norm that is not negative. */
  ghost predicate IsModulus(modulus: Complex -> real) {
    forall z :: Norm(z) == 1.0 ==> modulus(z) >= 0.0 && modulus(z) * modulus(z) == Norm(z)
  }

  /** Division by the modulus. Zero, which the program would divide by, is not divided. */
  function Renormaliser(modulus: Complex -> real): Complex -> Complex {
    z => if modulus(z) == 0.0 then z else Complex(z.re / modulus(z), z.im / modulus(z))
  }

  lemma RootOfOne(x: real)
    requires x >= 0.0 && x * x == 1.0
    ensures x == 1.0
  {
    if x < 1.0 {
      SquareGrows(x, 1.0);
    } else if x > 1.0 {
      SquareGrows(1.0, x);
    }
  }

  lemma SquareGrows(x: real, y: real)
    requires 0.0 <= x < y
    ensures x * x < y * y
  {
    var d := y - x;
    assert y * y == x * x + (x * d + x * d) + d * d;
    assert d * d > 0.0 && x * d >= 0.0;
  }

  lemma RenormaliserRests(modulus: Complex -> real, z: Complex)
    requires IsModulus(modulus) && Norm(z) == 1.0
    ensures Renormaliser(modulus)(z) == z
  {
    RootOfOne(modulus(z));
  }

  lemma NormTimes(a: Complex, b: Complex)
    ensures Norm(Times(a, b)) == Norm(a) * Norm(b)
  {
    NormParts(a.re, a.im, b.re, b.im);
  }

  lemma NormParts(a: real, b: real, c: real, d: real)
    ensures (a * c - b * d) * (a * c - b * d) + (a * d + b * c) * (a * d + b * c) == (a * a + b * b) * (c * c + d * d)
  {
    var p, q, r, s := a * c, b * d, a * d, b * c;
    assert p * q == r * s;
    assert (p - q) * (p - q) == p * p - (p * q + p * q) + q * q;
    assert (r + s) * (r + s) == r * r + (r * s + r * s) + s * s;
    assert p * p == (a * a) * (c * c) && q * q == (b * b) * (d * d);
    assert r * r == (a * a) * (d * d) && s * s == (b * b) * (c * c);
  }

  lemma {:induction false} PowersOnCircle(z: Complex, k: nat)
    requires Norm(z) == 1.0
    ensures Norm(Pow(COMPLEX, z, k)) == 1.0
  {
    hide Norm, Times;
    if k > 0 {
      PowersOnCircle(z, k - 1);
      NormTimes(z, Pow(COMPLEX, z, k - 1));
    } else {
      NormOne();
    }
  }

  lemma NormOne()
    ensures Norm(COMPLEX.one) == 1.0
  {
  }

  /** So with a step on the unit circle the oscillator of the program stays on it, and sample t is turned
      by the t-th power of the step, however often the oscillator is divided by its modulus. */
  lemma ComplexMixIsRotation(modulus: Complex -> real, m: Nco<Complex>, xs: seq<Complex>)
    requires IsModulus(modulus) && Norm(m.rot) == 1.0 && m.osc == COMPLEX.one
    ensures var r := Mix(COMPLEX, Renormaliser(modulus), m, xs);
            && Norm(r.0.osc) == 1.0 && r.0.osc == Pow(COMPLEX, m.rot, |xs|)
            && forall t :: 0 <= t < |xs| ==> r.1[t] == Times(xs[t], Pow(COMPLEX, m.rot, t))
  {
    hide Norm, Times, Pow, IsModulus, Renormaliser, Mix;
    ComplexIsRing();
    forall k: nat
      ensures Renormaliser(modulus)(Pow(COMPLEX, m.rot, k)) == Pow(COMPLEX, m.rot, k)
    {
      PowersOnCircle(m.rot, k);
      RenormaliserRests(modulus, Pow(COMPLEX, m.rot, k));
    }
    PowersOnCircle(m.rot, |xs|);
    MixIsRotation(COMPLEX, Renormaliser(modulus), m, xs);
  }

  lemma {:induction false} MixConcat<T(!new)>(R: Ring<T>, renorm: T -> T, m: Nco<T>, a: seq<T>, b: seq<T>)
    ensures var first := Mix(R, renorm, m, a);
            var second := Mix(R, renorm, first.0, b);
            Mix(R, renorm, m, a + b) == (second.0, first.1 + second.1)
  {
    hide MixOne;
    if b == [] {
      assert a + b == a;
      assert Mix(R, renorm, m, a).1 + [] == Mix(R, renorm, m, a).1;
    } else {
      var n := |b| - 1;
      MixConcat(R, renorm, m, a, b[..n]);
      assert (a + b)[..|a + b| - 1] == a + b[..n];
      var p := Mix(R, renorm, m, a);
      var q := Mix(R, renorm, p.0, b[..n]);
      var last := MixOne(R, renorm, q.0, b[n]).1;
      assert (p.1 + q.1) + [last] == p.1 + (q.1 + [last]);
    }
  }

  // ---------- the converter ----------

  class Ddc<T(0, !new)> {
    const R: Ring<T>
    const renorm: T -> T
    const stages: seq<FirDecimator<T>>
    var nco: Nco<T>
    /** The mixed samples so far. */
    ghost var mixed: seq<T>

    ghost function Chain(): seq<Filter<T>> {
      seq(|stages|, i requires 0 <= i < |stages| => stages[i].TheFilter())
    }

    /** The objects of the stages from k on. */
    ghost function Objects(k: nat): set<object>
      requires k <= |stages|
    {
      (set i | k <= i < |stages| :: stages[i]) + (set i | k <= i < |stages| :: stages[i].delay)
    }

    ghost predicate Separate() {
      forall i, j :: 0 <= i < j < |stages| ==> stages[i] != stages[j] && stages[i].delay != stages[j].delay
    }

    /** Every stage from k on is sound and, but for the first of them, has seen what the stage before it
        has put out. */
    ghost predicate Linked(k: nat)
      requires k <= |stages|
      reads Objects(k)
    {
      && (forall i :: k <= i < |stages| ==> stages[i].R == R && stages[i].Valid())
      && forall i :: k < i < |stages| ==>
           stages[i].past == Decimated(R, stages[i - 1].TheFilter(), stages[i - 1].past)
    }

    /** All outputs so far. */
    ghost function Total(): seq<T>
      requires stages != [] && stages[|stages| - 1].TheFilter().Valid()
      reads stages[|stages| - 1]
    {
      Decimated(R, stages[|stages| - 1].TheFilter(), stages[|stages| - 1].past)
    }

    ghost predicate Valid()
      reads this, Objects(0)
    {
      stages != [] && Separate() && Linked(0) && stages[0].past == mixed
    }

    ghost predicate Sound(k: nat)
      requires k < |stages|
      reads stages[k], stages[k].delay
    {
      stages[k].R == R && stages[k].Valid()
    }

    /** The output of stage k so far. */
    ghost function Output(k: nat): seq<T>
      requires k < |stages| && stages[k].TheFilter().Valid()
      reads stages[k]
    {
      Decimated(R, stages[k].TheFilter(), stages[k].past)
    }

    lemma LinkOne(k: nat)
      requires k < |stages| && Sound(k) && Linked(k + 1)
      requires k + 1 < |stages| ==> stages[k + 1].past == Output(k)
      ensures Linked(k)
    {
    }

    lemma Unlink(k: nat)
      requires k < |stages| && Separate() && Linked(k)
      ensures Sound(k) && Linked(k + 1) && stages[k].TheFilter().Valid()
      ensures k + 1 < |stages| ==> stages[k + 1].past == Output(k) && stages[k + 1].TheFilter().Valid()
      ensures stages[k] !in Objects(k + 1) && stages[k].delay !in Objects(k + 1)
      ensures stages[|stages| - 1].TheFilter().Valid()
    {
    }

    /** A sample into a stage; what that stage puts out goes into the next one. */
    method FeedStages(s: T, stage: nat) returns (out: seq<T>)
      requires stages != [] && Separate() && stage <= |stages| && Linked(stage)
      modifies Objects(stage)
      ensures Linked(stage)
      ensures stage == |stages| ==> out == [s]
      ensures stage < |stages| ==> stages[stage].past == old(stages[stage].past) + [s] && Total() == old(Total()) + out
      decreases |stages| - stage
    {
      hide Decimated, ConvAt, FirDecimator.Valid, Linked, Separate;
      if stage >= |stages| {
        return [s];
      }
      Unlink(stage);
      DecimatedStep(R, stages[stage].TheFilter(), stages[stage].past, s);
      var o := stages[stage].Push(s);
      out := [];
      if o != [] {
        out := FeedStages(o[0], stage + 1);
      }
      LinkOne(stage);
    }

    /** Stages for a plan of filters, all of them empty. */
    constructor (R: Ring<T>, renorm: T -> T, rot: T, chain: seq<Filter<T>>)
      requires IsRing(R) && chain != [] && AllValid(chain)
      requires forall i :: 0 <= i < |chain| ==> |chain[i].h| <= Pow2(32)
      ensures Valid() && this.R == R && this.renorm == renorm && Chain() == chain && fresh(Objects(0))
      ensures nco == Nco(R.one, rot, 0) && mixed == []
    {
      var built: seq<FirDecimator<T>> := [];
      hide IsRing, Pow2;
      for i := 0 to |chain|
        invariant |built| == i
        invariant forall j :: 0 <= j < i ==> built[j].R == R && built[j].TheFilter() == chain[j] && built[j].past == []
        invariant forall j :: 0 <= j < i ==> built[j].Valid() && fresh(built[j]) && fresh(built[j].delay)
        invariant forall j, k :: 0 <= j < k < i ==> built[j] != built[k] && built[j].delay != built[k].delay
      {
        var d := new FirDecimator(R, chain[i]);
        built := built + [d];
      }
      this.R, this.renorm, stages := R, renorm, built;
      nco, mixed := Nco(R.one, rot, 0), [];
    }

    lemma {:induction false} StageIsThrough(k: nat)
      requires Valid() && k < |stages|
      ensures AllValid(Chain()) && stages[k].past == Through(R, Chain()[..k], mixed)
    {
      hide FirDecimator.Valid, Decimated;
      assert AllValid(Chain()) by { ChainValid(); }
      if k > 0 {
        StageIsThrough(k - 1);
        assert Chain()[..k][..k - 1] == Chain()[..k - 1];
      }
    }

    lemma ChainValid()
      requires Valid()
      ensures AllValid(Chain())
    {
    }

    /** Everything put out so far is the cascade applied to everything mixed so far. */
    lemma TotalIsThrough()
      requires Valid()
      ensures AllValid(Chain()) && stages[|stages| - 1].TheFilter().Valid() && Total() == Through(R, Chain(), mixed)
    {
      hide FirDecimator.Valid, Decimated;
      ChainValid();
      var n := |stages| - 1;
      StageIsThrough(n);
      assert Chain()[n] == stages[n].TheFilter();
    }

    /** The oscillator, and one sample mixed with it. */
    method MixIn(x: T) returns (s: T)
      modifies this`nco
      ensures (nco, s) == MixOne(R, renorm, old(nco), x)
    {
      hide And;
      s := R.mul(x, nco.osc);
      var osc := R.mul(nco.osc, nco.rot);
      var oscCount := Wrap64(nco.count + 1);
      if And(oscCount, 1023) == 0 {
        osc := renorm(osc);
      }
      nco := Nco(osc, nco.rot, oscCount);
    }

    /** A mixed sample through all stages. */
    method FeedIn(s: T) returns (out: seq<T>)
      requires Valid()
      modifies this`mixed, Objects(0)
      ensures Valid() && mixed == old(mixed) + [s]
      ensures AllValid(Chain()) && Through(R, Chain(), mixed) == Through(R, Chain(), old(mixed)) + out
    {
      hide Linked, Separate, Through, Total, AllValid, Chain;
      TotalIsThrough();
      out := FeedStages(s, 0);
      mixed := mixed + [s];
      TotalIsThrough();
    }

    /** One sample mixed and fed in. */
    method ProcessOne(x: T) returns (out: seq<T>)
      requires Valid()
      modifies this, Objects(0)
      ensures Valid() && nco == MixOne(R, renorm, old(nco), x).0
      ensures mixed == old(mixed) + [MixOne(R, renorm, old(nco), x).1]
      ensures AllValid(Chain()) && Through(R, Chain(), mixed) == Through(R, Chain(), old(mixed)) + out
    {
      hide Linked, Through, AllValid, Chain, MixOne;
      var s := MixIn(x);
      out := FeedIn(s);
    }

    /** A block of samples. What is appended to the output is what the cascade has to add for them, so
        it does not matter how a stream is cut into blocks. */
    method Process(input: seq<T>, out: seq<T>) returns (out': seq<T>)
      requires Valid()
      modifies this, Objects(0)
      ensures Valid() && nco == Mix(R, renorm, old(nco), input).0
      ensures mixed == old(mixed) + Mix(R, renorm, old(nco), input).1
      ensures AllValid(Chain()) && out <= out'
      ensures Through(R, Chain(), mixed) == Through(R, Chain(), old(mixed)) + out'[|out|..]
    {
      ChainValid();
      ghost var m, was := nco, mixed;
      out' := out;
      MixNothing(R, renorm, m);
      hide Valid, Chain, Objects, Through, AllValid, MixOne, Mix;
      ghost var tail: seq<T> := [];
      for i := 0 to |input|
        invariant Valid() && AllValid(Chain()) && out' == out + tail
        invariant nco == Mix(R, renorm, m, input[..i]).0 && mixed == was + Mix(R, renorm, m, input[..i]).1
        invariant Through(R, Chain(), mixed) == Through(R, Chain(), was) + tail
      {
        MixStep(R, renorm, m, input, i);
        var more := ProcessOne(input[i]);
        Associative(out, tail, more);
        Associative(Through(R, Chain(), was), tail, more);
        out', tail := out' + more, tail + more;
      }
      assert input[..|input|] == input;
    }

    /** Retuning changes the step, not the phase reached. */
    method SetOffset(rot: T)
      requires Valid()
      modifies this`nco
      ensures Valid() && nco == Nco(old(nco).osc, rot, old(nco).count)
    {
      nco := nco.(rot := rot);
    }
  }

  lemma Associative<T>(a: seq<T>, b: seq<T>, c: seq<T>)
    ensures (a + b) + c == a + (b + c)
  {
  }

  lemma MixStep<T(!new)>(R: Ring<T>, renorm: T -> T, m: Nco<T>, xs: seq<T>, i: nat)
    requires i < |xs|
    ensures var before := Mix(R, renorm, m, xs[..i]);
            var step := MixOne(R, renorm, before.0, xs[i]);
            Mix(R, renorm, m, xs[..i + 1]) == (step.0, before.1 + [step.1])
  {
    assert xs[..i + 1][..i] == xs[..i];
  }

  lemma MixNothing<T(!new)>(R: Ring<T>, renorm: T -> T, m: Nco<T>)
    ensures Mix(R, renorm, m, []) == (m, [])
  {
  }
}
