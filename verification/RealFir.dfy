/** The fast FIR filter on real samples: half-size transforms, and only half of the product. */
module RealFir {
  import opened Rings
  import opened Poly
  import opened Fourier
  import opened Convolution
  import opened FirStream
  import opened FastFir
  import opened InPlaceFft
  import opened RealFft

  lemma {:induction false} ConvReal<T(!new)>(R: Ring<T>, C: Conjugation<T>, W: Roots<T>, top: nat, h: seq<T>,
      x: seq<T>, j: int)
    requires IsRing(R) && IsConjugation(R, C, W, top) && AllReal(C, h) && AllReal(C, x)
    ensures C.conj(ConvAt(R, h, x, j)) == ConvAt(R, h, x, j)
  {
    ConjUnits(R, C, W, top);
    if h != [] {
      ConvReal(R, C, W, top, h[1..], x, j - 1);
      ConjSum(R, C, W, top, h[0], At(R, x, j));
      ConjSum(R, C, W, top, R.mul(h[0], At(R, x, j)), ConvAt(R, h[1..], x, j - 1));
    }
  }

  /** Filtering keeps real samples real. */
  lemma FlushReal<T(!new)>(R: Ring<T>, C: Conjugation<T>, W: Roots<T>, top: nat, c: Shape<T>, s: Fir<T>)
    requires IsRing(R) && IsConjugation(R, C, W, top) && Clean(R, c, s)
    requires AllReal(C, c.h) && AllReal(C, s.sig) && AllReal(C, s.rem)
    ensures var f := Flush(R, c, s); AllReal(C, f.sig) && AllReal(C, f.rem)
    ensures AllReal(C, Conv(R, c.h, s.sig[..c.Signal()], c.n))
  {
    hide IsConjugation, IsRing, ConvAt;
    var y := Conv(R, c.h, s.sig[..c.Signal()], c.n);
    ConjUnits(R, C, W, top);
    forall j | 0 <= j < c.n ensures C.conj(y[j]) == y[j] {
      ConvReal(R, C, W, top, c.h, s.sig[..c.Signal()], j);
    }
    var f := Flush(R, c, s);
    forall j | 0 <= j < c.n ensures C.conj(f.sig[j]) == f.sig[j] {
      if j < c.Tail() {
        ConjSum(R, C, W, top, y[j], s.rem[j]);
      }
    }
  }

  class RealFastFir<T(0, !new)> {
    const rt: RealTransforms<T>
    var kernel: seq<T>
    var sigspace_real: seq<T>
    var remainder_real: seq<T>
    var signal_non_zero_size: int
    var remainder_size: int
    var sigspace_ptr: int
    var nfft: nat
    /** The kernel in the time domain. */
    ghost var taps: seq<T>

    ghost function TheShape(): Shape<T>
      reads this
    {
      Shape(taps, nfft)
    }

    ghost function Model(): Fir<T>
      reads this
    {
      Fir(sigspace_real, remainder_real, if sigspace_ptr < 0 then 0 else sigspace_ptr)
    }

    /** No kernel yet: samples pass through. */
    ghost predicate Unset()
      reads this
    {
      signal_non_zero_size == 0 && sigspace_ptr == 0
    }

    ghost predicate Ready()
      reads this, rt, rt.fft
    {
      && rt.Ready() && nfft == 2 * rt.fft.nfft
      && TheShape().Fits() && AllReal(rt.C, taps)
      && signal_non_zero_size == TheShape().Signal() && remainder_size == TheShape().Tail()
      && kernel == rt.Spectrum(Padded(rt.R, taps, nfft))
      && 0 <= sigspace_ptr && Clean(rt.R, TheShape(), Model())
      && AllReal(rt.C, sigspace_real) && AllReal(rt.C, remainder_real)
    }

    /** A filter without kernel. */
    constructor (rt: RealTransforms<T>)
      ensures Unset() && this.rt == rt && sigspace_real == remainder_real == [] && nfft == remainder_size == 0
    {
      this.rt, taps, kernel, sigspace_real, remainder_real := rt, [], [], [], [];
      nfft, signal_non_zero_size, remainder_size, sigspace_ptr := 0, 0, 0, 0;
    }

    /** A real kernel, already in the frequency domain, and cleared buffers. */
    constructor WithKernel(rt: RealTransforms<T>, taps: seq<T>, kernel: seq<T>)
      requires rt.Ready() && taps != [] && 2 * |taps| <= 2 * rt.fft.nfft + 2 && AllReal(rt.C, taps)
      requires kernel == rt.Spectrum(Padded(rt.R, taps, 2 * rt.fft.nfft))
      ensures Ready() && this.rt == rt && this.taps == taps && nfft == 2 * rt.fft.nfft
      ensures Model() == Start(rt.R, TheShape())
    {
      this.rt, this.taps, this.kernel := rt, taps, kernel;
      var n, k := 2 * rt.fft.nfft, |taps|;
      nfft, sigspace_ptr := n, 0;
      signal_non_zero_size, remainder_size := n + 1 - k, k - 1;
      sigspace_real, remainder_real := ZeroSeq(rt.R, n), ZeroSeq(rt.R, k - 1);
      new;
      hide RealTransforms.Spectrum, IsRing, Padded;
      ConjUnits(rt.R, rt.C, rt.W, rt.fft.top);
    }

    /** The block filtered, which the product of the spectra transforms back to. */
    ghost function Filtered(): seq<T>
      requires 0 <= signal_non_zero_size <= |sigspace_real|
      reads this
    {
      Conv(rt.R, taps, sigspace_real[..signal_non_zero_size], nfft)
    }

    lemma FilteredIsReal()
      requires Ready()
      ensures |Filtered()| == nfft && AllReal(rt.C, Filtered()) && rt.Fits(Filtered())
    {
      FlushReal(rt.R, rt.C, rt.W, rt.fft.top, TheShape(), Model());
    }

    lemma FilteredSpectrum()
      requires Ready()
      ensures rt.Spectrum(Filtered()) == Product(rt.R, rt.Spectrum(sigspace_real), kernel)
    {
      var R, block := rt.R, sigspace_real[..signal_non_zero_size];
      assert IsRing(R);
      hide IsRing, IsConjugation, IsRoots, ConvAt, AllReal, Eval, Pow, Table;
      assert sigspace_real == Padded(R, block, nfft);
      SpectraMultiply(R, taps, block, nfft, rt.W.fwd(rt.fft.nfft_2power + 1));
    }

    /** The lower half of the product is all that the inverse looks at. */
    lemma HalfProduct(P: seq<T>)
      requires Ready() && |P| == nfft
      requires var X := rt.Spectrum(sigspace_real);
               forall k :: 0 <= k <= nfft / 2 ==> P[k] == rt.R.mul(X[k], kernel[k])
      ensures rt.Split(rt.fft.Transform(rt.Recombined(P), true)) == Filtered()
    {
      hide IsRing, IsConjugation, IsRoots, Conv, AllReal, Table, RealTransforms.Split, DiddleA, DiddleB,
           RealTransforms.Spectrum, Filtered, Padded;
      FilteredIsReal();
      FilteredSpectrum();
      var y := Filtered();
      assert forall k :: 0 <= k <= nfft / 2 ==> P[k] == rt.Spectrum(y)[k];
      assert rt.Recombined(P) == rt.Recombined(rt.Spectrum(y));
      rt.RealInverse(y);
    }

    method Convolve() returns (sig: seq<T>)
      requires Ready()
      ensures sig == Filtered()
    {
      hide RealTransforms.Ready, RealTransforms.Spectrum, Conv, Padded, IsRing, RealTransforms.Split,
           RealTransforms.Recombined;
      var n, s := nfft, sigspace_real;
      var real_part := new T[n](i requires 0 <= i < n => s[i]);
      var sigspace := new T[nfft](_ => rt.R.zero);
      assert real_part[..] == sigspace_real;
      rt.FftReal(real_part, sigspace);
      ghost var X := sigspace[..];
      for k := 0 to nfft / 2 + 1
        invariant forall j :: 0 <= j < nfft ==> sigspace[j] == if j < k then rt.R.mul(X[j], kernel[j]) else X[j]
      {
        sigspace[k] := rt.R.mul(sigspace[k], kernel[k]);
      }
      HalfProduct(sigspace[..]);
      rt.IfftReal(sigspace, real_part);
      sig := real_part[..];
    }

    method FlushBlock()
      requires Ready()
      modifies this
      ensures Ready() && taps == old(taps) && nfft == old(nfft)
      ensures Model() == Flush(rt.R, TheShape(), old(Model()))
    {
      assert IsRing(rt.R) && IsConjugation(rt.R, rt.C, rt.W, rt.fft.top);
      hide RealTransforms.Ready, RealTransforms.Spectrum, Conv, Padded, IsRing, IsConjugation;
      ghost var c, s := TheShape(), Model();
      FlushReal(rt.R, rt.C, rt.W, rt.fft.top, c, s);
      var sig := Convolve();
      sigspace_real, remainder_real := OverlapFast(rt.R, sig, remainder_real, signal_non_zero_size, remainder_size);
      sigspace_ptr := 0;
      assert Model() == Flush(rt.R, c, s);
    }

    /** One real sample: the same step as that of the complex filter. */
    method Update(real_in: T) returns (out_real: T)
      requires Unset() || (Ready() && rt.C.conj(real_in) == real_in)
      modifies this
      ensures old(Unset()) ==> out_real == real_in && unchanged(this)
      ensures old(Ready()) ==> Ready() && taps == old(taps) && nfft == old(nfft)
      ensures old(Ready()) ==> (Model(), out_real) == Push(rt.R, TheShape(), old(Model()), real_in)
    {
      hide RealTransforms.Ready, RealTransforms.Spectrum, Flush, Padded;
      if sigspace_ptr >= signal_non_zero_size {
        if signal_non_zero_size <= 0 {
          return real_in;
        }
        FlushBlock();
      }
      out_real := sigspace_real[sigspace_ptr];
      sigspace_real := sigspace_real[sigspace_ptr := real_in];
      sigspace_ptr := sigspace_ptr + 1;
    }
  }
}
