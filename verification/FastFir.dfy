/** The fast FIR filter: the FFT does the convolution of each block. */
module FastFir {
  import opened Bits
  import opened Rings
  import opened Poly
  import opened Fourier
  import opened Convolution
  import opened FirStream
  import opened InPlaceFft

  /** The least of m, 2m, 4m, ... that is at least n. */
  function PowerFrom(m: nat, n: int): (p: nat)
    requires m > 0
    ensures p >= n && p >= m
    decreases n - m
  {
    if m >= n then m else PowerFrom(2 * m, n)
  }

  /** The buffer size for a kernel of k taps: at least four times k unless told otherwise. */
  function BufferSize(k: nat, approx: int): nat {
    PowerFrom(1, if approx <= 0 then 4 * k else approx)
  }

  lemma {:induction false} PowerFromIsPower(e: nat, n: int) returns (p: nat)
    ensures PowerFrom(Pow2(e), n) == Pow2(p) && p >= e
    decreases n - Pow2(e)
  {
    p := e;
    if Pow2(e) < n {
      p := PowerFromIsPower(e + 1, n);
    }
  }

  /** The buffer is no larger than it has to be: half of it would be too small. */
  lemma BufferIsLeast(k: nat, approx: int)
    ensures var n, asked := BufferSize(k, approx), if approx <= 0 then 4 * k else approx;
            n >= asked && (n == 1 || n / 2 < asked)
  {
    PowerFromIsLeast(1, if approx <= 0 then 4 * k else approx);
  }

  lemma {:induction false} PowerFromIsLeast(m: nat, n: int)
    requires m > 0
    ensures PowerFrom(m, n) == m || PowerFrom(m, n) / 2 < n
    decreases n - m
  {
    if m < n {
      PowerFromIsLeast(2 * m, n);
    }
  }

  lemma BufferIsPower(k: nat, approx: int) returns (q: nat)
    ensures BufferSize(k, approx) == Pow2(q)
  {
    q := PowerFromIsPower(0, if approx <= 0 then 4 * k else approx);
  }

  class JFastFir<T(0, !new)> {
    const R: Ring<T>
    const fft: Jfft<T>
    var kernel: seq<T>
    var sigspace: seq<T>
    var remainder: seq<T>
    var kernel_non_zero_size: int
    var signal_non_zero_size: int
    var remainder_size: int
    var sigspace_ptr: int
    var nfft: nat
    /** The kernel in the time domain. */
    ghost var taps: seq<T>

    ghost predicate Valid()
      reads this, fft
    {
      fft.R == R && fft.Usable()
    }

    /** No kernel yet: samples pass through. */
    ghost predicate Unset()
      reads this, fft
    {
      Valid() && signal_non_zero_size == 0 && sigspace_ptr == 0 && sigspace == [] && remainder == []
    }

    ghost function TheShape(): Shape<T>
      reads this
    {
      Shape(taps, nfft)
    }

    /** A kernel is set, whatever the buffers hold. */
    ghost predicate Loaded()
      reads this, fft
    {
      && fft.R == R && fft.Ready() && fft.nfft == nfft
      && TheShape().Fits()
      && kernel_non_zero_size == |taps| && signal_non_zero_size == TheShape().Signal()
      && remainder_size == TheShape().Tail()
      && kernel == Dft(R, Padded(R, taps, nfft), fft.W.fwd(fft.nfft_2power))
      && 0 <= sigspace_ptr && Sized(TheShape(), Model())
    }

    ghost predicate Ready()
      reads this, fft
    {
      Loaded() && Clean(R, TheShape(), Model())
    }

    ghost function Model(): Fir<T>
      reads this
    {
      Fir(sigspace, remainder, if sigspace_ptr < 0 then 0 else sigspace_ptr)
    }

    constructor (fft: Jfft<T>)
      requires fft.Usable()
      ensures this.fft == fft && R == fft.R && Unset()
      ensures kernel == [] && nfft == kernel_non_zero_size == remainder_size == 0
    {
      this.fft := fft;
      R := fft.R;
      kernel, sigspace, remainder, taps := [], [], [], [];
      kernel_non_zero_size, signal_non_zero_size, remainder_size, sigspace_ptr, nfft := 0, 0, 0, 0, 0;
    }

    /** Takes the kernel into the frequency domain and makes the buffers fit. A new filter starts with
        zeros; one that has run keeps what its buffers hold, and is as it should be if its signal part has not
        become shorter. */
    method SetKernel(newKernel: seq<T>, approx: int)
      requires (Unset() || Ready()) && newKernel != []
      requires var n := BufferSize(|newKernel|, approx); 2 <= n <= Pow2(fft.top) && 2 * |newKernel| <= n + 2
      modifies this, fft
      ensures Loaded() && taps == newKernel && nfft == BufferSize(|newKernel|, approx)
      ensures Model() == Reloaded(R, TheShape(), old(Model()))
      ensures old(signal_non_zero_size) <= signal_non_zero_size ==> Ready()
      ensures old(Unset()) ==> Ready() && Model() == Start(R, TheShape())
    {
      hide Jfft.Ready, Dft, IsRoots, Pow2, BufferSize, Padded, Start, Reloaded;
      ghost var was := Model();
      ghost var before := TheShape();
      if !Unset() {
        ReadyIsUsable(fft);
      }
      MakeSpace(newKernel, approx);
      ghost var q := BufferIsPower(|newKernel|, approx);
      kernel := Spectrum(kernel, q);
      if old(Unset()) {
        ReloadedEmpty(R, TheShape());
      } else if before.Signal() <= TheShape().Signal() {
        ReloadedClean(R, before, TheShape(), was);
      }
    }

    /** The sizes, and all buffers cut or filled up with zeros. */
    method MakeSpace(newKernel: seq<T>, approx: int)
      requires newKernel != []
      requires var n := BufferSize(|newKernel|, approx); 2 <= n && 2 * |newKernel| <= n + 2
      modifies this
      ensures taps == newKernel && nfft == BufferSize(|newKernel|, approx) && kernel == Padded(R, taps, nfft)
      ensures kernel_non_zero_size == |taps| && signal_non_zero_size == TheShape().Signal()
      ensures remainder_size == TheShape().Tail() && sigspace_ptr == 0
      ensures TheShape().Fits() && Model() == Reloaded(R, TheShape(), old(Model()))
    {
      hide BufferSize;
      taps := newKernel;
      kernel_non_zero_size := |newKernel|;
      nfft := ChooseSize(kernel_non_zero_size, approx);
      kernel := Resize(newKernel, nfft, R.zero);
      sigspace := Resize(sigspace, nfft, R.zero);
      sigspace_ptr := 0;
      signal_non_zero_size := nfft + 1 - kernel_non_zero_size;
      remainder_size := nfft - signal_non_zero_size;
      remainder := Resize(remainder, remainder_size, R.zero);
    }

    method ChooseSize(k: nat, approx: int) returns (n: nat)
      ensures n == BufferSize(k, approx)
    {
      var approx_fft_size := if approx <= 0 then 4 * k else approx;
      n := 1;
      while n < approx_fft_size
        invariant n > 0 && PowerFrom(n, approx_fft_size) == BufferSize(k, approx)
      {
        n := 2 * n;
      }
    }

    method Spectrum(k: seq<T>, ghost q: nat) returns (y: seq<T>)
      requires fft.Usable() && |k| == Pow2(q) && 2 <= |k| <= Pow2(fft.top)
      modifies fft
      ensures fft.Ready() && fft.nfft == |k| && y == Dft(fft.R, k, fft.W.fwd(fft.nfft_2power))
    {
      hide IsRoots, Table, Dft;
      y := fft.FftVector(k, false);
      OnePower(fft.nfft_2power, q);
      assert k + ZeroSeq(fft.R, 0) == k;
    }

    // ---------- a full block ----------

    /** FFT, product with the kernel's spectrum, inverse FFT. */
    method Convolve() returns (sig: seq<T>)
      requires Ready()
      modifies fft
      ensures Ready() && unchanged(this)
      ensures sig == Conv(R, taps, sigspace[..signal_non_zero_size], nfft)
    {
      assert IsRing(R);
      hide IsRoots, Table, Conv, Dft, Pow2, IsRing;
      var block := sigspace[..signal_non_zero_size];
      assert sigspace == Padded(R, block, nfft);
      sig := SameSize(sigspace, false);
      sig := Multiply(sig, kernel);
      SpectraMultiply(R, taps, block, nfft, fft.W.fwd(fft.nfft_2power));
      fft.InverseUndoesForward(Conv(R, taps, block, nfft));
      sig := SameSize(sig, true);
    }

    method SameSize(x: seq<T>, inverse: bool) returns (y: seq<T>)
      requires fft.Ready() && |x| == fft.nfft
      modifies fft
      ensures unchanged(fft) && y == fft.Transform(x, inverse)
    {
      hide IsRoots, Table;
      SizeBounds(fft);
      y := fft.FftVector(x, inverse);
      assert x + ZeroSeq(fft.R, 0) == x;
    }

    method Multiply(a: seq<T>, b: seq<T>) returns (c: seq<T>)
      requires |a| == |b|
      ensures c == Product(R, a, b)
    {
      c := a;
      for k := 0 to |a|
        invariant |c| == |a| && forall i :: 0 <= i < |a| ==> c[i] == if i < k then R.mul(a[i], b[i]) else a[i]
      {
        c := c[k := R.mul(c[k], b[k])];
      }
    }

    method FlushBlock(easy: bool)
      requires Ready()
      modifies this, fft
      ensures Ready() && taps == old(taps) && nfft == old(nfft)
      ensures Model() == Flush(R, TheShape(), old(Model()))
    {
      hide IsRoots, Table, Conv, Dft, Jfft.Ready, Padded;
      ghost var c, s := TheShape(), Model();
      var sig := Convolve();
      var rem;
      if easy {
        sig, rem := OverlapClear(R, sig, remainder, signal_non_zero_size, remainder_size);
      } else {
        sig, rem := OverlapFast(R, sig, remainder, signal_non_zero_size, remainder_size);
      }
      sigspace, remainder := sig, rem;
      sigspace_ptr := 0;
      assert Model() == Flush(R, c, s);
    }

    // ---------- one sample ----------

    method Update(in_val: T) returns (out_val: T)
      requires Ready() || Unset()
      modifies this, fft
      ensures old(Unset()) ==> out_val == in_val && unchanged(this)
      ensures old(Ready()) ==> Ready() && taps == old(taps) && nfft == old(nfft)
      ensures old(Ready()) ==> (Model(), out_val) == Push(R, TheShape(), old(Model()), in_val)
    {
      out_val := UpdateWith(in_val, false);
    }

    method UpdateEasyToUnderstand(in_val: T) returns (out_val: T)
      requires Ready() || Unset()
      modifies this, fft
      ensures old(Unset()) ==> out_val == in_val && unchanged(this)
      ensures old(Ready()) ==> Ready() && taps == old(taps) && nfft == old(nfft)
      ensures old(Ready()) ==> (Model(), out_val) == Push(R, TheShape(), old(Model()), in_val)
    {
      out_val := UpdateWith(in_val, true);
    }

    /** Both single-sample updates; they differ in how they treat the overlap. */
    method UpdateWith(in_val: T, easy: bool) returns (out_val: T)
      requires Ready() || Unset()
      modifies this, fft
      ensures old(Unset()) ==> out_val == in_val && unchanged(this)
      ensures old(Ready()) ==> Ready() && taps == old(taps) && nfft == old(nfft)
      ensures old(Ready()) ==> (Model(), out_val) == Push(R, TheShape(), old(Model()), in_val)
    {
      hide Flush, Dft, Jfft.Ready, Padded;
      if sigspace_ptr >= signal_non_zero_size {
        if signal_non_zero_size <= 0 {
          return in_val;
        }
        FlushBlock(easy);
      }
      out_val := sigspace[sigspace_ptr];
      sigspace := sigspace[sigspace_ptr := in_val];
      sigspace_ptr := sigspace_ptr + 1;
    }

    // ---------- a block of samples ----------

    /** As many samples as fit in the block, exchanged for finished ones; first a full block is flushed. */
    method ExchangeChunk(samples: seq<T>) returns (out: seq<T>)
      requires Ready() && samples != []
      modifies this, fft
      ensures Ready() && taps == old(taps) && nfft == old(nfft)
      ensures 0 < |out| <= |samples|
      ensures (Model(), out) == Run(R, TheShape(), old(Model()), samples[..|out|])
    {
      hide Flush, Dft, Jfft.Ready, Padded, Run;
      ghost var before := Model();
      if sigspace_ptr >= signal_non_zero_size {
        FlushBlock(false);
      }
      var room := signal_non_zero_size - sigspace_ptr;
      var n := if room < |samples| then room else |samples|;
      var p := sigspace_ptr;
      var tmp_space := samples[..n];
      RunSome(R, TheShape(), before, tmp_space, p);
      out := sigspace[p..p + n];
      sigspace := sigspace[..p] + tmp_space + sigspace[p + n..];
      sigspace_ptr := p + n;
    }

    method UpdateBlock(buffer: seq<T>) returns (result: seq<T>)
      requires Ready() || Unset()
      modifies this, fft
      ensures old(Unset()) ==> result == buffer && unchanged(this)
      ensures old(Ready()) ==> Ready() && taps == old(taps) && nfft == old(nfft)
      ensures old(Ready()) ==> (Model(), result) == Run(R, TheShape(), old(Model()), buffer)
    {
      hide Flush, Dft, Jfft.Ready, Padded, Run;
      result := buffer;
      if signal_non_zero_size <= 0 {
        return;
      }
      ghost var c, s := TheShape(), Model();
      RunNothing(R, c, s);
      var done := 0;
      assert buffer[..0] == [];
      while done < |buffer|
        invariant 0 <= done <= |buffer| == |result|
        invariant Ready() && taps == old(taps) && nfft == old(nfft)
        invariant (Model(), result[..done]) == Run(R, c, s, buffer[..done])
        invariant result[done..] == buffer[done..]
      {
        ghost var before := Model();
        var out := ExchangeChunk(result[done..]);
        var n := |out|;
        assert result[done..] == buffer[done..];
        assert buffer[done..][..n] == buffer[done..done + n];
        result := result[..done] + out + result[done + n..];
        assert buffer[..done + n] == buffer[..done] + buffer[done..done + n];
        RunConcat(R, c, s, buffer[..done], buffer[done..done + n]);
        done := done + n;
      }
      assert buffer[..done] == buffer && result[..done] == result;
    }
  }

  /** The start of a convolved block takes the carried tail; behind the signal it is cleared. */
  function Overlapped<T(!new)>(R: Ring<T>, sig: seq<T>, rem: seq<T>, S: int): (y: seq<T>)
    requires 0 <= |rem| <= S && |sig| == S + |rem|
    ensures |y| == |sig|
  {
    seq(|sig|, j requires 0 <= j < |sig| =>
      if j < |rem| then R.add(sig[j], rem[j]) else if j < S then sig[j] else R.zero)
  }

  /** Overlap in one loop, as `update` does it. */
  method OverlapFast<T(!new)>(R: Ring<T>, sig: seq<T>, rem: seq<T>, S: int, tail: int)
      returns (sig': seq<T>, rem': seq<T>)
    requires 0 <= tail <= S && |sig| == S + tail && |rem| == tail
    ensures sig' == Overlapped(R, sig, rem, S) && rem' == sig[S..]
  {
    sig', rem' := sig, rem;
    for k := 0 to tail
      invariant |sig'| == |sig| && |rem'| == tail
      invariant forall j :: 0 <= j < |sig| ==>
                  sig'[j] == if j < k then R.add(sig[j], rem[j]) else if S <= j < S + k then R.zero else sig[j]
      invariant forall j :: 0 <= j < tail ==> rem'[j] == if j < k then sig[S + j] else rem[j]
    {
      sig' := sig'[k := R.add(sig'[k], rem'[k])];
      rem' := rem'[k := sig'[k + S]];
      sig' := sig'[k + S := R.zero];
    }
  }

  /** Overlap in three loops, as `update_easy_to_understand` does it. */
  method OverlapClear<T(!new)>(R: Ring<T>, sig: seq<T>, rem: seq<T>, S: int, tail: int)
      returns (sig': seq<T>, rem': seq<T>)
    requires 0 <= tail <= S && |sig| == S + tail && |rem| == tail
    ensures sig' == Overlapped(R, sig, rem, S) && rem' == sig[S..]
  {
    sig', rem' := sig, rem;
    for k := 0 to tail
      invariant |sig'| == |sig|
      invariant forall j :: 0 <= j < |sig| ==> sig'[j] == if j < k then R.add(sig[j], rem[j]) else sig[j]
    {
      sig' := sig'[k := R.add(sig'[k], rem[k])];
    }
    for k := 0 to tail
      invariant |rem'| == tail && forall j :: 0 <= j < tail ==> rem'[j] == if j < k then sig[S + j] else rem[j]
    {
      rem' := rem'[k := sig'[k + S]];
    }
    ghost var added := sig';
    for k := 0 to tail
      invariant |sig'| == |sig|
      invariant forall j :: 0 <= j < |sig| ==> sig'[j] == if S <= j < S + k then R.zero else added[j]
    {
      sig' := sig'[k + S := R.zero];
    }
  }

  lemma ReadyIsUsable<T(0, !new)>(fft: Jfft<T>)
    requires fft.Ready()
    ensures fft.Usable()
  {
  }

  lemma SizeBounds<T(0, !new)>(fft: Jfft<T>)
    requires fft.Ready()
    ensures 2 <= fft.nfft <= Pow2(fft.top)
  {
    PowLess(1, fft.nfft_2power);
    PowLess(fft.nfft_2power, fft.top);
  }

  /** A power of two is its own transform size. */
  lemma OnePower(p: nat, q: nat)
    requires Pow2(q) <= Pow2(p) < 2 * Pow2(q)
    ensures p == q
  {
    PowLess(q, p);
    PowLess(p, q);
    PowLess(q + 1, p);
  }
}
