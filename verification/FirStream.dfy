/** Overlap-add filtering as a state machine, and what it puts out over a whole stream. */
module FirStream {
  import opened Rings
  import opened Poly
  import opened Convolution

  /** The signal buffer (new samples before ptr, finished ones after), the carried tail, the place. */
  datatype Fir<T> = Fir(sig: seq<T>, rem: seq<T>, ptr: nat)

  /** A kernel h, a buffer of n, and what is left of it for signal. */
  datatype Shape<T> = Shape(h: seq<T>, n: nat)
  {
    /** The size asserted when the kernel is set: the tail is no longer than the signal part. */
    ghost predicate Fits() {
      h != [] && n >= 2 && 2 * |h| <= n + 2
    }

    function Signal(): int {
      n + 1 - |h|
    }

    function Tail(): int {
      |h| - 1
    }
  }

  ghost predicate Sized<T>(c: Shape<T>, s: Fir<T>) {
    c.Fits() && |s.sig| == c.n && |s.rem| == c.Tail() && s.ptr <= c.Signal()
  }

  /** The part of the buffer behind the signal is zero. */
  ghost predicate Clean<T(!new)>(R: Ring<T>, c: Shape<T>, s: Fir<T>) {
    Sized(c, s) && forall j :: c.Signal() <= j < c.n ==> s.sig[j] == R.zero
  }

  /** A full block is convolved; its start takes the old tail, its end becomes the new one. */
  ghost function Flush<T(!new)>(R: Ring<T>, c: Shape<T>, s: Fir<T>): (f: Fir<T>)
    requires Sized(c, s)
    ensures Clean(R, c, f) && f.ptr == 0
  {
    var y := Conv(R, c.h, s.sig[..c.Signal()], c.n);
    Fir(seq(c.n, j requires 0 <= j < c.n =>
          if j < c.Tail() then R.add(y[j], s.rem[j]) else if j < c.Signal() then y[j] else R.zero),
        y[c.Signal()..], 0)
  }

  /** One sample in, one out. */
  ghost function Push<T(!new)>(R: Ring<T>, c: Shape<T>, s: Fir<T>, x: T): (r: (Fir<T>, T))
    requires Clean(R, c, s)
    ensures Clean(R, c, r.0)
  {
    var f := if s.ptr >= c.Signal() then Flush(R, c, s) else s;
    (Fir(f.sig[f.ptr := x], f.rem, f.ptr + 1), f.sig[f.ptr])
  }

  ghost function Run<T(!new)>(R: Ring<T>, c: Shape<T>, s: Fir<T>, xs: seq<T>): (r: (Fir<T>, seq<T>))
    requires Clean(R, c, s)
    ensures Clean(R, c, r.0) && |r.1| == |xs|
  {
    if xs == [] then (s, [])
    else
      var n := |xs| - 1;
      var before := Run(R, c, s, xs[..n]);
      var step := Push(R, c, before.0, xs[n]);
      (step.0, before.1 + [step.1])
  }

  ghost function Start<T(!new)>(R: Ring<T>, c: Shape<T>): (s: Fir<T>)
    requires c.Fits()
    ensures Clean(R, c, s)
  {
    Fir(ZeroSeq(R, c.n), ZeroSeq(R, c.Tail()), 0)
  }

  // ---------- what the state holds after a stream ----------

  /** The stream is past + the samples already in the block. The rest of the block is the output of
      the filter on past, and the remainder is what past still has to give to the next samples. */
  ghost predicate Holds<T(!new)>(R: Ring<T>, c: Shape<T>, past: seq<T>, s: Fir<T>, xs: seq<T>) {
    && Clean(R, c, s)
    && xs == past + s.sig[..s.ptr]
    && (forall j :: s.ptr <= j < c.Signal() ==> s.sig[j] == ConvAt(R, c.h, past, |past| - c.Signal() + j))
    && (forall k :: 0 <= k < c.Tail() ==> s.rem[k] == ConvAt(R, c.h, past, |past| + k))
  }

  lemma StartHolds<T(!new)>(R: Ring<T>, c: Shape<T>)
    requires IsRing(R) && c.Fits()
    ensures Holds(R, c, [], Start(R, c), [])
  {
    forall j: int ensures ConvAt(R, c.h, [], j) == R.zero {
      ConvOfNothing(R, c.h, j);
    }
  }

  lemma {:induction false} ConvOfNothing<T(!new)>(R: Ring<T>, h: seq<T>, j: int)
    requires IsRing(R)
    ensures ConvAt(R, h, [], j) == R.zero
  {
    if h != [] {
      ConvOfNothing(R, h[1..], j - 1);
      MulZero(R, h[0]);
      Unit(R, R.zero);
    }
  }

  /** A flush at the end of a block moves the block into the past. */
  lemma FlushHolds<T(!new)>(R: Ring<T>, c: Shape<T>, past: seq<T>, s: Fir<T>, xs: seq<T>)
    requires IsRing(R) && Holds(R, c, past, s, xs) && s.ptr == c.Signal()
    ensures Holds(R, c, xs, Flush(R, c, s), xs)
  {
    hide IsRing, ConvAt;
    var block, m, f := s.sig[..c.Signal()], |past|, Flush(R, c, s);
    assert xs == past + block;
    forall j | 0 <= j < c.Signal() ensures f.sig[j] == ConvAt(R, c.h, xs, |xs| - c.Signal() + j) {
      ConvConcat(R, c.h, past, block, m + j);
      Commute(R, ConvAt(R, c.h, past, m + j), ConvAt(R, c.h, block, j));
      if j >= c.Tail() {
        ConvOutside(R, c.h, past, m + j);
        Unit(R, ConvAt(R, c.h, block, j));
      }
    }
    forall k | 0 <= k < c.Tail() ensures f.rem[k] == ConvAt(R, c.h, xs, |xs| + k) {
      ConvConcat(R, c.h, past, block, |xs| + k);
      ConvOutside(R, c.h, past, |xs| + k);
      Unit(R, ConvAt(R, c.h, block, c.Signal() + k));
    }
  }

  /** One sample: the invariant moves on, and the output is the filter's, delayed by the signal part. */
  lemma PushHolds<T(!new)>(R: Ring<T>, c: Shape<T>, past: seq<T>, s: Fir<T>, xs: seq<T>, x: T) returns (past': seq<T>)
    requires IsRing(R) && Holds(R, c, past, s, xs)
    ensures Holds(R, c, past', Push(R, c, s, x).0, xs + [x])
    ensures Push(R, c, s, x).1 == ConvAt(R, c.h, xs, |xs| - c.Signal())
  {
    hide IsRing, ConvAt;
    var f := s;
    past' := past;
    if s.ptr >= c.Signal() {
      FlushHolds(R, c, past, s, xs);
      f := Flush(R, c, s);
      past' := xs;
    }
    var cur := f.sig[..f.ptr];
    assert xs == past' + cur;
    ConvCausal(R, c.h, past', cur, |xs| - c.Signal());
    assert f.sig[f.ptr := x][..f.ptr + 1] == cur + [x];
    assert xs + [x] == past' + (cur + [x]);
  }

  /** Over any stream from the start, output t is the linear convolution of the stream with the kernel
      at t - S, where S is the size of the signal part: the filter, delayed by exactly S samples. */
  lemma {:induction false} RunIsConvolution<T(!new)>(R: Ring<T>, c: Shape<T>, xs: seq<T>) returns (past: seq<T>)
    requires IsRing(R) && c.Fits()
    ensures Holds(R, c, past, Run(R, c, Start(R, c), xs).0, xs)
    ensures forall t :: 0 <= t < |xs| ==> Run(R, c, Start(R, c), xs).1[t] == ConvAt(R, c.h, xs, t - c.Signal())
  {
    hide IsRing, ConvAt, Push, Start, Holds;
    if xs == [] {
      StartHolds(R, c);
      past := [];
    } else {
      var n := |xs| - 1;
      var before := RunIsConvolution(R, c, xs[..n]);
      past := PushHolds(R, c, before, Run(R, c, Start(R, c), xs[..n]).0, xs[..n], xs[n]);
      assert xs[..n] + [xs[n]] == xs;
      var out := Run(R, c, Start(R, c), xs).1;
      forall t | 0 <= t < |xs| ensures out[t] == ConvAt(R, c.h, xs, t - c.Signal()) {
        ConvCausal(R, c.h, xs[..n], [xs[n]], t - c.Signal());
      }
    }
  }

  // ---------- blocks ----------

  lemma RunNothing<T(!new)>(R: Ring<T>, c: Shape<T>, s: Fir<T>)
    requires Clean(R, c, s)
    ensures Run(R, c, s, []) == (s, [])
  {
  }

  lemma {:induction false} RunConcat<T(!new)>(R: Ring<T>, c: Shape<T>, s: Fir<T>, a: seq<T>, b: seq<T>)
    requires Clean(R, c, s)
    ensures var first := Run(R, c, s, a);
            var second := Run(R, c, first.0, b);
            Run(R, c, s, a + b) == (second.0, first.1 + second.1)
  {
    hide Push;
    if b == [] {
      assert a + b == a;
      assert Run(R, c, s, a).1 + [] == Run(R, c, s, a).1;
    } else {
      var n := |b| - 1;
      RunConcat(R, c, s, a, b[..n]);
      assert (a + b)[..|a + b| - 1] == a + b[..n];
      var first := Run(R, c, s, a);
      var mid := Run(R, c, first.0, b[..n]);
      var last := Push(R, c, mid.0, b[n]).1;
      assert (first.1 + mid.1) + [last] == first.1 + (mid.1 + [last]);
    }
  }

  /** In and out exchanged at once, for samples that fit in the block. */
  ghost function Exchanged<T>(f: Fir<T>, p: nat, xs: seq<T>): (Fir<T>, seq<T>)
    requires p + |xs| <= |f.sig|
  {
    (Fir(f.sig[..p] + xs + f.sig[p + |xs|..], f.rem, p + |xs|), f.sig[p..p + |xs|])
  }

  /** A chunk that fits in the block, after a flush if one is due. */
  lemma {:induction false} RunSome<T(!new)>(R: Ring<T>, c: Shape<T>, s: Fir<T>, xs: seq<T>, p: nat)
    requires Clean(R, c, s) && xs != []
    requires p == if s.ptr >= c.Signal() then 0 else s.ptr
    requires p + |xs| <= c.Signal()
    ensures var f := if s.ptr >= c.Signal() then Flush(R, c, s) else s;
            Run(R, c, s, xs) == Exchanged(f, p, xs)
  {
    hide Flush;
    var f := if s.ptr >= c.Signal() then Flush(R, c, s) else s;
    var n := |xs| - 1;
    if n == 0 {
      assert xs[..0] == [];
      assert xs == [] + [xs[0]];
      RunNothing(R, c, s);
    } else {
      RunSome(R, c, s, xs[..n], p);
      assert xs == xs[..n] + [xs[n]];
    }
    ExchangeNext(f, p, xs[..n], xs[n]);
  }

  lemma ExchangeNext<T>(f: Fir<T>, p: nat, xs: seq<T>, x: T)
    requires p + |xs| < |f.sig|
    ensures var g, q := Exchanged(f, p, xs), p + |xs|;
            && Exchanged(f, p, xs + [x]) == (Fir(g.0.sig[q := x], f.rem, q + 1), g.1 + [g.0.sig[q]])
            && g.0.sig[q] == f.sig[q]
            && (xs == [] ==> g == (Fir(f.sig, f.rem, p), []))
  {
    SetNext(f.sig, p, xs, x);
  }

  lemma SetNext<T>(s: seq<T>, p: nat, xs: seq<T>, x: T)
    requires p + |xs| < |s|
    ensures var n := |xs|;
            && (s[..p] + xs + s[p + n..])[p + n] == s[p + n]
            && (s[..p] + xs + s[p + n..])[p + n := x] == s[..p] + (xs + [x]) + s[p + n + 1..]
            && s[p..p + n] + [s[p + n]] == s[p..p + n + 1]
            && s[..p] + [] + s[p..] == s
  {
  }

  // ---------- a kernel set on buffers that are in use ----------

  /** std::vector::resize: cut, or filled up with a value. */
  function Resize<T>(v: seq<T>, n: nat, x: T): (r: seq<T>)
    ensures |r| == n
  {
    if n <= |v| then v[..n] else v + seq(n - |v|, _ => x)
  }

  /** The buffers that a new kernel finds, at their new sizes, and the place back at the start. */
  function Reloaded<T(!new)>(R: Ring<T>, c: Shape<T>, s: Fir<T>): (f: Fir<T>)
    requires c.h != []
    ensures |f.sig| == c.n && |f.rem| == c.Tail() && f.ptr == 0
  {
    Fir(Resize(s.sig, c.n, R.zero), Resize(s.rem, c.Tail(), R.zero), 0)
  }

  lemma ReloadedEmpty<T(!new)>(R: Ring<T>, c: Shape<T>)
    requires c.Fits()
    ensures Reloaded(R, c, Fir([], [], 0)) == Start(R, c)
  {
  }

  /** A longer signal part, or one of the same length, leaves zeros behind it. */
  lemma ReloadedClean<T(!new)>(R: Ring<T>, b: Shape<T>, c: Shape<T>, s: Fir<T>)
    requires Clean(R, b, s) && c.Fits() && b.Signal() <= c.Signal()
    ensures Clean(R, c, Reloaded(R, c, s))
  {
  }

  /** Whether everything that comes out from a state on is the delayed convolution of what goes in. */
  ghost predicate Filters<T(!new)>(R: Ring<T>, c: Shape<T>, s: Fir<T>)
    requires Clean(R, c, s)
  {
    forall xs: seq<T>, t: nat :: t < |xs| ==> Run(R, c, s, xs).1[t] == ConvAt(R, c.h, xs, t - c.Signal())
  }

  lemma {:induction false} ConvOfZeros<T(!new)>(R: Ring<T>, h: seq<T>, n: nat, j: int)
    requires IsRing(R)
    ensures ConvAt(R, h, ZeroSeq(R, n), j) == R.zero
  {
    if h != [] {
      ConvOfZeros(R, h[1..], n, j - 1);
      MulZero(R, h[0]);
      Unit(R, R.zero);
    }
  }

  /** From the start of a block on, the block comes out as it is, and then the remainder, if zeros go in. */
  lemma ZerosShowState<T(!new)>(R: Ring<T>, c: Shape<T>, s: Fir<T>)
    requires IsRing(R) && Clean(R, c, s) && s.ptr == 0
    ensures var out := Run(R, c, s, ZeroSeq(R, c.Signal() + c.Tail())).1;
            && (forall j :: 0 <= j < c.Signal() ==> out[j] == s.sig[j])
            && forall j :: 0 <= j < c.Tail() ==> out[c.Signal() + j] == s.rem[j]
  {
    hide Run, ConvAt, IsRing, Flush;
    var S, tail := c.Signal(), c.Tail();
    var a, b := ZeroSeq(R, S), ZeroSeq(R, tail);
    RunSome(R, c, s, a, 0);
    var t := Run(R, c, s, a).0;
    assert t.ptr == S && t.sig[..S] == a && t.rem == s.rem;
    RunConcat(R, c, s, a, b);
    assert a + b == ZeroSeq(R, S + tail);
    if tail > 0 {
      RunSome(R, c, t, b, 0);
      FlushZeros(R, c, t);
    }
  }

  lemma FlushZeros<T(!new)>(R: Ring<T>, c: Shape<T>, s: Fir<T>)
    requires IsRing(R) && Clean(R, c, s) && s.sig[..c.Signal()] == ZeroSeq(R, c.Signal())
    ensures forall j :: 0 <= j < c.Tail() ==> Flush(R, c, s).sig[j] == s.rem[j]
  {
    hide IsRing, ConvAt;
    forall j | 0 <= j < c.Tail() ensures Flush(R, c, s).sig[j] == s.rem[j] {
      ConvOfZeros(R, c.h, c.Signal(), j);
      Unit(R, s.rem[j]);
    }
  }

  ghost predicate AllZero<T(!new)>(R: Ring<T>, x: seq<T>) {
    forall j :: 0 <= j < |x| ==> x[j] == R.zero
  }

  /** At the start of a block a filter is right for every stream if and only if its buffers are all zero. */
  lemma FiltersIffZero<T(!new)>(R: Ring<T>, c: Shape<T>, s: Fir<T>)
    requires IsRing(R) && Clean(R, c, s) && s.ptr == 0
    ensures Filters(R, c, s) <==> AllZero(R, s.sig[..c.Signal()]) && AllZero(R, s.rem)
  {
    hide Run, ConvAt, IsRing;
    if Filters(R, c, s) {
      var xs := ZeroSeq(R, c.Signal() + c.Tail());
      ZerosShowState(R, c, s);
      forall t: nat | t < |xs| ensures Run(R, c, s, xs).1[t] == R.zero {
        ConvOfZeros(R, c.h, |xs|, t - c.Signal());
      }
    }
    if AllZero(R, s.sig[..c.Signal()]) && AllZero(R, s.rem) {
      assert forall j :: 0 <= j < c.Signal() ==> s.sig[j] == s.sig[..c.Signal()][j];
      assert s.sig == Start(R, c).sig && s.rem == Start(R, c).rem;
      forall xs: seq<T>, t: nat | t < |xs| ensures Run(R, c, s, xs).1[t] == ConvAt(R, c.h, xs, t - c.Signal()) {
        var past := RunIsConvolution(R, c, xs);
      }
    }
  }

  /** The same kernel set again on a filter of which one sample has been asked: that sample comes out as it
      is, and the filter is wrong. */
  lemma SameKernelAgain<T(!new)>(R: Ring<T>, c: Shape<T>, x: T, y: T)
    requires IsRing(R) && c.Fits() && x != R.zero
    ensures var s := Reloaded(R, c, Push(R, c, Start(R, c), x).0);
            Clean(R, c, s) && Push(R, c, s, y).1 == x && !Filters(R, c, s)
  {
    hide IsRing, Filters;
    var t := Push(R, c, Start(R, c), x).0;
    ReloadedClean(R, c, c, t);
    var s := Reloaded(R, c, t);
    assert s.sig[..c.Signal()][0] == x;
    FiltersIffZero(R, c, s);
  }
}
