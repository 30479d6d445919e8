/** The radix-2 FFT in place, in its fast and its clear form, and the slow transform by definition. */
module InPlaceFft {
  import opened Bits
  import opened BitReversal
  import opened Rings
  import opened Poly
  import opened Fourier
  import opened FftStages

  // ---------- twiddle table ----------

  /** W^0_2, W^0_4, W^1_4, W^0_8, ...: the factors of stages 1 to p, one stage after another. */
  function Table<T(!new)>(R: Ring<T>, f: nat -> T, p: nat): (t: seq<T>)
    ensures |t| == Pow2(p) - 1
  {
    if p == 0 then [] else Table(R, f, p - 1) + Factors(R, f(p), Pow2(p - 1))
  }

  lemma {:induction false} TableSlice<T(!new)>(R: Ring<T>, f: nat -> T, p: nat, s: nat)
    requires 1 <= s <= p
    ensures Pow2(s) <= Pow2(p)
    ensures Table(R, f, p)[Pow2(s - 1) - 1..Pow2(s) - 1] == Factors(R, f(s), Pow2(s - 1))
  {
    hide Factors;
    if s < p {
      TableSlice(R, f, p - 1, s);
      assert Table(R, f, p)[Pow2(s - 1) - 1..Pow2(s) - 1] == Table(R, f, p - 1)[Pow2(s - 1) - 1..Pow2(s) - 1];
    }
  }

  // ---------- progress of a stage ----------

  /** A block after its first r butterflies. */
  function Partial<T(!new)>(R: Ring<T>, s: seq<T>, t: seq<T>, r: nat): (y: seq<T>)
    requires |s| == 2 * |t| && r <= |t|
    ensures |y| == |s|
  {
    var n := |t|;
    seq(n, k requires 0 <= k < n => if k < r then R.add(s[k], R.mul(t[k], s[n + k])) else s[k]) +
    seq(n, k requires 0 <= k < n => if k < r then R.sub(s[k], R.mul(t[k], s[n + k])) else s[n + k])
  }

  lemma PartialEnds<T(!new)>(R: Ring<T>, s: seq<T>, t: seq<T>)
    requires |s| == 2 * |t|
    ensures Partial(R, s, t, 0) == s && Partial(R, s, t, |t|) == Block(R, s, t)
  {
  }

  lemma PartialStep<T(!new)>(R: Ring<T>, s: seq<T>, t: seq<T>, r: nat)
    requires |s| == 2 * |t| && r < |t|
    ensures var y := Partial(R, s, t, r);
            var u := R.mul(t[r], y[|t| + r]);
            y[r := R.add(y[r], u)][|t| + r := R.sub(y[r], u)] == Partial(R, s, t, r + 1)
  {
  }

  /** The buffer with the blocks before base done, and r butterflies done in the block there. */
  function Progress<T(!new)>(R: Ring<T>, s: seq<T>, t: seq<T>, base: nat, r: nat): (y: seq<T>)
    requires t != [] && r <= |t| && base + 2 * |t| <= |s|
    ensures |y| == |s|
  {
    var m := base + 2 * |t|;
    StageSeq(R, s[..base], t) + Partial(R, s[base..m], t, r) + s[m..]
  }

  lemma ProgressStep<T(!new)>(R: Ring<T>, s: seq<T>, t: seq<T>, base: nat, r: nat)
    requires t != [] && r < |t| && base + 2 * |t| <= |s|
    ensures var y, k, l := Progress(R, s, t, base, r), base + r, base + |t| + r;
            var u := R.mul(t[r], y[l]);
            y[k := R.add(y[k], u)][l := R.sub(y[k], u)] == Progress(R, s, t, base, r + 1)
  {
    var m := base + 2 * |t|;
    PartialStep(R, s[base..m], t, r);
    var a, b, c := StageSeq(R, s[..base], t), Partial(R, s[base..m], t, r), s[m..];
    hide StageSeq, Partial;
    UpdateMiddle(a, b, c, r, |t| + r, R.add(b[r], R.mul(t[r], b[|t| + r])), R.sub(b[r], R.mul(t[r], b[|t| + r])));
  }

  lemma UpdateMiddle<T>(a: seq<T>, b: seq<T>, c: seq<T>, i: nat, j: nat, x: T, y: T)
    requires i < |b| && j < |b|
    ensures (a + b + c)[|a| + i] == b[i] && (a + b + c)[|a| + j] == b[j]
    ensures (a + b + c)[|a| + i := x][|a| + j := y] == a + b[i := x][j := y] + c
  {
  }

  lemma ProgressStart<T(!new)>(R: Ring<T>, s: seq<T>, t: seq<T>)
    requires t != [] && 2 * |t| <= |s|
    ensures Progress(R, s, t, 0, 0) == s
  {
    PartialEnds(R, s[0..2 * |t|], t);
  }

  /** A finished block: on to the next, or done. */
  lemma ProgressNext<T(!new)>(R: Ring<T>, s: seq<T>, t: seq<T>, base: nat)
    requires t != [] && base + 2 * |t| <= |s|
    ensures var next := base + 2 * |t|;
            && (next + 2 * |t| <= |s| ==> Progress(R, s, t, base, |t|) == Progress(R, s, t, next, 0))
            && (next == |s| ==> Progress(R, s, t, base, |t|) == StageSeq(R, s, t))
  {
    hide Progress, StageSeq;
    var next := base + 2 * |t|;
    BlockDone(R, s, t, base);
    if next + 2 * |t| <= |s| {
      BlockBegins(R, s, t, next);
    } else if next == |s| {
      assert s[..next] == s && s[next..] == [];
    }
  }

  lemma BlockBegins<T(!new)>(R: Ring<T>, s: seq<T>, t: seq<T>, base: nat)
    requires t != [] && base + 2 * |t| <= |s|
    ensures Progress(R, s, t, base, 0) == StageSeq(R, s[..base], t) + s[base..]
  {
    hide StageSeq, Partial, Block;
    var next := base + 2 * |t|;
    PartialEnds(R, s[base..next], t);
    assert s[base..] == s[base..next] + s[next..];
    Associate(StageSeq(R, s[..base], t), s[base..next], s[next..]);
  }

  lemma BlockDone<T(!new)>(R: Ring<T>, s: seq<T>, t: seq<T>, base: nat)
    requires t != [] && base + 2 * |t| <= |s|
    ensures var next := base + 2 * |t|; Progress(R, s, t, base, |t|) == StageSeq(R, s[..next], t) + s[next..]
  {
    hide StageSeq, Partial, Block;
    var next := base + 2 * |t|;
    PartialEnds(R, s[base..next], t);
    StageAppend(R, s[..base], s[base..next], t);
    assert s[..base] + s[base..next] == s[..next];
  }

  lemma Associate<T>(a: seq<T>, b: seq<T>, c: seq<T>)
    ensures a + (b + c) == a + b + c
  {
  }

  /** When the running index reaches a multiple of n. */
  lemma EndOfRun(b: nat, n: nat, r: nat)
    requires 0 < n && r < n
    ensures (b * (2 * n) + r + 1) % n == 0 <==> r + 1 == n
  {
    if r + 1 == n {
      assert b * (2 * n) + n == (2 * b + 1) * n;
      DivModUnique(b * (2 * n) + n, n, 2 * b + 1, 0);
    } else {
      assert b * (2 * n) == (2 * b) * n;
      DivModUnique(b * (2 * n) + r + 1, n, 2 * b, r + 1);
    }
  }

  lemma RoomForBlock(b: nat, c: nat, n: nat)
    ensures b < c ==> b * (2 * n) + 2 * n <= c * (2 * n)
    ensures (b + 1) * (2 * n) == b * (2 * n) + 2 * n
    ensures b * (2 * n) < c * (2 * n) ==> b < c
  {
    MulMonotone(2 * n, b + 1, c);
    MulMonotone(2 * n, c, b);
  }

  // ---------- the transform object ----------

  class Jfft<T(0, !new)> {
    const R: Ring<T>
    const W: Roots<T>
    ghost const top: nat
    var nfft: nat
    var nfft_2power: nat
    var twiddle: seq<T>
    var twiddleInv: seq<T>

    /** Roots of unity as far as the program can go, whose sizes are 32-bit integers. */
    ghost predicate Configured() {
      IsRoots(R, W, top) && top <= 30
    }

    ghost predicate SetUp()
      reads this
    {
      && Configured()
      && nfft_2power <= top && nfft == Pow2(nfft_2power)
      && |twiddle| == |twiddleInv| == nfft
      && twiddle[..nfft - 1] == Table(R, W.fwd, nfft_2power)
      && twiddleInv[..nfft - 1] == Table(R, W.bwd, nfft_2power)
    }

    /** Ready for the fast transform, which for a size of one would shift a 32-bit integer by 32. */
    ghost predicate Ready()
      reads this
    {
      SetUp() && nfft_2power >= 1
    }

    constructor (R: Ring<T>, W: Roots<T>, ghost top: nat)
      requires IsRoots(R, W, top) && top <= 30
      ensures Configured() && this.R == R && this.W == W && this.top == top && nfft == nfft_2power == 0
    {
      this.R, this.W, this.top := R, W, top;
      nfft, nfft_2power, twiddle, twiddleInv := 0, 0, [], [];
    }

    /** The least power of two not below the size asked for, and the tables for it. */
    method Init(size: int) returns (actual: nat)
      requires Configured() && size <= Pow2(top)
      modifies this
      ensures SetUp() && actual == nfft && size <= nfft && (nfft == 1 || nfft < 2 * size)
      ensures nfft > 1 ==> Ready()
    {
      hide IsRoots, Table;
      nfft, nfft_2power := 1, 0;
      while nfft < size
        invariant nfft == Pow2(nfft_2power) && nfft_2power <= top && (nfft == 1 || nfft < 2 * size)
        invariant nfft == 1 ==> nfft_2power == 0
        decreases size - nfft
      {
        if nfft_2power == top {
          assert false;
        }
        nfft := 2 * nfft;
        nfft_2power := nfft_2power + 1;
      }
      actual := nfft;
      twiddle := FillTable(W.fwd);
      twiddleInv := FillTable(W.bwd);
    }

    /** Stage by stage, the powers of exp(-2 pi i / N) below N / 2. */
    method FillTable(f: nat -> T) returns (t: seq<T>)
      requires nfft == Pow2(nfft_2power)
      ensures |t| == nfft && t[..nfft - 1] == Table(R, f, nfft_2power)
    {
      hide Pow;
      t := seq(nfft, _ => R.zero);
      var w, N := 0, 2;
      var s := 1;  // log2(N)
      while N <= nfft
        invariant 1 <= s <= nfft_2power + 1 && N == Pow2(s) && w == N / 2 - 1
        invariant |t| == nfft && w <= nfft && t[..w] == Table(R, f, s - 1)
        decreases nfft_2power + 1 - s
      {
        PowLess(s, nfft_2power);
        ghost var row := Factors(R, f(s), N / 2);
        for i := 0 to N / 2
          invariant w == N / 2 - 1 + i && |t| == nfft
          invariant t[..w] == Table(R, f, s - 1) + row[..i]
        {
          TakeUpdate(t, w, Pow(R, f(s), i));
          assert row[..i + 1] == row[..i] + [row[i]];
          t := t[w := Pow(R, f(s), i)];
          w := w + 1;
        }
        assert row[..N / 2] == row;
        N := 2 * N;
        s := s + 1;
      }
      PowLess(s, nfft_2power);
    }

    // ---------- bit reversal ----------

    method Swap(x: array<T>, i: nat, j: nat)
      requires i < x.Length && j < x.Length
      modifies x
      ensures x[..] == old(x[..])[i := old(x[j])][j := old(x[i])]
    {
      var c_tmp := x[j];
      x[j] := x[i];
      x[i] := c_tmp;
    }

    method ReverseFast(x: array<T>)
      requires Ready() && x.Length == nfft
      modifies x
      ensures x[..] == Permuted(old(x[..]), nfft_2power)
    {
      hide IsRoots, Table, Rev, Pow2;
      ghost var s := x[..];
      for i := 0 to nfft
        invariant forall k :: 0 <= k < nfft ==> x[k] == Swapped(s, nfft_2power, i, k)
      {
        var y := FastReverse(i, nfft_2power);
        SwapStep(s, nfft_2power, i);
        if y > i {
          Swap(x, i, y);
        }
      }
    }

    method ReverseClear(x: array<T>)
      requires SetUp() && x.Length == nfft
      modifies x
      ensures x[..] == Permuted(old(x[..]), nfft_2power)
    {
      hide IsRoots, Table, Rev, Pow2;
      ghost var s := x[..];
      for i := 0 to nfft
        invariant forall k :: 0 <= k < nfft ==> x[k] == Swapped(s, nfft_2power, i, k)
      {
        var ti2 := SlowReverse(i, nfft_2power);
        SwapStep(s, nfft_2power, i);
        if ti2 > i {
          Swap(x, i, ti2);
        }
      }
    }

    // ---------- stages ----------

    method Butterfly(x: array<T>, w: T, k: nat, l: nat)
      requires k < l < x.Length
      modifies x
      ensures var s := old(x[..]);
              x[..] == s[k := R.add(s[k], R.mul(w, s[l]))][l := R.sub(s[k], R.mul(w, s[l]))]
    {
      var y := R.mul(w, x[l]);
      x[l] := R.sub(x[k], y);
      x[k] := R.add(x[k], y);
    }

    /** The pointer walk: three pointers step together, and jump when k & nfill is zero. */
    method StageFast(x: array<T>, tw: seq<T>, n: nat, nfill: nat, ghost j: nat, ghost c: nat)
      requires n == Pow2(j) && nfill == n - 1 && x.Length == c * (2 * n) && 2 * n - 1 <= |tw| && c > 0
      modifies x
      ensures x[..] == StageSeq(R, old(x[..]), tw[n - 1..2 * n - 1])
    {
      hide Progress, StageSeq, Pow2, And;
      ghost var s, t := x[..], tw[n - 1..2 * n - 1];
      ghost var b, r, base := 0, 0, 0;
      var k, wp, xkp, xlp := 0, n - 1, 0, n;
      RoomForBlock(0, c, n);
      ProgressStart(R, s, t);
      while k < x.Length
        invariant 0 <= b <= c && base == b * (2 * n) && 0 <= r < n
        invariant k == xkp == base + r && xlp == k + n && wp == n - 1 + r
        invariant b == c ==> r == 0 && x[..] == StageSeq(R, s, t)
        invariant b < c ==> base + 2 * n <= x.Length && x[..] == Progress(R, s, t, base, r)
        decreases x.Length - base, n - r
      {
        RoomForBlock(b, c, n);
        ProgressStep(R, s, t, base, r);
        Butterfly(x, tw[wp], xkp, xlp);
        xkp, xlp, k := xkp + 1, xlp + 1, k + 1;
        AndMask(k, j);
        EndOfRun(b, n, r);
        if And(k, nfill) != 0 {
          wp := wp + 1;
          r := r + 1;
        } else {
          k := k + n;
          xkp, xlp := xkp + n, xlp + n;
          wp := n - 1;
          ProgressNext(R, s, t, base);
          RoomForBlock(b + 1, c, n);
          b, r, base := b + 1, 0, base + 2 * n;
        }
      }
    }

    /** The same with indices and a remainder. */
    method StageClear(x: array<T>, tw: seq<T>, n: nat, ghost c: nat)
      requires n > 0 && x.Length == c * (2 * n) && 2 * n - 1 <= |tw| && c > 0
      modifies x
      ensures x[..] == StageSeq(R, old(x[..]), tw[n - 1..2 * n - 1])
    {
      hide Progress, StageSeq;
      ghost var s, t := x[..], tw[n - 1..2 * n - 1];
      ghost var b, r, base := 0, 0, 0;
      var k, l, w := 0, n, n - 1;
      RoomForBlock(0, c, n);
      ProgressStart(R, s, t);
      while k < x.Length
        invariant 0 <= b <= c && base == b * (2 * n) && 0 <= r < n
        invariant k == base + r && l == k + n && w == n - 1 + r
        invariant b == c ==> r == 0 && x[..] == StageSeq(R, s, t)
        invariant b < c ==> base + 2 * n <= x.Length && x[..] == Progress(R, s, t, base, r)
        decreases x.Length - base, n - r
      {
        RoomForBlock(b, c, n);
        ProgressStep(R, s, t, base, r);
        Butterfly(x, tw[w], k, l);
        k, l := k + 1, l + 1;
        EndOfRun(b, n, r);
        if k % n == 0 {
          k, l := k + n, l + n;
          w := n - 1;
          ProgressNext(R, s, t, base);
          RoomForBlock(b + 1, c, n);
          b, r, base := b + 1, 0, base + 2 * n;
        } else {
          w := w + 1;
          r := r + 1;
        }
      }
    }

    // ---------- the transforms ----------

    ghost function Root(inverse: bool): nat -> T {
      if inverse then W.bwd else W.fwd
    }

    /** What a transform leaves: the definition, scaled by 1 / nfft backwards. */
    ghost function Transform(x: seq<T>, inverse: bool): (y: seq<T>)
      requires |x| == nfft
      reads this
      ensures |y| == |x|
    {
      var y := Dft(R, x, Root(inverse)(nfft_2power));
      if inverse then Scale(R, Pow(R, W.half, nfft_2power), y) else y
    }

    method Scaled(x: array<T>)
      requires SetUp() && x.Length == nfft
      modifies x
      ensures x[..] == Scale(R, Pow(R, W.half, nfft_2power), old(x[..]))
    {
      hide Table, Pow, Pow2, IsTower, IsRing;
      ghost var s := x[..];
      var c := Pow(R, W.half, nfft_2power);
      for i := 0 to nfft
        invariant forall k :: 0 <= k < nfft ==> x[k] == if k < i then R.mul(c, s[k]) else s[k]
      {
        Commute(R, x[i], c);
        x[i] := R.mul(x[i], c);
      }
    }

    method StagesFast(x: array<T>, tw: seq<T>, ghost f: nat -> T, ghost x0: seq<T>)
      requires SetUp() && x.Length == nfft == |x0| && x[..] == Permuted(x0, nfft_2power)
      requires IsTower(R, f, top) && |tw| == nfft && tw[..nfft - 1] == Table(R, f, nfft_2power)
      modifies x
      ensures x[..] == Dft(R, x0, f(nfft_2power))
    {
      hide Table, Pow, Pow2, Permuted, Blocks, StageSeq, Factors, IsTower, Dft, IsRing;
      ghost var p := nfft_2power;
      ghost var s := 1;
      var nfill, n := 0, 1;
      FirstStage(R, x0, f, p);
      LoopSizes(1, p);
      while n < nfft
        invariant 1 <= s <= p + 1 && n == Pow2(s - 1) && nfill == n - 1
        invariant x[..] == Blocks(R, x0, f(s - 1), p - (s - 1), Pow2(p - (s - 1)))
        decreases p + 1 - s
      {
        LoopSizes(s, p);
        StageSizes(p, s);
        NextStage(R, x0, f, top, p, s, tw);
        StageFast(x, tw, n, nfill, s - 1, Pow2(p - s));
        nfill := 2 * nfill + 1;
        n := 2 * n;
        s := s + 1;
      }
      LoopSizes(s, p);
      OneBlock(R, x0, f(p));
    }

    method StagesClear(x: array<T>, tw: seq<T>, ghost f: nat -> T, ghost x0: seq<T>)
      requires SetUp() && x.Length == nfft == |x0| && x[..] == Permuted(x0, nfft_2power)
      requires IsTower(R, f, top) && |tw| == nfft && tw[..nfft - 1] == Table(R, f, nfft_2power)
      modifies x
      ensures x[..] == Dft(R, x0, f(nfft_2power))
    {
      hide Table, Pow, Pow2, Permuted, Blocks, StageSeq, Factors, IsTower, Dft, IsRing;
      ghost var p := nfft_2power;
      ghost var s := 1;
      var n := 1;
      FirstStage(R, x0, f, p);
      LoopSizes(1, p);
      while n < nfft
        invariant 1 <= s <= p + 1 && n == Pow2(s - 1)
        invariant x[..] == Blocks(R, x0, f(s - 1), p - (s - 1), Pow2(p - (s - 1)))
        decreases p + 1 - s
      {
        LoopSizes(s, p);
        StageSizes(p, s);
        NextStage(R, x0, f, top, p, s, tw);
        StageClear(x, tw, n, Pow2(p - s));
        n := 2 * n;
        s := s + 1;
      }
      LoopSizes(s, p);
      OneBlock(R, x0, f(p));
    }

    /** The fast transform: masked bit reversal, then the pointer walk. */
    method Fft(x: array<T>, inverse: bool)
      requires Ready() && x.Length == nfft
      modifies x
      ensures x[..] == Transform(old(x[..]), inverse)
    {
      hide Table, Permuted, IsTower;
      ghost var x0 := x[..];
      ReverseFast(x);
      StagesFast(x, if inverse then twiddleInv else twiddle, Root(inverse), x0);
      if inverse {
        Scaled(x);
      }
    }

    /** The clear transform: the same result by the obvious loops. */
    method FftEasyToUnderstand(x: array<T>, inverse: bool)
      requires SetUp() && x.Length == nfft
      modifies x
      ensures x[..] == Transform(old(x[..]), inverse)
    {
      hide Table, Permuted, IsTower;
      ghost var x0 := x[..];
      ReverseClear(x);
      StagesClear(x, if inverse then twiddleInv else twiddle, Root(inverse), x0);
      if inverse {
        Scaled(x);
      }
    }

    /** Nothing set up yet, or ready. */
    ghost predicate Usable()
      reads this
    {
      Configured() && (nfft == 0 || SetUp())
    }

    /** The vector form: sets itself up again when the size is another, and pads with zeros. */
    method FftVector(x: seq<T>, inverse: bool) returns (y: seq<T>)
      requires Usable() && 2 <= |x| <= Pow2(top)
      modifies this
      ensures Ready() && |x| <= nfft < 2 * |x|
      ensures y == Transform(x + ZeroSeq(R, nfft - |x|), inverse)
      ensures old(nfft) == |x| ==> unchanged(this)
    {
      hide Table, IsRoots;
      var padded := x;
      if |x| != nfft {
        var n := Init(|x|);
        padded := x + seq(n - |x|, _ => R.zero);
      }
      assert padded == x + ZeroSeq(R, nfft - |x|);
      var a := new T[nfft](i requires 0 <= i < |padded| => padded[i]);
      assert a[..] == padded;
      Fft(a, inverse);
      y := a[..];
    }

    /** Forward, then backward: every vector comes back. */
    lemma InverseUndoesForward(x: seq<T>)
      requires SetUp() && |x| == nfft
      ensures Transform(Transform(x, false), true) == x
    {
      hide Table;
      InverseUndoes(R, W.fwd, W.bwd, W.half, top, nfft_2power, x);
    }

    /** Backward, then forward, too. */
    lemma ForwardUndoesInverse(x: seq<T>)
      requires SetUp() && |x| == nfft
      ensures Transform(Transform(x, true), false) == x
    {
      hide Table;
      var p := nfft_2power;
      forall s: nat | s <= top ensures R.mul(W.bwd(s), W.fwd(s)) == R.one {
        Commute(R, W.bwd(s), W.fwd(s));
      }
      InverseUndoes(R, W.bwd, W.fwd, W.half, top, p, x);
      DftScale(R, Pow(R, W.half, p), Dft(R, x, W.bwd(p)), W.fwd(p));
    }
  }

  lemma DftScale<T(!new)>(R: Ring<T>, c: T, x: seq<T>, w: T)
    requires IsRing(R)
    ensures Dft(R, Scale(R, c, x), w) == Scale(R, c, Dft(R, x, w))
  {
    forall k | 0 <= k < |x| ensures Dft(R, Scale(R, c, x), w)[k] == Scale(R, c, Dft(R, x, w))[k] {
      EvalScale(R, c, x, Pow(R, w, k));
    }
  }

  // ---------- the transform by definition ----------

  /** The first k terms of the defining sum. */
  function TermSum<T(!new)>(R: Ring<T>, x: seq<T>, z: T, k: nat): T
    requires k <= |x|
  {
    if k == 0 then R.zero else R.add(TermSum(R, x, z, k - 1), R.mul(x[k - 1], Pow(R, z, k - 1)))
  }

  lemma {:induction false} TermSumIsEval<T(!new)>(R: Ring<T>, x: seq<T>, z: T, k: nat)
    requires IsRing(R) && k <= |x|
    ensures TermSum(R, x, z, k) == Eval(R, x[..k], z)
  {
    if k > 0 {
      TermSumIsEval(R, x, z, k - 1);
      assert x[..k] == x[..k - 1] + [x[k - 1]];
      EvalConcat(R, x[..k - 1], [x[k - 1]], z);
      Singleton(R, [x[k - 1]], z);
      Commute(R, x[k - 1], Pow(R, z, k - 1));
    }
  }

  lemma {:induction false} PowTimes<T(!new)>(R: Ring<T>, a: T, n: nat, k: nat)
    requires IsRing(R)
    ensures Pow(R, a, n * k) == Pow(R, Pow(R, a, n), k)
  {
    if k > 0 {
      PowTimes(R, a, n, k - 1);
      assert n * k == n + n * (k - 1);
      PowAdd(R, a, n, n * (k - 1));
    }
  }

  /** Powers of a root of unity only depend on the exponent modulo its order. */
  lemma PowMod<T(!new)>(R: Ring<T>, a: T, size: nat, e: nat)
    requires IsRing(R) && size > 0 && Pow(R, a, size) == R.one
    ensures Pow(R, a, e % size) == Pow(R, a, e)
  {
    var q, r := e / size, e % size;
    assert e == size * q + r;
    PowAdd(R, a, size * q, r);
    PowTimes(R, a, size, q);
    PowOfOne(R, q);
    Unit(R, Pow(R, a, r));
  }

  /** The product of two indices of a table is a 32-bit integer. */
  predicate FitsInt(n: nat, k: nat) {
    n * k < 0x8000_0000
  }

  /** Exactly up to 46341 samples all of them are. */
  lemma ProductsFit(size: nat)
    ensures (forall n, k :: 0 <= n < size && 0 <= k < size ==> FitsInt(n, k)) <==> size <= 46341
  {
    if size <= 46341 {
      forall n, k | 0 <= n < size && 0 <= k < size ensures FitsInt(n, k) {
        MulMonotone(n, k, 46340);
        MulMonotone(46340, n, 46340);
      }
    } else {
      assert !FitsInt(46341, 46341);
    }
  }

  /** The slow transform: a table of size powers, and the double sum. */
  method Sft<T(0, !new)>(R: Ring<T>, x: array<T>, W: T, scale: T, inverse: bool)
    requires IsRing(R) && x.Length <= 46341 && Pow(R, W, x.Length) == R.one
    modifies x
    ensures x[..] == if inverse then Scale(R, scale, Dft(R, old(x[..]), W)) else Dft(R, old(x[..]), W)
  {
    hide Pow, Eval, IsRing, TermSum;
    ghost var s := x[..];
    var size := x.Length;
    var Wf := seq(size, i requires 0 <= i < size => Pow(R, W, i));
    var F := new T[size](_ => R.zero);
    for n := 0 to size
      invariant x[..] == s
      invariant forall m :: 0 <= m < size ==> F[m] == if m < n then Eval(R, s, Pow(R, W, m)) else R.zero
    {
      TermSumEmpty(R, s, Pow(R, W, n));
      for k := 0 to size
        invariant x[..] == s
        invariant forall m :: 0 <= m < size && m != n ==> F[m] == if m < n then Eval(R, s, Pow(R, W, m)) else R.zero
        invariant F[n] == TermSum(R, s, Pow(R, W, n), k)
      {
        ProductsFit(size);
        assert FitsInt(n, k);
        PowMod(R, W, size, n * k);
        PowTimes(R, W, n, k);
        TermSumStep(R, s, Pow(R, W, n), k);
        F[n] := R.add(F[n], R.mul(x[k], Wf[n * k % size]));
      }
      TermSumIsEval(R, s, Pow(R, W, n), size);
      assert s[..size] == s;
    }
    for i := 0 to size
      invariant forall m :: 0 <= m < size ==> F[m] == Eval(R, s, Pow(R, W, m))
      invariant forall m :: 0 <= m < size ==>
                  x[m] == if m < i then (if inverse then R.mul(scale, F[m]) else F[m]) else s[m]
    {
      if inverse {
        Commute(R, F[i], scale);
        x[i] := R.mul(F[i], scale);
      } else {
        x[i] := F[i];
      }
    }
  }

  lemma TermSumEmpty<T(!new)>(R: Ring<T>, x: seq<T>, z: T)
    ensures TermSum(R, x, z, 0) == R.zero
  {
  }

  lemma TermSumStep<T(!new)>(R: Ring<T>, x: seq<T>, z: T, k: nat)
    requires k < |x|
    ensures TermSum(R, x, z, k + 1) == R.add(TermSum(R, x, z, k), R.mul(x[k], Pow(R, z, k)))
  {
  }

  // ---------- from stage to stage ----------

  lemma FirstStage<T(!new)>(R: Ring<T>, x: seq<T>, f: nat -> T, p: nat)
    requires IsRing(R) && |x| == Pow2(p)
    ensures Permuted(x, p) == Blocks(R, x, f(0), p, Pow2(p))
  {
    PermutedIsBlocks(R, x, f(0), p, Pow2(p));
    assert Permuted(x, p)[..Pow2(p)] == Permuted(x, p);
  }

  /** Stage s turns 2^(p-s+1) transforms of size 2^(s-1) into half as many of twice the size. */
  lemma NextStage<T(!new)>(R: Ring<T>, x: seq<T>, f: nat -> T, top: nat, p: nat, s: nat, tw: seq<T>)
    requires IsRing(R) && IsTower(R, f, top) && |x| == Pow2(p) && 1 <= s <= p <= top
    requires |tw| == Pow2(p) && tw[..Pow2(p) - 1] == Table(R, f, p)
    ensures var n := Pow2(s - 1);
            && 2 * n <= |tw| && Pow2(p) == Pow2(p - s) * (2 * n)
            && Pow2(p - (s - 1)) == 2 * Pow2(p - s)
            && StageSeq(R, Blocks(R, x, f(s - 1), p - (s - 1), Pow2(p - (s - 1))), tw[n - 1..2 * n - 1])
               == Blocks(R, x, f(s), p - s, Pow2(p - s))
  {
    hide Blocks, StageSeq, Factors, IsRing, Pow, Table, Pow2;
    var n := Pow2(s - 1);
    StageSizes(p, s);
    TableSlice(R, f, p, s);
    assert tw[..Pow2(p) - 1][n - 1..2 * n - 1] == tw[n - 1..2 * n - 1];
    HalfTurn(R, f, top, s);
    TowerStep(R, f, top, s);
    StageOnBlocks(R, x, f(s), p, p - (s - 1), Pow2(p - s));
  }

  /** The stage loop runs while s <= p, and ends with one block. */
  lemma LoopSizes(s: nat, p: nat)
    requires 1 <= s <= p + 1
    ensures Pow2(s - 1) < Pow2(p) <==> s <= p
    ensures Pow2(0) == 1 && Pow2(s) == 2 * Pow2(s - 1)
  {
    PowLess(p, s - 1);
  }

  lemma StageSizes(p: nat, s: nat)
    requires 1 <= s <= p
    ensures var n := Pow2(s - 1);
            && Pow2(s) == 2 * n <= Pow2(p) && Pow2(p) == Pow2(p - s) * (2 * n)
            && Pow2(p - (s - 1)) == 2 * Pow2(p - s) && Pow2(p - (p - (s - 1))) == n
  {
    PowSum(p - s, s);
    PowLess(s, p);
  }

  // ---------- swapping pairs ----------

  /** Element k of the buffer when the indices below i have been visited. */
  ghost function Swapped<T>(s: seq<T>, p: nat, i: nat, k: nat): T
    requires |s| == Pow2(p) && k < |s|
  {
    if k < i || Rev(p, k) < i then s[Rev(p, k)] else s[k]
  }

  lemma SwapStep<T>(s: seq<T>, p: nat, i: nat)
    requires |s| == Pow2(p) && i < |s|
    ensures var y := Rev(p, i);
            forall k :: 0 <= k < |s| ==>
              (Swapped(s, p, i + 1, k)
               == if y > i && k == i then Swapped(s, p, i, y) else if y > i && k == y then Swapped(s, p, i, i)
                  else Swapped(s, p, i, k))
  {
    hide Rev;
    RevTwice(p, i);
    forall k | 0 <= k < |s|
      ensures var y := Rev(p, i);
              Swapped(s, p, i + 1, k)
              == if y > i && k == i then Swapped(s, p, i, y) else if y > i && k == y then Swapped(s, p, i, i)
                 else Swapped(s, p, i, k)
    {
      RevTwice(p, k);
    }
  }

  lemma TakeUpdate<T>(t: seq<T>, w: nat, x: T)
    requires w < |t|
    ensures t[w := x][..w + 1] == t[..w] + [x]
  {
  }

  lemma {:induction false} PowLess(s: nat, p: nat)
    ensures s <= p <==> Pow2(s) <= Pow2(p)
    decreases s + p
  {
    if s > 0 && p > 0 {
      PowLess(s - 1, p - 1);
    }
  }
}
