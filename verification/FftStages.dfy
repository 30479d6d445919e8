/** What one stage of the in-place FFT does to the whole buffer.

    After the bit reversal the buffer holds the transforms of single samples, and every stage joins them
    in pairs, so log2(n) stages leave the transform of the input. */
module FftStages {
  import opened Bits
  import opened BitReversal
  import opened Rings
  import opened Poly
  import opened Fourier

  // ---------- one stage ----------

  /** Butterflies over a block of 2n elements with the factors t. */
  function Block<T(!new)>(R: Ring<T>, s: seq<T>, t: seq<T>): (y: seq<T>)
    requires |s| == 2 * |t|
    ensures |y| == |s|
  {
    var n := |t|;
    seq(n, k requires 0 <= k < n => R.add(s[k], R.mul(t[k], s[n + k]))) +
    seq(n, k requires 0 <= k < n => R.sub(s[k], R.mul(t[k], s[n + k])))
  }

  /** Every block of 2n elements in turn. */
  function StageSeq<T(!new)>(R: Ring<T>, s: seq<T>, t: seq<T>): (y: seq<T>)
    requires t != []
    ensures |y| == |s|
  {
    var m := 2 * |t|;
    if |s| < m then s
    else StageSeq(R, s[..|s| - m], t) + Block(R, s[|s| - m..], t)
  }

  /** The factors of a stage that turns transforms of size n into ones of size 2n. */
  function Factors<T(!new)>(R: Ring<T>, w: T, n: nat): (t: seq<T>)
    ensures |t| == n
  {
    seq(n, k requires 0 <= k < n => Pow(R, w, k))
  }

  lemma BlockIsCombine<T(!new)>(R: Ring<T>, e: seq<T>, o: seq<T>, w: T)
    requires |e| == |o|
    ensures Block(R, e + o, Factors(R, w, |e|)) == Combine(R, e, o, w)
  {
  }

  // ---------- the buffer between stages ----------

  /** The subsequence of x whose transform stands in block b when there are 2^l blocks. */
  function Part<T>(x: seq<T>, l: nat, b: nat): seq<T>
    decreases l
  {
    if l == 0 then x
    else if b % 2 == 0 then Evens(Part(x, l - 1, b / 2))
    else Odds(Part(x, l - 1, b / 2))
  }

  lemma {:induction false} PartLength<T>(x: seq<T>, p: nat, l: nat, b: nat)
    requires |x| == Pow2(p) && l <= p
    ensures |Part(x, l, b)| == Pow2(p - l)
    decreases l
  {
    if l > 0 {
      PartLength(x, p, l - 1, b / 2);
      assert Pow2(p - (l - 1)) == 2 * Pow2(p - l);
    }
  }

  /** Its elements are 2^l apart in x and start at the bit reversal of b. */
  lemma {:induction false} PartAt<T>(x: seq<T>, p: nat, l: nat, b: nat, j: nat)
    requires |x| == Pow2(p) && l <= p && b < Pow2(l) && j < Pow2(p - l)
    ensures |Part(x, l, b)| == Pow2(p - l)
    ensures var i := Rev(l, b) + j * Pow2(l); i < |x| && Part(x, l, b)[j] == x[i]
    decreases l
  {
    PartLength(x, p, l, b);
    if l == 0 {
      RevZero(b);
    } else {
      var m, c := Pow2(l - 1), b % 2;
      assert Pow2(p - (l - 1)) == 2 * Pow2(p - l);
      PartLength(x, p, l - 1, b / 2);
      PartAt(x, p, l - 1, b / 2, 2 * j + c);
      EvensAt(Part(x, l - 1, b / 2), j);
      RevStep(l, b);
      Regroup(j, m, c);
    }
  }

  lemma RevZero(b: nat)
    ensures Rev(0, b) == 0
  {
  }

  lemma Regroup(j: nat, m: nat, c: nat)
    ensures (2 * j + c) * m == c * m + j * (2 * m)
  {
  }

  /** The first `count` blocks of the buffer when it holds 2^l transforms. */
  function Blocks<T(!new)>(R: Ring<T>, x: seq<T>, w: T, l: nat, count: nat): seq<T> {
    if count == 0 then [] else Blocks(R, x, w, l, count - 1) + Dft(R, Part(x, l, count - 1), w)
  }

  lemma {:induction false} BlocksLength<T(!new)>(R: Ring<T>, x: seq<T>, w: T, p: nat, l: nat, count: nat)
    requires |x| == Pow2(p) && l <= p
    ensures |Blocks(R, x, w, l, count)| == count * Pow2(p - l)
  {
    if count > 0 {
      BlocksLength(R, x, w, p, l, count - 1);
      PartLength(x, p, l, count - 1);
      assert count * Pow2(p - l) == (count - 1) * Pow2(p - l) + Pow2(p - l);
    }
  }

  /** A stage pairs the blocks up: half as many, of twice the size. */
  lemma {:induction false} StageOnBlocks<T(!new)>(R: Ring<T>, x: seq<T>, w: T, p: nat, l: nat, count: nat)
    requires IsRing(R) && |x| == Pow2(p) && 1 <= l <= p
    requires Pow(R, w, Pow2(p - l)) == R.neg(R.one)
    ensures StageSeq(R, Blocks(R, x, R.mul(w, w), l, 2 * count), Factors(R, w, Pow2(p - l)))
         == Blocks(R, x, w, l - 1, count)
  {
    if count > 0 {
      StageOnBlocks(R, x, w, p, l, count - 1);
      OneMoreBlock(R, x, w, p, l, count - 1);
    }
  }

  lemma OneMoreBlock<T(!new)>(R: Ring<T>, x: seq<T>, w: T, p: nat, l: nat, c: nat)
    requires IsRing(R) && |x| == Pow2(p) && 1 <= l <= p
    requires Pow(R, w, Pow2(p - l)) == R.neg(R.one)
    requires StageSeq(R, Blocks(R, x, R.mul(w, w), l, 2 * c), Factors(R, w, Pow2(p - l))) == Blocks(R, x, w, l - 1, c)
    ensures StageSeq(R, Blocks(R, x, R.mul(w, w), l, 2 * (c + 1)), Factors(R, w, Pow2(p - l)))
         == Blocks(R, x, w, l - 1, c + 1)
  {
    hide IsRing, Pow2, Pow, Factors, Part, Dft, Block, Combine, StageSeq, Evens, Odds;
    var n, ww := Pow2(p - l), R.mul(w, w);
    var e, o := Dft(R, Part(x, l, 2 * c), ww), Dft(R, Part(x, l, 2 * c + 1), ww);
    PartLength(x, p, l, 2 * c);
    PartLength(x, p, l, 2 * c + 1);
    PartLength(x, p, l - 1, c);
    PowStep(p - l);
    PartHalves(x, l, c);
    DftSplit(R, Part(x, l - 1, c), w, n);
    LastTwoBlocks(R, x, ww, l, c);
    StageAppend(R, Blocks(R, x, ww, l, 2 * c), e + o, Factors(R, w, n));
    BlockIsCombine(R, e, o, w);
  }

  lemma LastTwoBlocks<T(!new)>(R: Ring<T>, x: seq<T>, w: T, l: nat, c: nat)
    ensures Blocks(R, x, w, l, 2 * (c + 1))
         == Blocks(R, x, w, l, 2 * c) + (Dft(R, Part(x, l, 2 * c), w) + Dft(R, Part(x, l, 2 * c + 1), w))
  {
    hide Dft, Part;
    var before, e, o := Blocks(R, x, w, l, 2 * c), Dft(R, Part(x, l, 2 * c), w), Dft(R, Part(x, l, 2 * c + 1), w);
    assert Blocks(R, x, w, l, 2 * c + 1) == before + e;
    assert Blocks(R, x, w, l, 2 * c + 2) == (before + e) + o == before + (e + o);
  }

  lemma PartHalves<T>(x: seq<T>, l: nat, c: nat)
    requires l >= 1
    ensures Part(x, l, 2 * c) == Evens(Part(x, l - 1, c)) && Part(x, l, 2 * c + 1) == Odds(Part(x, l - 1, c))
  {
    assert 2 * c / 2 == c && (2 * c + 1) / 2 == c;
  }

  lemma StageAppend<T(!new)>(R: Ring<T>, s: seq<T>, b: seq<T>, t: seq<T>)
    requires t != [] && |b| == 2 * |t|
    ensures StageSeq(R, s + b, t) == StageSeq(R, s, t) + Block(R, b, t)
  {
    assert (s + b)[..|s|] == s && (s + b)[|s|..] == b;
  }

  // ---------- before the first stage and after the last ----------

  function Permuted<T>(x: seq<T>, p: nat): (y: seq<T>)
    requires |x| == Pow2(p)
    ensures |y| == |x| && forall i :: 0 <= i < |x| ==> y[i] == x[Rev(p, i)]
  {
    seq(|x|, i requires 0 <= i < |x| => x[Rev(p, i)])
  }

  /** The bit-reversed input is 2^p transforms of one element each. */
  lemma {:induction false} PermutedIsBlocks<T(!new)>(R: Ring<T>, x: seq<T>, w: T, p: nat, count: nat)
    requires IsRing(R) && |x| == Pow2(p) && count <= |x|
    ensures Blocks(R, x, w, p, count) == Permuted(x, p)[..count]
  {
    if count > 0 {
      PermutedIsBlocks(R, x, w, p, count - 1);
      OneMoreElement(R, x, w, p, count - 1);
    }
  }

  lemma OneMoreElement<T(!new)>(R: Ring<T>, x: seq<T>, w: T, p: nat, b: nat)
    requires IsRing(R) && |x| == Pow2(p) && b < |x|
    requires Blocks(R, x, w, p, b) == Permuted(x, p)[..b]
    ensures Blocks(R, x, w, p, b + 1) == Permuted(x, p)[..b + 1]
  {
    SingleBlock(R, x, w, p, b);
    hide IsRing, Rev, Pow2, Blocks;
    var y := Permuted(x, p);
    assert y[..b + 1] == y[..b] + [y[b]];
  }

  lemma SingleBlock<T(!new)>(R: Ring<T>, x: seq<T>, w: T, p: nat, b: nat)
    requires IsRing(R) && |x| == Pow2(p) && b < |x|
    ensures Rev(p, b) < |x| && Blocks(R, x, w, p, b + 1) == Blocks(R, x, w, p, b) + [x[Rev(p, b)]]
  {
    OnePart(x, p, b);
    hide Part, Rev, Pow2, Dft;
    DftOfOne(R, Part(x, p, b), w);
  }

  lemma OnePart<T>(x: seq<T>, p: nat, b: nat)
    requires |x| == Pow2(p) && b < |x|
    ensures Part(x, p, b) == [x[Rev(p, b)]]
  {
    hide Part, Rev;
    PartAt(x, p, p, b, 0);
  }

  /** One block is the transform itself. */
  lemma OneBlock<T(!new)>(R: Ring<T>, x: seq<T>, w: T)
    ensures Blocks(R, x, w, 0, 1) == Dft(R, x, w)
  {
    assert Blocks(R, x, w, 0, 0) == [];
    assert Part(x, 0, 0) == x;
  }
}
