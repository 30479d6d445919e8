module Correction {
  // Wrong symbols do not matter if they are scattered and the frame flushes the encoder.

  import opened Bits
  import opened Convolutional
  import opened Viterbi
  import opened Optimality
  import opened ErrorEvents

  // ---------- metric and distance ----------

  ghost function StartMetric(h: seq<bit>): int
    requires |h| >= 6
  {
    if Val(h[..6]) == 0 then 0 else -999999
  }

  lemma GainIsDistance(g: Gains, p: Pair, q: Pair)
    ensures Gain(g, p, q) == 2 * g.hit - (g.hit - g.miss) * Differ(p, q)
  {
    var c, x, y := g.hit - g.miss, Xor(p.a, q.a), Xor(p.b, q.b);
    SymbolGain(g, p.a, q.a);
    SymbolGain(g, p.b, q.b);
    assert c * (x + y) == c * x + c * y;
  }

  lemma SymbolGain(g: Gains, sent: bit, rcv: bit)
    ensures MetTab(g, sent, Sample(rcv)) == g.hit - (g.hit - g.miss) * Xor(sent, rcv)
  {
    var c := g.hit - g.miss;
    if sent == rcv {
      assert c * 0 == 0;
    } else {
      assert c * 1 == c;
    }
  }

  /** The metric of a path with d wrong symbols in n pairs. */
  function Line(g: Gains, start: int, n: nat, d: nat): int {
    start + 2 * n * g.hit - (g.hit - g.miss) * d
  }

  lemma LineStep(g: Gains, start: int, n: nat, d: nat, e: nat, gain: int)
    requires gain == 2 * g.hit - (g.hit - g.miss) * e
    ensures Line(g, start, n + 1, d + e) == Line(g, start, n, d) + gain
  {
    AddUp(g.hit, g.hit - g.miss, n, d, e, start);
  }

  /** A path's metric falls by hit - miss with every symbol it gets wrong. */
  lemma {:induction false} MetricIsDistance(g: Gains, h: seq<bit>, r: seq<Pair>)
    requires |h| == |r| + 6
    ensures PathMetric(g, h, r) == Line(g, StartMetric(h), |r|, Distance(Symbols(h), r))
  {
    hide Gain, Differ, Last, Line, Distance, Symbols;
    if r == [] {
      assert h[..6] == h;
      LineStart(g, h);
    } else {
      var n := |r| - 1;
      var k := h[..n + 6];
      MetricIsDistance(g, k, r[..n]);
      GainIsDistance(g, Last(h), r[n]);
      assert k[..6] == h[..6];
      DistanceStep(h, r);
      LineStep(g, StartMetric(h), n, Distance(Symbols(k), r[..n]), Differ(Last(h), r[n]), Gain(g, Last(h), r[n]));
    }
  }

  lemma LineStart(g: Gains, h: seq<bit>)
    requires |h| == 6
    ensures Line(g, StartMetric(h), 0, Distance(Symbols(h), [])) == StartMetric(h)
  {
  }

  lemma DistanceStep(h: seq<bit>, r: seq<Pair>)
    requires |h| == |r| + 6 && r != []
    ensures var n := |r| - 1;
            Distance(Symbols(h), r) == Distance(Symbols(h[..n + 6]), r[..n]) + Differ(Last(h), r[n])
  {
    var n := |r| - 1;
    assert Symbols(h)[..n] == Symbols(h[..n + 6]);
  }

  lemma AddUp(hit: int, c: int, n: int, d: int, e: int, start: int)
    ensures (start + 2 * n * hit - c * d) + (2 * hit - c * e) == start + 2 * (n + 1) * hit - c * (d + e)
  {
    assert c * (d + e) == c * d + c * e;
    assert 2 * (n + 1) * hit == 2 * n * hit + 2 * hit;
  }

  /** A path at least as good as one from the zero state also starts there, and is no further from
      what was received. */
  lemma NoWorseIsNear(g: Gains, h: seq<bit>, k: seq<bit>, r: seq<Pair>)
    requires g.Usable() && |h| == |k| == |r| + 6 && |r| <= 5120
    requires h[..6] == Zeros(6) && PathMetric(g, k, r) >= PathMetric(g, h, r)
    ensures k[..6] == Zeros(6)
    ensures Distance(Symbols(k), r) <= Distance(Symbols(h), r)
  {
    hide Line, Gains.Usable, Distance, Symbols;
    MetricIsDistance(g, h, r);
    MetricIsDistance(g, k, r);
    ValZeros(6);
    DistanceBound(Symbols(h), r);
    LineCloser(g, StartMetric(k), |r|, Distance(Symbols(h), r), Distance(Symbols(k), r));
    ValInjective(k[..6], Zeros(6));
  }

  lemma LineCloser(g: Gains, start: int, n: nat, d: nat, e: nat)
    requires g.Usable() && d <= 10240 && (start == 0 || start == -999999)
    requires Line(g, start, n, e) >= Line(g, 0, n, d)
    ensures start == 0 && e <= d
  {
    Closer(g.hit - g.miss, 2 * n * g.hit, d, e, start);
  }

  lemma Closer(c: int, gains: int, d: nat, e: nat, start: int)
    requires 0 < c && 10240 * c < 999999 && d <= 10240
    requires start == 0 || start == -999999
    requires start + gains - c * e >= gains - c * d
    ensures start == 0 && e <= d
  {
    MulMonotone(c, d, 10240);
    MulMonotone(c, d + 1, e);
    MulMonotone(c, 0, e);
    assert c * (d + 1) == c * d + c;
  }

  lemma {:induction false} DistanceBound(a: seq<Pair>, b: seq<Pair>)
    requires |a| == |b|
    ensures Distance(a, b) <= 2 * |a|
  {
    if a != [] {
      DistanceBound(a[..|a| - 1], b[..|b| - 1]);
    }
  }

  /** A path no worse than the sent one agrees with it up to 31 steps back, and everywhere if it ends
      in the same state. */
  lemma NoWorseIsEqual(g: Gains, h: seq<bit>, k: seq<bit>, r: seq<Pair>)
    requires g.Usable() && |h| == |k| == |r| + 6 && |r| <= 5120
    requires h[..6] == Zeros(6) && PathMetric(g, k, r) >= PathMetric(g, h, r)
    requires Distance(Symbols(h), r) <= 4
    ensures forall p :: 0 <= p && p + 31 <= |h| ==> k[p] == h[p]
    ensures k[|r|..] == h[|r|..] ==> k == h
  {
    NoWorseIsNear(g, h, k, r);
    DistanceTriangle(Symbols(h), r, Symbols(k));
    DistanceTriangle(Symbols(k), r, r);
    forall p | 0 <= p < |h| && (p + 31 <= |h| || k[|r|..] == h[|r|..]) ensures k[p] == h[p] {
      if p < 6 {
        assert k[p] == k[..6][p] && h[p] == h[..6][p];
      } else if k[p] != h[p] {
        FreeDistance(h, k, p);
      }
    }
  }

  // ---------- bytes ----------

  /** Byte k of a message, first bit most significant. */
  function ByteAt(u: seq<bit>, k: nat): nat
    requires 8 * k + 8 <= |u|
  {
    Val(u[8 * k..8 * k + 8])
  }

  lemma SplitBy(x: seq<bit>, n: nat, d: nat)
    requires n <= |x| && d == Pow2(n)
    ensures Val(x) / d == Val(x[..|x| - n]) && Val(x) % d == Val(x[|x| - n..])
  {
    ValDivMod(x, |x| - n);
  }

  lemma WordOfVal(x: seq<bit>)
    requires |x| >= 32
    ensures Word(Val(x)) == Val(x[|x| - 32..])
  {
    Powers();
    SplitBy(x, 32, 0x1_0000_0000);
    WordIsMod(Val(x));
  }

  lemma MiddleByte(w: seq<bit>, n: nat, d: nat)
    requires n + 8 <= |w| && d == Pow2(n)
    ensures Val(w) / d % 256 == Val(w[|w| - n - 8..|w| - n])
  {
    Powers();
    SplitBy(w, n, d);
    SplitBy(w[..|w| - n], 8, 0x100);
    assert w[..|w| - n][|w| - n - 8..] == w[|w| - n - 8..|w| - n];
  }

  /** The bytes of a 32-bit register. */
  lemma RegisterBytes(w: seq<bit>)
    requires |w| == 32
    ensures BytesOfWord(Val(w)) == [Val(w[..8]), Val(w[8..16]), Val(w[16..24]), Val(w[24..])]
  {
    hide Val, Pow2;
    Powers();
    SplitBy(w, 24, 0x100_0000);
    MiddleByte(w, 16, 0x1_0000);
    MiddleByte(w, 8, 0x100);
    SplitBy(w, 8, 0x100);
  }

  /** The oldest byte of a register that x has been shifted through. */
  lemma TopByte(x: seq<bit>)
    requires |x| >= 32
    ensures Word(Val(x)) / 0x100_0000 == Val(x[|x| - 32..|x| - 24])
  {
    var w := x[|x| - 32..];
    WordOfVal(x);
    Powers();
    SplitBy(w, 24, 0x100_0000);
    assert w[..8] == x[|x| - 32..|x| - 24];
  }

  /** The four bytes of a register that x and then six zeros have been shifted through. */
  lemma LastBytes(x: seq<bit>)
    requires |x| >= 26
    ensures var w := (x + Zeros(6))[|x| - 26..];
            TailBytes(Word(Val(x))) == [Val(w[..8]), Val(w[8..16]), Val(w[16..24]), Val(w[24..])]
  {
    hide BytesOfWord, Val, Pow2, Word;
    Powers();
    ValConcat(x, Zeros(6));
    ValZeros(6);
    Word64(Val(x));
    WordOfVal(x + Zeros(6));
    RegisterBytes((x + Zeros(6))[|x| - 26..]);
  }

  lemma Word64(x: nat)
    ensures Word(64 * Word(x)) == Word(64 * x)
  {
    var d := 0x1_0000_0000;
    var y := 64 * Word(x);
    WordIsMod(x);
    WordIsMod(y);
    WordIsMod(64 * x);
    DivModUnique(64 * x, d, 64 * (x / d) + y / d, y % d);
  }

  /** Whatever arrives: the byte that comes out is what a path left behind, 32 to 25 steps ago, that no
      other path beats. */
  lemma OldestByteIsBest(g: Gains, r: seq<Pair>) returns (h: seq<bit>)
    requires IsCode(g) && |r| >= 32
    ensures |h| == |r| + 6 && OldestByte(States(g, r)) == Val(h[|r| - 32..|r| - 24])
    ensures forall k: seq<bit> :: |k| == |h| ==> PathMetric(g, k, r) <= PathMetric(g, h, r)
  {
    hide States, Val, Word, PathMetric, ArgMax, Pick, Gain;
    var s0, s1, s2, s3, s4, s5 := SixOf(ArgMax(States(g, r)));
    h := PathOf(g, r, s0, s1, s2, s3, s4, s5);
    SurvivorMetric(g, r, s0, s1, s2, s3, s4, s5);
    SurvivorRegister(g, r, s0, s1, s2, s3, s4, s5);
    TopByte(h[..|r|]);
    assert h[..|r|][|r| - 32..|r| - 24] == h[|r| - 32..|r| - 24];
    forall k: seq<bit> | |k| == |h| ensures PathMetric(g, k, r) <= PathMetric(g, h, r) {
      NoPathIsBetter(g, k, r);
    }
  }

  // ---------- a survivor is the path that was sent ----------

  /** The path sent, up to where it last met path k, and then path k. */
  lemma Spliced(h: seq<bit>, k: seq<bit>, r: seq<Pair>, m: nat) returns (j: seq<bit>)
    requires |h| == |k| == |r| + 6 && 6 <= m <= |h| && Meet(h, k, m)
    ensures |j| == |h| && j[..6] == h[..6]
    ensures Distance(Symbols(j), r)
         == Distance(Symbols(h[..m]), r[..m - 6]) + Distance(Symbols(k)[m - 6..], r[m - 6..])
  {
    hide Distance, Symbols;
    j := h[..m] + k[m..];
    assert j[..m] == h[..m];
    assert j[m - 6..] == h[m - 6..m] + k[m..] && k[m - 6..] == k[m - 6..m] + k[m..];
    SameSymbols(j, k, m);
    SplitAt(j, r, m);
  }

  /** A path that no other path beats agrees with the one sent up to 31 bits back. */
  lemma BestIsSent(g: Gains, h: seq<bit>, k: seq<bit>, r: seq<Pair>)
    requires g.Usable() && |h| == |k| == |r| + 6 && |r| <= 5120
    requires h[..6] == Zeros(6) && Scattered(Symbols(h), r)
    requires forall j: seq<bit> :: |j| == |h| ==> PathMetric(g, j, r) <= PathMetric(g, k, r)
    ensures forall p :: 0 <= p && p + 31 <= |h| ==> k[p] == h[p]
  {
    hide Distance, Symbols, PathMetric, Gains.Usable, Scattered, Meet;
    var n := |h|;
    NoWorseIsNear(g, h, k, r);
    var m := LastMeet(h, k, n);
    var j := Spliced(h, k, r, m);
    NoWorseIsNear(g, j, k, r);
    SplitAt(h, r, m);
    SplitAt(k, r, m);
    SymbolsPrefix(h, m);
    ScatteredPrefix(Symbols(h), r, m - 6);
    MeetPrefix(h, k, m);
    assert h[..m][..6] == h[..6] && k[..m][..6] == k[..6];
    SameEnds(h[..m], k[..m], r[..m - 6]);
    if m + 31 <= n {
      EventLoses(h, k, r, m, n);
      WholeRest(h, k, r, m);
      assert false;
    }
    forall p | 0 <= p && p + 31 <= n ensures k[p] == h[p] {
      assert k[p] == k[..m][p] && h[p] == h[..m][p];
    }
  }

  // ---------- the decoder corrects scattered errors ----------

  /** r is what arrives when u is sent and in no stretch of it are too many symbols flipped. */
  ghost predicate Near(u: seq<bit>, r: seq<Pair>) {
    |u| == |r| <= 5120 && Scattered(Encode(u), r)
  }

  lemma NearPrefix(u: seq<bit>, r: seq<Pair>, n: nat)
    requires Near(u, r) && n <= |r|
    ensures Near(u[..n], r[..n])
  {
    assert (Zeros(6) + u)[..n + 6] == Zeros(6) + u[..n];
    SymbolsPrefix(Zeros(6) + u, n + 6);
    ScatteredPrefix(Encode(u), r, n);
  }

  lemma SixOf(s: nat) returns (s0: bit, s1: bit, s2: bit, s3: bit, s4: bit, s5: bit)
    requires s < 64
    ensures s == Six(s0, s1, s2, s3, s4, s5)
  {
    var w := BitsOf(s, 6);
    BitsOfVal(s, 6);
    StateIsVal(w);
    assert w[0..] == w;
    s0, s1, s2, s3, s4, s5 := w[0], w[1], w[2], w[3], w[4], w[5];
  }

  /** The path behind the best survivor, which no path beats. */
  lemma BestAgrees(g: Gains, u: seq<bit>, r: seq<Pair>) returns (k: seq<bit>)
    requires IsCode(g) && g.Usable() && Near(u, r)
    ensures |k| == |r| + 6 && OldestByte(States(g, r)) == Word(Val(k[..|r|])) / 0x100_0000
    ensures forall p :: 0 <= p && p + 25 <= |r| ==> k[p] == (Zeros(6) + u)[p]
  {
    hide States, Val, Word, PathMetric, ArgMax, Scattered, Pick, Gain, Symbols;
    var s0, s1, s2, s3, s4, s5 := SixOf(ArgMax(States(g, r)));
    k := PathOf(g, r, s0, s1, s2, s3, s4, s5);
    SurvivorMetric(g, r, s0, s1, s2, s3, s4, s5);
    SurvivorRegister(g, r, s0, s1, s2, s3, s4, s5);
    forall j: seq<bit> | |j| == |r| + 6 ensures PathMetric(g, j, r) <= PathMetric(g, k, r) {
      NoPathIsBetter(g, j, r);
    }
    BestIsSent(g, Zeros(6) + u, k, r);
  }

  /** While few symbols are wrong, the byte at the old end of the best register is the one sent. */
  lemma BestRegister(g: Gains, u: seq<bit>, r: seq<Pair>)
    requires IsCode(g) && g.Usable() && Near(u, r) && |r| >= 38
    ensures OldestByte(States(g, r)) == Val(u[|r| - 38..|r| - 30])
  {
    hide States, Near, Val, Word, OldestByte;
    EqualLengths(u, r);
    var n := |r|;
    var k := BestAgrees(g, u, r);
    TopByte(k[..n]);
    assert k[..n][n - 32..n - 24] == u[n - 38..n - 30];
  }

  lemma EqualLengths(u: seq<bit>, r: seq<Pair>)
    requires Near(u, r)
    ensures |u| == |r| <= 5120
  {
  }

  /** At the end, state 0 holds the sent path, so the tail bytes are those sent. */
  lemma TailRegister(g: Gains, u: seq<bit>, r: seq<Pair>)
    requires IsCode(g) && g.Usable() && Near(u, r) && |r| >= 32 && u[|u| - 6..] == Zeros(6)
    ensures var n := |u|;
            TailBytes(States(g, r)[0].path) ==
            [Val(u[n - 32..n - 24]), Val(u[n - 24..n - 16]), Val(u[n - 16..n - 8]), Val(u[n - 8..])]
  {
    hide States, Val, Word, TailBytes, Near;
    EqualLengths(u, r);
    var h, n := Zeros(6) + u, |r|;
    ZeroAgrees(g, u, r);
    LastBytes(h[..n]);
    var w := (h[..n] + Zeros(6))[n - 26..];
    assert w == u[n - 32..] by {
      assert h[n..] == u[n - 6..];
      assert h[..n] + h[n..] == h;
    }
    assert w[..8] == u[n - 32..n - 24] && w[8..16] == u[n - 24..n - 16] && w[16..24] == u[n - 16..n - 8]
        && w[24..] == u[n - 8..];
  }

  lemma ZeroAgrees(g: Gains, u: seq<bit>, r: seq<Pair>)
    requires IsCode(g) && g.Usable() && Near(u, r) && |u| >= 6 && u[|u| - 6..] == Zeros(6)
    ensures |u| == |r| && States(g, r)[0].path == Word(Val((Zeros(6) + u)[..|r|]))
  {
    hide States, Val, Word, Scattered, Symbols;
    var h, n := Zeros(6) + u, |r|;
    assert h[n..] == u[n - 6..];
    assert Zeros(6) == [0, 0, 0, 0, 0, 0];
    EndSurvivor(g, h, r, 0, 0, 0, 0, 0, 0);
  }

  /** The survivor of the state where the sent path ends is the sent path. */
  lemma EndSurvivor(g: Gains, h: seq<bit>, r: seq<Pair>, s0: bit, s1: bit, s2: bit, s3: bit, s4: bit, s5: bit)
    requires IsCode(g) && g.Usable() && |h| == |r| + 6 && |r| <= 5120
    requires h[..6] == Zeros(6) && h[|r|..] == [s0, s1, s2, s3, s4, s5] && Scattered(Symbols(h), r)
    ensures States(g, r)[Six(s0, s1, s2, s3, s4, s5)].path == Word(Val(h[..|r|]))
  {
    hide States, Val, Word, PathMetric, Scattered, Pick, Gain, Symbols, Distance, Meet;
    var n := |r|;
    NoPathIsBetter(g, h, r);
    assert h[n..] == [h[n], h[n + 1], h[n + 2], h[n + 3], h[n + 4], h[n + 5]];
    var k := PathOf(g, r, s0, s1, s2, s3, s4, s5);
    SurvivorMetric(g, r, s0, s1, s2, s3, s4, s5);
    SurvivorRegister(g, r, s0, s1, s2, s3, s4, s5);
    NoWorseIsNear(g, h, k, r);
    assert k[n..] == [s0, s1, s2, s3, s4, s5];
    SameEnd(h, k, n);
    SameEnds(h, k, r);
  }

  lemma SameEnd(h: seq<bit>, k: seq<bit>, n: nat)
    requires |h| == |k| == n + 6 && h[n..] == k[n..]
    ensures Meet(h, k, n + 6)
  {
    assert k[n..n + 6] == k[n..] && h[n..n + 6] == h[n..];
  }

  lemma {:induction false} EmittedBytes(g: Gains, u: seq<bit>, r: seq<Pair>)
    requires IsCode(g) && g.Usable() && Near(u, r)
    ensures |Emitted(g, r)| == DueCount(|r|) && 8 * DueCount(|r|) <= |r|
    ensures forall k :: 0 <= k < DueCount(|r|) ==> Emitted(g, r)[k] == ByteAt(u, k)
  {
    hide Near, States, Val, OldestByte;
    EqualLengths(u, r);
    if r != [] {
      var n := |r| - 1;
      NearPrefix(u, r, n);
      EmittedBytes(g, u[..n], r[..n]);
      DueStep(n);
      forall k | 0 <= k < DueCount(n) ensures ByteAt(u[..n], k) == ByteAt(u, k) {
        assert u[..n][8 * k..8 * k + 8] == u[8 * k..8 * k + 8];
      }
      if Due(n) {
        BestRegister(g, u, r);
        assert 8 * DueCount(n) == n - 37;
      }
    }
  }

  /** What the decoder is for: a frame whose last six bits are zero survives any wrong symbols, as long as
      no n consecutive pairs have half of max(10, (n + 7) / 4) wrong symbols or more. */
  lemma CorrectsScatteredErrors(g: Gains, u: seq<bit>, r: seq<Pair>)
    requires IsCode(g) && g.Usable() && |u| == 5120 && Near(u, r)
    requires u[|u| - 6..] == Zeros(6)
    ensures |Decoded(g, r)| == 640
    ensures forall k :: 0 <= k < 640 ==> Decoded(g, r)[k] == ByteAt(u, k)
  {
    hide Near, States, Val, Emitted, TailBytes;
    EqualLengths(u, r);
    EmittedBytes(g, u, r);
    TailRegister(g, u, r);
    var n := |u|;
    assert u[n - 8..] == u[n - 8..n];
  }

  /** In particular any four. */
  lemma CorrectsFourErrors(g: Gains, u: seq<bit>, r: seq<Pair>)
    requires IsCode(g) && g.Usable() && |u| == |r| == 5120 && Distance(Encode(u), r) <= 4
    requires u[|u| - 6..] == Zeros(6)
    ensures |Decoded(g, r)| == 640
    ensures forall k :: 0 <= k < 640 ==> Decoded(g, r)[k] == ByteAt(u, k)
  {
    hide Decoded, Distance, Encode, Val;
    FourAreScattered(Encode(u), r);
    CorrectsScatteredErrors(g, u, r);
  }

  // ---------- four is the limit ----------

  /** Whether the decoder gives the message back. */
  ghost predicate Recovers(g: Gains, u: seq<bit>, r: seq<Pair>)
    requires g.Valid() && |u| == |r| == 5120
  {
    |Decoded(g, r)| == 640 && forall k :: 0 <= k < 640 ==> Decoded(g, r)[k] == ByteAt(u, k)
  }

  const SPIKE: seq<bit> := [1, 0, 0, 0, 0, 0, 0]

  /** What the encoder makes of a one and six zeros: ten ones, five of them in the first three steps. */
  const RESPONSE: seq<Pair> :=
    [Pair(1, 1), Pair(0, 1), Pair(1, 1), Pair(1, 1), Pair(0, 0), Pair(1, 0), Pair(1, 1)]

  function Silent(n: nat): (s: seq<Pair>)
    ensures |s| == n
  {
    seq(n, _ => Pair(0, 0))
  }

  lemma SymbolsAppend(h: seq<bit>, b: bit)
    requires |h| >= 6
    ensures Symbols(h + [b]) == Symbols(h) + [Pair(LastA(h + [b]), LastB(h + [b]))]
  {
    assert (h + [b])[..|h|] == h;
  }

  lemma {:induction false} SilentSymbols(n: nat)
    ensures Symbols(Zeros(n + 6)) == Silent(n)
  {
    if n > 0 {
      SilentSymbols(n - 1);
      assert Zeros(n + 6) == Zeros(n + 5) + [0];
      SymbolsAppend(Zeros(n + 5), 0);
    }
  }

  lemma SpikeStep(n: nat, i: nat)
    requires i < 7
    ensures var k := Zeros(n + 6) + SPIKE[..i + 1]; Pair(LastA(k), LastB(k)) == RESPONSE[i]
  {
    var k, w := Zeros(n + 6) + SPIKE[..i + 1], Zeros(6) + SPIKE;
    assert k[|k| - 7..] == w[i..i + 7];
    assert w == [0, 0, 0, 0, 0, 0, 1, 0, 0, 0, 0, 0, 0];
  }

  lemma {:induction false} SpikeSymbols(n: nat, i: nat)
    requires i <= 7
    ensures Symbols(Zeros(n + 6) + SPIKE[..i]) == Silent(n) + RESPONSE[..i]
  {
    hide Symbols, LastA, LastB;
    var h := Zeros(n + 6);
    if i == 0 {
      SilentSymbols(n);
      assert h + SPIKE[..0] == h && Silent(n) + RESPONSE[..0] == Silent(n);
    } else {
      SpikeSymbols(n, i - 1);
      SpikeStep(n, i - 1);
      assert h + SPIKE[..i] == (h + SPIKE[..i - 1]) + [SPIKE[i - 1]];
      SymbolsAppend(h + SPIKE[..i - 1], SPIKE[i - 1]);
      assert RESPONSE[..i] == RESPONSE[..i - 1] + [RESPONSE[i - 1]];
    }
  }

  lemma {:induction false} DistanceNone(a: seq<Pair>)
    ensures Distance(a, a) == 0
  {
    if a != [] {
      DistanceNone(a[..|a| - 1]);
    }
  }

  /** Five wrong symbols are too many for some message that flushes the encoder: two such messages are ten
      symbols apart, and halfway between them there is only one answer. */
  lemma FourIsTheLimit(g: Gains)
    requires g.Valid()
    ensures exists u: seq<bit>, r: seq<Pair> ::
              |u| == |r| == 5120 && u[5114..] == Zeros(6) && Distance(Encode(u), r) == 5 && !Recovers(g, u, r)
  {
    hide Distance, Decoded, Symbols, ByteAt, Encode;
    var u, v, r := Zeros(5120), Zeros(5113) + SPIKE, Silent(5113) + (RESPONSE[..3] + Silent(4));
    assert v[5114..] == Zeros(6) == u[5114..];
    EncodedHalfWay(u, v, r);
    LastDiffers(u, v);
    assert !Recovers(g, u, r) || !Recovers(g, v, r);
  }

  lemma EncodedHalfWay(u: seq<bit>, v: seq<bit>, r: seq<Pair>)
    requires u == Zeros(5120) && v == Zeros(5113) + SPIKE && r == Silent(5113) + (RESPONSE[..3] + Silent(4))
    ensures Distance(Encode(u), r) == 5 == Distance(Encode(v), r)
  {
    hide Distance, Symbols;
    HalfWay(5113);
    assert Zeros(6) + u == Zeros(5126) && Zeros(6) + v == Zeros(5119) + SPIKE;
  }

  lemma LastDiffers(u: seq<bit>, v: seq<bit>)
    requires u == Zeros(5120) && v == Zeros(5113) + SPIKE
    ensures ByteAt(u, 639) != ByteAt(v, 639)
  {
    var a, b := u[5112..5120], v[5112..5120];
    assert a[1] == 0 && b[1] == 1;
    if Val(a) == Val(b) {
      ValInjective(a, b);
    }
  }

  /** Both messages are five symbols from the point between. */
  lemma HalfWay(n: nat)
    ensures var r := Silent(n) + (RESPONSE[..3] + Silent(4));
            Distance(Symbols(Zeros(n + 13)), r) == 5 == Distance(Symbols(Zeros(n + 6) + SPIKE), r)
  {
    hide Symbols, Distance;
    var mid := RESPONSE[..3] + Silent(4);
    assert SPIKE[..7] == SPIKE && RESPONSE[..7] == RESPONSE;
    SilentSymbols(n + 7);
    SpikeSymbols(n, 7);
    assert Silent(n + 7) == Silent(n) + Silent(7);
    DistanceNone(Silent(n));
    DistanceConcat(Silent(n), Silent(7), Silent(n), mid);
    DistanceConcat(Silent(n), RESPONSE, Silent(n), mid);
    MiddleDistances(Silent(7), mid, RESPONSE);
  }

  lemma MiddleDistances(one: seq<Pair>, mid: seq<Pair>, other: seq<Pair>)
    requires one == Silent(7) && mid == RESPONSE[..3] + Silent(4) && other == RESPONSE
    ensures Distance(one, mid) == 5 == Distance(other, mid)
  {
    hide Distance, Differ;
    SevenApart(one, mid);
    SevenApart(other, mid);
    var o, a, b, c := Pair(0, 0), Pair(1, 1), Pair(0, 1), Pair(1, 0);
    assert one == [o, o, o, o, o, o, o] && mid == [a, b, a, o, o, o, o];
    forall p, q | p in {o, a, b, c} && q in {o, a, b}
      ensures Differ(p, q) == (if p.a == q.a then 0 else 1) + (if p.b == q.b then 0 else 1)
    {
      DifferOf(p, q);
    }
  }

  lemma DifferOf(p: Pair, q: Pair)
    ensures Differ(p, q) == (if p.a == q.a then 0 else 1) + (if p.b == q.b then 0 else 1)
  {
  }

  lemma SevenApart(a: seq<Pair>, b: seq<Pair>)
    requires |a| == |b| == 7
    ensures Distance(a, b) == Differ(a[0], b[0]) + Differ(a[1], b[1]) + Differ(a[2], b[2]) + Differ(a[3], b[3])
                            + Differ(a[4], b[4]) + Differ(a[5], b[5]) + Differ(a[6], b[6])
  {
    hide Differ;
    assert Distance(a[..0], b[..0]) == 0;
    forall n | 0 <= n < 7
      ensures Distance(a[..n + 1], b[..n + 1]) == Distance(a[..n], b[..n]) + Differ(a[n], b[n])
    {
      assert a[..n + 1][..n] == a[..n] && b[..n + 1][..n] == b[..n];
    }
    assert a[..7] == a && b[..7] == b;
  }
}
