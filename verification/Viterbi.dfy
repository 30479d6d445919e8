/** The maximum-likelihood decoder: a register-exchange dynamic program over 64 states. */
module Viterbi {
  // genMet fills the soft table with floating-point logarithms. Only the entries for samples 28 and 228
  // are ever read, so the model takes the two integers found there as parameters: `hit` where the sample
  // agrees with the bit, `miss` where it does not.

  import opened Bits
  import opened Convolutional

  /** What the decoder is built with: the two gains and the symbol pair of the branch from each of
      the states 0 to 31 on input 0, first symbol in the high bit. */
  datatype Gains = Gains(hit: int, miss: int, partab: seq<int>)
  {
    ghost predicate Valid() {
      |partab| == 32 && forall i :: 0 <= i < 32 ==> 0 <= partab[i] < 4
    }

    /** A hit is worth more than a miss, and a whole frame of misses is better than starting in a
        nonzero state. */
    predicate Usable() {
      miss < hit && 10240 * (hit - miss) < 999999
    }
  }

  const ROW0: seq<int> := [0, 1, 3, 2, 3, 2, 0, 1]
  const ROW1: seq<int> := [2, 3, 1, 0, 1, 0, 2, 3]
  const PARTAB: seq<int> := ROW0 + ROW0 + ROW1 + ROW1

  function Sample(x: bit): int {
    if x == 0 then 28 else 228
  }

  function MetTab(g: Gains, b: bit, sample: int): int
    requires sample == 28 || sample == 228
  {
    if (b == 0) == (sample == 28) then g.hit else g.miss
  }

  /** A survivor: the last 32 bits that left the register, and the metric. */
  datatype Survivor = Survivor(path: nat, metric: int)

  function Better(zero: Survivor, one: Survivor, gain0: int, gain1: int): Survivor {
    if zero.metric + gain0 > one.metric + gain1
    then Survivor(Word(2 * zero.path), zero.metric + gain0)
    else Survivor(Word(2 * one.path + 1), one.metric + gain1)
  }

  /** Gain of expected symbol pair `sym` (first symbol in its high bit) against what was received. */
  function PairGain(g: Gains, sym: int, p: Pair): int
    requires 0 <= sym < 4
  {
    MetTab(g, sym / 2, Sample(p.a)) + MetTab(g, sym % 2, Sample(p.b))
  }

  /** The symbol pair of the branch into state s from state s / 2. */
  ghost function Expected(g: Gains, s: nat): (sym: int)
    requires g.Valid() && s < 64
    ensures 0 <= sym < 4
  {
    if s % 2 == 0 then g.partab[s / 2] else 3 - g.partab[s / 2]
  }

  /** The survivor of state s one trellis step on, when p was received. */
  ghost function Winner(g: Gains, p: Pair, prev: seq<Survivor>, s: nat): (v: Survivor)
    requires g.Valid() && |prev| == 64 && s < 64
  {
    var e := Expected(g, s);
    Better(prev[s / 2], prev[s / 2 + 32], PairGain(g, e, p), PairGain(g, 3 - e, p))
  }

  ghost function Advance(g: Gains, p: Pair, prev: seq<Survivor>): (after: seq<Survivor>)
    requires g.Valid() && |prev| == 64
    ensures |after| == 64
  {
    seq(64, s requires 0 <= s < 64 => Winner(g, p, prev, s))
  }

  lemma WinnerPair(g: Gains, p: Pair, prev: seq<Survivor>, i: nat)
    requires g.Valid() && |prev| == 64 && i < 32
    ensures Winner(g, p, prev, 2 * i)
         == Better(prev[i], prev[i + 32], PairGain(g, g.partab[i], p), PairGain(g, 3 - g.partab[i], p))
    ensures Winner(g, p, prev, 2 * i + 1)
         == Better(prev[i], prev[i + 32], PairGain(g, 3 - g.partab[i], p), PairGain(g, g.partab[i], p))
  {
  }

  ghost function Start(): (v: seq<Survivor>)
    ensures |v| == 64
  {
    seq(64, s => Survivor(0, if s == 0 then 0 else -999999))
  }

  /** The survivors once r has been received. */
  ghost function States(g: Gains, r: seq<Pair>): (v: seq<Survivor>)
    requires g.Valid()
    ensures |v| == 64
  {
    if r == [] then Start()
    else
      var n := |r| - 1;
      Advance(g, r[n], States(g, r[..n]))
  }

  /** The first state with the largest metric. */
  function ArgMax(v: seq<Survivor>): (s: nat)
    requires v != []
    ensures s < |v| && forall i :: 0 <= i < |v| ==> v[i].metric <= v[s].metric
    ensures forall i :: 0 <= i < s ==> v[i].metric < v[s].metric
  {
    var n := |v| - 1;
    if n == 0 then 0
    else
      var s := ArgMax(v[..n]);
      if v[n].metric > v[s].metric then n else s
  }

  /** The oldest byte of a best register. */
  function OldestByte(v: seq<Survivor>): nat
    requires |v| == 64
  {
    v[ArgMax(v)].path / 0x100_0000
  }

  /** The four bytes that come from the register of state 0 at the end, pushed up by six. */
  function TailBytes(path: nat): seq<nat> {
    BytesOfWord(Word(path * 64))
  }

  function BytesOfWord(tail: nat): seq<nat> {
    [tail / 0x100_0000, (tail / 0x1_0000) % 256, (tail / 0x100) % 256, tail % 256]
  }

  /** Whether step number n puts a byte out. */
  predicate Due(n: nat) {
    n % 8 == 5 && n > 32
  }

  /** The bytes that have come out once r has been received. */
  ghost function Emitted(g: Gains, r: seq<Pair>): (out: seq<nat>)
    requires g.Valid()
  {
    if r == [] then []
    else
      var n := |r| - 1;
      if Due(n) then Emitted(g, r[..n]) + [OldestByte(States(g, r))] else Emitted(g, r[..n])
  }

  /** How many bytes the first n steps put out. */
  function DueCount(n: nat): nat {
    if n < 38 then 0 else (n - 30) / 8
  }

  lemma DueStep(n: nat)
    ensures DueCount(n + 1) == DueCount(n) + if Due(n) then 1 else 0
  {
  }

  lemma {:induction false} EmittedLength(g: Gains, r: seq<Pair>)
    requires g.Valid()
    ensures |Emitted(g, r)| == DueCount(|r|)
  {
    if r != [] {
      EmittedLength(g, r[..|r| - 1]);
      DueStep(|r| - 1);
    }
  }

  ghost function Decoded(g: Gains, r: seq<Pair>): (out: seq<nat>)
    requires g.Valid()
  {
    Emitted(g, r) + TailBytes(States(g, r)[0].path)
  }

  /** What a frame's output array holds when some bytes have been put in. */
  ghost function Filled(bytes: seq<nat>): (f: seq<nat>)
    requires |bytes| <= 640
    ensures |f| == 640
  {
    bytes + seq(640 - |bytes|, _ => 0)
  }

  lemma DecodingStarts(g: Gains)
    requires g.Valid()
    ensures States(g, []) == seq(64, i => Survivor(0, if i == 0 then 0 else -999999))
    ensures Emitted(g, []) == [] && Filled([]) == seq(640, _ => 0)
  {
  }

  lemma DecodingEnds(g: Gains, r: seq<Pair>)
    requires g.Valid() && |r| <= 5120
    ensures |Emitted(g, r)| == DueCount(|r|) <= 636 && |Decoded(g, r)| == DueCount(|r|) + 4
    ensures var j, tail := DueCount(|r|), TailBytes(States(g, r)[0].path);
            var filled := Filled(Emitted(g, r));
            Filled(Decoded(g, r)) == filled[..j] + tail + filled[j + 4..]
  {
    hide States;
    EmittedLength(g, r);
  }

  lemma StatesStep(g: Gains, r: seq<Pair>, n: nat)
    requires g.Valid() && n < |r|
    ensures States(g, r[..n + 1]) == Advance(g, r[n], States(g, r[..n]))
  {
    assert r[..n + 1][..n] == r[..n];
  }

  lemma EmittedStep(g: Gains, r: seq<Pair>, n: nat)
    requires g.Valid() && n < |r|
    ensures Emitted(g, r[..n + 1])
         == if Due(n) then Emitted(g, r[..n]) + [OldestByte(States(g, r[..n + 1]))] else Emitted(g, r[..n])
  {
    assert r[..n + 1][..n] == r[..n];
  }

  lemma SetTwo(s: seq<Survivor>, t: seq<Survivor>, j: nat, x: Survivor, y: Survivor)
    requires |s| == |t| && j + 2 <= |s| && s[..j] == t[..j] && t[j] == x && t[j + 1] == y
    ensures s[j := x][j + 1 := y][..j + 2] == t[..j + 2]
  {
    var u := s[j := x][j + 1 := y];
    assert u[..j + 2] == u[..j] + [u[j], u[j + 1]] && t[..j + 2] == t[..j] + [t[j], t[j + 1]];
  }

  // ---------- the decoder's loops ----------

  class Decoder {
    const g: Gains

    constructor (g: Gains)
      ensures this.g == g
    {
      this.g := g;
    }

    /** Any stream that the fixed output has room for; what is short of 16 symbols at its end is left out,
        and so are the bytes that a shorter stream does not give. */
    method Decode(deint: seq<bit>) returns (output: seq<nat>)
      requires g.Valid() && |deint| < 10256
      ensures var d := Decoded(g, Pairs(deint)[..|deint| / 16 * 8]); |d| <= 640 && output == Filled(d)
    {
      hide States, Emitted, TailBytes, Decoded, Filled, Advance;
      var length := |deint|;
      var nbits := length / 16;
      var input := Samples(deint);
      var state := seq(64, i => Survivor(0, if i == 0 then 0 else -999999));
      output := seq(640, _ => 0);
      var inputCounter, j, bitcnt := 0, 0, 0;
      ghost var r, n := Pairs(deint), nbits * 8;
      assert r[..0] == [];
      DecodingStarts(g);
      while bitcnt < nbits * 8
        invariant bitcnt <= n <= 5120 && n <= |r| && inputCounter == 2 * bitcnt
        invariant state == States(g, r[..bitcnt])
        invariant j == DueCount(bitcnt) == |Emitted(g, r[..bitcnt])| && output == Filled(Emitted(g, r[..bitcnt]))
      {
        StatesStep(g, r, bitcnt);
        state := ForwardStep(input[inputCounter], input[inputCounter + 1], r[bitcnt], state);
        inputCounter := inputCounter + 2;
        if bitcnt > length - 7 {
          assert false;  // clearing odd states near the end: never reached, whatever the length
        }
        output, j := Output(r, bitcnt, state, output, j);
        bitcnt := bitcnt + 1;
      }
      DecodingEnds(g, r[..n]);
      output := Flush(state[0].path, bitcnt, output, j);
    }

    /** A byte every eighth step. */
    method Output(ghost r: seq<Pair>, bitcnt: nat, state: seq<Survivor>, before: seq<nat>, j0: nat)
      returns (output: seq<nat>, j: nat)
      requires g.Valid() && bitcnt < |r| && bitcnt < 5120
      requires state == States(g, r[..bitcnt + 1])
      requires j0 == DueCount(bitcnt) == |Emitted(g, r[..bitcnt])| && before == Filled(Emitted(g, r[..bitcnt]))
      ensures j == DueCount(bitcnt + 1) == |Emitted(g, r[..bitcnt + 1])|
      ensures output == Filled(Emitted(g, r[..bitcnt + 1]))
    {
      EmittedLength(g, r[..bitcnt]);
      EmittedStep(g, r, bitcnt);
      DueStep(bitcnt);
      output, j := before, j0;
      if bitcnt % 8 == 5 && bitcnt > 32 {
        var bs := PickBest(state);
        output := output[j := state[bs].path / 0x100_0000];
        j := j + 1;
      }
    }

    /** The last four bytes. */
    method Flush(path: nat, bitcnt: nat, before: seq<nat>, j: nat) returns (output: seq<nat>)
      requires j + 4 <= |before| && bitcnt % 8 == 0
      ensures output == before[..j] + TailBytes(path) + before[j + 4..]
    {
      var tail := path;
      var i := bitcnt % 8;
      if i != 6 {
        tail := Word(tail * 64);
      }
      output := before[j := tail / 0x100_0000];
      output := output[j + 1 := (tail / 0x1_0000) % 256];
      output := output[j + 2 := (tail / 0x100) % 256];
      output := output[j + 3 := tail % 256];
    }

    /** Hard symbols to the two soft samples. */
    method Samples(deint: seq<bit>) returns (input: seq<int>)
      ensures |input| == |deint| && forall i :: 0 <= i < |deint| ==> input[i] == Sample(deint[i])
    {
      input := [];
      for k := 0 to |deint|
        invariant |input| == k && forall i :: 0 <= i < k ==> input[i] == Sample(deint[i])
      {
        input := input + [if deint[k] == 0 then 28 else 228];
      }
    }

    method PickBest(state: seq<Survivor>) returns (bs: nat)
      requires |state| == 64
      ensures bs == ArgMax(state)
    {
      var best := state[0].metric;
      bs := 0;
      for i := 1 to 64
        invariant bs == ArgMax(state[..i]) && best == state[bs].metric
      {
        assert state[..i + 1][..i] == state[..i];
        if state[i].metric > best {
          best, bs := state[i].metric, i;
        }
      }
      assert state[..64] == state;
    }

    /** One trellis step: all 64 survivors of the next time from those of this one. */
    method ForwardStep(a: int, b: int, ghost p: Pair, state: seq<Survivor>) returns (next: seq<Survivor>)
      requires g.Valid() && |state| == 64
      requires a == Sample(p.a) && b == Sample(p.b)
      ensures next == Advance(g, p, state)
    {
      var mets := PairGains(a, b, p);
      next := seq(64, _ => Survivor(0, 0));
      ghost var after := Advance(g, p, state);
      for i := 0 to 32
        invariant |next| == 64 && next[..2 * i] == after[..2 * i]
      {
        var even, odd := Butterfly(mets, g.partab[i], state[i], state[i + 32]);
        WinnerPair(g, p, state, i);
        SetTwo(next, after, 2 * i, even, odd);
        next := next[2 * i := even][2 * i + 1 := odd];
      }
    }

    method PairGains(a: int, b: int, ghost p: Pair) returns (mets: seq<int>)
      requires a == Sample(p.a) && b == Sample(p.b)
      ensures |mets| == 4 && forall sym :: 0 <= sym < 4 ==> mets[sym] == PairGain(g, sym, p)
    {
      mets := [MetTab(g, 0, a) + MetTab(g, 0, b), MetTab(g, 0, a) + MetTab(g, 1, b),
               MetTab(g, 1, a) + MetTab(g, 0, b), MetTab(g, 1, a) + MetTab(g, 1, b)];
    }

    /** The two survivors fed by a pair of states. */
    method Butterfly(mets: seq<int>, sym: int, zero: Survivor, one: Survivor) returns (even: Survivor, odd: Survivor)
      requires |mets| == 4 && 0 <= sym < 4
      ensures even == Better(zero, one, mets[sym], mets[3 - sym])
      ensures odd == Better(zero, one, mets[3 - sym], mets[sym])
    {
      var m0, m1 := zero.metric + mets[sym], one.metric + mets[3 - sym];
      if m0 > m1 { even := Survivor(Word(2 * zero.path), m0); }
      else { even := Survivor(Word(2 * one.path + 1), m1); }
      m0, m1 := zero.metric + mets[3 - sym], one.metric + mets[sym];
      if m0 > m1 { odd := Survivor(Word(2 * zero.path), m0); }
      else { odd := Survivor(Word(2 * one.path + 1), m1); }
    }
  }
}
