/** What the decoder's survivors are: for every state, a path of largest metric into it. */
module Optimality {
  import opened Bits
  import opened Convolutional
  import opened Viterbi

  /** The gain of sending `sent` when `rcv` arrives. */
  function Gain(g: Gains, sent: Pair, rcv: Pair): int {
    MetTab(g, sent.a, Sample(rcv.a)) + MetTab(g, sent.b, Sample(rcv.b))
  }

  function Last(h: seq<bit>): Pair
    requires |h| >= 7
  {
    Pair(LastA(h), LastB(h))
  }

  /** The metric of a path: what its first state starts with, and what its steps gain. */
  function PathMetric(g: Gains, h: seq<bit>, r: seq<Pair>): int
    requires |h| == |r| + 6
  {
    if r == [] then if Val(h) == 0 then 0 else -999999
    else PathMetric(g, h[..|h| - 1], r[..|r| - 1]) + Gain(g, Last(h), r[|r| - 1])
  }

  function Six(b0: bit, b1: bit, b2: bit, b3: bit, b4: bit, b5: bit): (s: nat)
    ensures s < 64
  {
    32 * b0 + 16 * b1 + 8 * b2 + 4 * b3 + 2 * b4 + b5
  }

  function StateOf(h: seq<bit>): (s: nat)
    requires |h| >= 6
    ensures s < 64
  {
    var n := |h|;
    Six(h[n - 6], h[n - 5], h[n - 4], h[n - 3], h[n - 2], h[n - 1])
  }

  /** The state is the value of the last six bits. */
  lemma StateIsVal(h: seq<bit>)
    requires |h| >= 6
    ensures StateOf(h) == Val(h[|h| - 6..])
  {
    var w := h[|h| - 6..];
    assert w == [w[0]] + [w[1]] + [w[2]] + [w[3]] + [w[4]] + [w[5]];
    ValAppend([w[0]] + [w[1]] + [w[2]] + [w[3]] + [w[4]], w[5]);
    ValAppend([w[0]] + [w[1]] + [w[2]] + [w[3]], w[4]);
    ValAppend([w[0]] + [w[1]] + [w[2]], w[3]);
    ValAppend([w[0]] + [w[1]], w[2]);
    ValAppend([w[0]], w[1]);
    assert [w[0]] == [] + [w[0]];
    ValAppend([], w[0]);
  }

  // ---------- the table is the code ----------

  function Middle(a: bit, b: bit, c: bit, d: bit, e: bit): (i: nat)
    ensures i < 32
  {
    16 * a + 8 * b + 4 * c + 2 * d + e
  }

  /** What the generators send from a state below 32 with these middle bits, on input 0. */
  function Sent(a: bit, b: bit, c: bit, d: bit, e: bit): int {
    2 * GenA(0, a, b, c, d, e, 0) + GenB(0, a, b, c, d, e, 0)
  }

  /** The table of branch symbols is that of the code. */
  ghost predicate IsCode(g: Gains) {
    g.Valid() && forall a: bit, b: bit, c: bit, d: bit, e: bit :: g.partab[Middle(a, b, c, d, e)] == Sent(a, b, c, d, e)
  }

  lemma TableIsCode(hit: int, miss: int)
    ensures IsCode(Gains(hit, miss, PARTAB))
  {
    forall a: bit, b: bit, c: bit, d: bit, e: bit
      ensures PARTAB[Middle(a, b, c, d, e)] == Sent(a, b, c, d, e)
    {
      TableEntry(a, b, c, d, e);
    }
    forall i | 0 <= i < 32 ensures 0 <= PARTAB[i] < 4 {
    }
  }

  lemma TableRow(a: bit, b: bit, k: nat)
    requires k < 8
    ensures PARTAB[16 * a + 8 * b + k] == if a == 0 then ROW0[k] else ROW1[k]
  {
  }

  lemma RowEntry(b: bit, c: bit, d: bit, e: bit)
    ensures ROW0[4 * c + 2 * d + e] == Sent(0, b, c, d, e) && ROW1[4 * c + 2 * d + e] == Sent(1, b, c, d, e)
  {
  }

  lemma TableEntry(a: bit, b: bit, c: bit, d: bit, e: bit)
    ensures PARTAB[Middle(a, b, c, d, e)] == Sent(a, b, c, d, e)
  {
    TableRow(a, b, 4 * c + 2 * d + e);
    RowEntry(b, c, d, e);
  }

  /** The branch taken from register bits w0, ..., w5 on input w6. */
  lemma Branch(g: Gains, w0: bit, w1: bit, w2: bit, w3: bit, w4: bit, w5: bit, w6: bit)
    requires IsCode(g)
    ensures var s := Six(w1, w2, w3, w4, w5, w6);
            && s / 2 == Middle(w1, w2, w3, w4, w5) && s % 2 == w6
            && (if w0 == 0 then Expected(g, s) else 3 - Expected(g, s))
            == 2 * GenA(w0, w1, w2, w3, w4, w5, w6) + GenB(w0, w1, w2, w3, w4, w5, w6)
  {
    var s := Six(w1, w2, w3, w4, w5, w6);
    assert s == 2 * Middle(w1, w2, w3, w4, w5) + w6;
    assert g.partab[Middle(w1, w2, w3, w4, w5)] == Sent(w1, w2, w3, w4, w5);
  }

  lemma SymbolGains(g: Gains, sent: Pair, rcv: Pair)
    ensures PairGain(g, 2 * sent.a + sent.b, rcv) == Gain(g, sent, rcv)
  {
  }

  /** One step of the program, seen from the register bits: the better of the two branches. */
  lemma WinnerBits(g: Gains, rcv: Pair, prev: seq<Survivor>, w1: bit, w2: bit, w3: bit, w4: bit, w5: bit, w6: bit)
    requires IsCode(g) && |prev| == 64
    ensures var s := Six(w1, w2, w3, w4, w5, w6);
            var zero, one := prev[Six(0, w1, w2, w3, w4, w5)], prev[Six(1, w1, w2, w3, w4, w5)];
            var p := Pair(GenA(0, w1, w2, w3, w4, w5, w6), GenB(0, w1, w2, w3, w4, w5, w6));
            var q := Pair(GenA(1, w1, w2, w3, w4, w5, w6), GenB(1, w1, w2, w3, w4, w5, w6));
            Winner(g, rcv, prev, s) == Better(zero, one, Gain(g, p, rcv), Gain(g, q, rcv))
  {
    var p := Pair(GenA(0, w1, w2, w3, w4, w5, w6), GenB(0, w1, w2, w3, w4, w5, w6));
    var q := Pair(GenA(1, w1, w2, w3, w4, w5, w6), GenB(1, w1, w2, w3, w4, w5, w6));
    Branch(g, 0, w1, w2, w3, w4, w5, w6);
    Branch(g, 1, w1, w2, w3, w4, w5, w6);
    SymbolGains(g, p, rcv);
    SymbolGains(g, q, rcv);
  }

  /** The register bit that the comparison for a state picks. */
  ghost function Pick(g: Gains, rcv: Pair, prev: seq<Survivor>, w1: bit, w2: bit, w3: bit, w4: bit, w5: bit,
      w6: bit): bit
    requires |prev| == 64
  {
    var p := Pair(GenA(0, w1, w2, w3, w4, w5, w6), GenB(0, w1, w2, w3, w4, w5, w6));
    var q := Pair(GenA(1, w1, w2, w3, w4, w5, w6), GenB(1, w1, w2, w3, w4, w5, w6));
    if prev[Six(0, w1, w2, w3, w4, w5)].metric + Gain(g, p, rcv)
         > prev[Six(1, w1, w2, w3, w4, w5)].metric + Gain(g, q, rcv)
    then 0 else 1
  }

  lemma PickIsWinner(g: Gains, rcv: Pair, prev: seq<Survivor>, w1: bit, w2: bit, w3: bit, w4: bit, w5: bit, w6: bit)
    requires IsCode(g) && |prev| == 64
    ensures var w0 := Pick(g, rcv, prev, w1, w2, w3, w4, w5, w6);
            var from := prev[Six(w0, w1, w2, w3, w4, w5)];
            var p := Pair(GenA(w0, w1, w2, w3, w4, w5, w6), GenB(w0, w1, w2, w3, w4, w5, w6));
            Advance(g, rcv, prev)[Six(w1, w2, w3, w4, w5, w6)]
              == Survivor(Word(2 * from.path + w0), from.metric + Gain(g, p, rcv))
  {
    WinnerBits(g, rcv, prev, w1, w2, w3, w4, w5, w6);
    var p := Pair(GenA(0, w1, w2, w3, w4, w5, w6), GenB(0, w1, w2, w3, w4, w5, w6));
    var q := Pair(GenA(1, w1, w2, w3, w4, w5, w6), GenB(1, w1, w2, w3, w4, w5, w6));
    BetterIs(prev[Six(0, w1, w2, w3, w4, w5)], prev[Six(1, w1, w2, w3, w4, w5)], Gain(g, p, rcv), Gain(g, q, rcv));
  }

  lemma BetterIs(zero: Survivor, one: Survivor, a: int, b: int)
    ensures Better(zero, one, a, b)
         == if zero.metric + a > one.metric + b then Survivor(Word(2 * zero.path + 0), zero.metric + a)
            else Survivor(Word(2 * one.path + 1), one.metric + b)
  {
  }

  lemma WinnerIsBest(g: Gains, rcv: Pair, prev: seq<Survivor>,
                     w0: bit, w1: bit, w2: bit, w3: bit, w4: bit, w5: bit, w6: bit)
    requires IsCode(g) && |prev| == 64
    ensures var p := Pair(GenA(w0, w1, w2, w3, w4, w5, w6), GenB(w0, w1, w2, w3, w4, w5, w6));
            Advance(g, rcv, prev)[Six(w1, w2, w3, w4, w5, w6)].metric
              >= prev[Six(w0, w1, w2, w3, w4, w5)].metric + Gain(g, p, rcv)
  {
    WinnerBits(g, rcv, prev, w1, w2, w3, w4, w5, w6);
  }

  // ---------- the survivor is the best path ----------

  /** Every path is at most as good as the survivor of the state it ends in. */
  lemma {:induction false} NoPathIsBetter(g: Gains, h: seq<bit>, r: seq<Pair>)
    requires IsCode(g) && |h| == |r| + 6
    ensures PathMetric(g, h, r) <= States(g, r)[StateOf(h)].metric
  {
    if r == [] {
      StateIsVal(h);
      assert h[0..] == h;
    } else {
      var n := |h|;
      NoPathIsBetter(g, h[..n - 1], r[..|r| - 1]);
      WinnerIsBest(g, r[|r| - 1], States(g, r[..|r| - 1]),
                   h[n - 7], h[n - 6], h[n - 5], h[n - 4], h[n - 3], h[n - 2], h[n - 1]);
    }
  }

  /** The path that the survivor of a state stands for: the bits each comparison picked. */
  ghost function PathOf(g: Gains, r: seq<Pair>, s0: bit, s1: bit, s2: bit, s3: bit, s4: bit, s5: bit): (h: seq<bit>)
    requires g.Valid()
    ensures |h| == |r| + 6
    ensures var t := |r|;
            && h[t] == s0 && h[t + 1] == s1 && h[t + 2] == s2
            && h[t + 3] == s3 && h[t + 4] == s4 && h[t + 5] == s5
    decreases |r|
  {
    if r == [] then [s0, s1, s2, s3, s4, s5]
    else
      var n := |r| - 1;
      PathOf(g, r[..n], Pick(g, r[n], States(g, r[..n]), s0, s1, s2, s3, s4, s5), s0, s1, s2, s3, s4) + [s5]
  }

  lemma PathStep(g: Gains, r: seq<Pair>, s0: bit, s1: bit, s2: bit, s3: bit, s4: bit, s5: bit)
    returns (w0: bit, k: seq<bit>)
    requires IsCode(g) && r != []
    ensures var n := |r| - 1;
            var from := States(g, r[..n])[Six(w0, s0, s1, s2, s3, s4)];
            && k == PathOf(g, r[..n], w0, s0, s1, s2, s3, s4)
            && PathOf(g, r, s0, s1, s2, s3, s4, s5) == k + [s5]
            && States(g, r)[Six(s0, s1, s2, s3, s4, s5)]
               == Survivor(Word(2 * from.path + w0), from.metric + Gain(g, Last(k + [s5]), r[n]))
  {
    hide Advance, Gain, GenA, GenB;
    var n := |r| - 1;
    var prev := States(g, r[..n]);
    w0 := Pick(g, r[n], prev, s0, s1, s2, s3, s4, s5);
    k := PathOf(g, r[..n], w0, s0, s1, s2, s3, s4);
    PickIsWinner(g, r[n], prev, s0, s1, s2, s3, s4, s5);
  }

  /** The survivor's metric is that of its path. */
  lemma {:induction false} SurvivorMetric(g: Gains, r: seq<Pair>, s0: bit, s1: bit, s2: bit, s3: bit, s4: bit, s5: bit)
    requires IsCode(g)
    ensures var h, v := PathOf(g, r, s0, s1, s2, s3, s4, s5), States(g, r)[Six(s0, s1, s2, s3, s4, s5)];
            PathMetric(g, h, r) == v.metric
    decreases |r|
  {
    hide Advance, Gain, GenA, GenB, Pick;
    if r == [] {
      StateIsVal([s0, s1, s2, s3, s4, s5]);
      assert [s0, s1, s2, s3, s4, s5][0..] == [s0, s1, s2, s3, s4, s5];
    } else {
      var w0, k := PathStep(g, r, s0, s1, s2, s3, s4, s5);
      SurvivorMetric(g, r[..|r| - 1], w0, s0, s1, s2, s3, s4);
      TakeSnoc(k, s5, |r| - 1);
    }
  }

  /** The survivor's register holds the last 32 bits that its path has shifted out. */
  lemma {:induction false} SurvivorRegister(g: Gains, r: seq<Pair>, s0: bit, s1: bit, s2: bit, s3: bit, s4: bit,
      s5: bit)
    requires IsCode(g)
    ensures var h, v := PathOf(g, r, s0, s1, s2, s3, s4, s5), States(g, r)[Six(s0, s1, s2, s3, s4, s5)];
            v.path == Word(Val(h[..|r|]))
    decreases |r|
  {
    hide Advance, Gain, GenA, GenB, Pick;
    if r == [] {
      assert [s0, s1, s2, s3, s4, s5][..0] == [];
    } else {
      var w0, k := PathStep(g, r, s0, s1, s2, s3, s4, s5);
      SurvivorRegister(g, r[..|r| - 1], w0, s0, s1, s2, s3, s4);
      TakeSnoc(k, s5, |r| - 1);
      ValAppend(k[..|r| - 1], w0);
      ShiftIn(Val(k[..|r| - 1]), w0);
    }
  }

  lemma TakeSnoc(k: seq<bit>, x: bit, n: nat)
    requires n < |k|
    ensures (k + [x])[..|k|] == k && (k + [x])[..n + 1] == k[..n] + [k[n]]
  {
  }

  lemma ShiftIn(x: nat, b: bit)
    ensures Word(2 * Word(x) + b) == Word(2 * x + b)
  {
    var d := 0x1_0000_0000;
    var y := 2 * Word(x) + b;
    WordIsMod(x);
    WordIsMod(y);
    WordIsMod(2 * x + b);
    DivModUnique(2 * x + b, d, 2 * (x / d) + y / d, y % d);
  }
}
