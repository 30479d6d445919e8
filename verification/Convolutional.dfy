/** The convolutional code that the Viterbi decoder undoes, and its distance properties. */
module Convolutional {
  // A path is the bit string its encoder reads: six register bits first, then one bit a step. The
  // window of the step that reads h[n] is h[n-6..n+1], and the state afterwards is h[n-5..n+1].

  import opened Bits

  /** Generator 0x6d: taps on the newest bit and on delays 2, 3, 5 and 6. */
  function GenA(w0: bit, w1: bit, w2: bit, w3: bit, w4: bit, w5: bit, w6: bit): bit {
    Xor(w6, Xor(w4, Xor(w3, Xor(w1, w0))))
  }

  /** Generator 0x4f: taps on the newest bit and on delays 1, 2, 3 and 6. */
  function GenB(w0: bit, w1: bit, w2: bit, w3: bit, w4: bit, w5: bit, w6: bit): bit {
    Xor(w6, Xor(w5, Xor(w4, Xor(w3, w0))))
  }

  /** The symbol pair of the last step of a path. */
  function LastA(h: seq<bit>): bit
    requires |h| >= 7
  {
    var n := |h|;
    GenA(h[n - 7], h[n - 6], h[n - 5], h[n - 4], h[n - 3], h[n - 2], h[n - 1])
  }

  function LastB(h: seq<bit>): bit
    requires |h| >= 7
  {
    var n := |h|;
    GenB(h[n - 7], h[n - 6], h[n - 5], h[n - 4], h[n - 3], h[n - 2], h[n - 1])
  }

  /** Two symbols sent, or received, in one step. */
  datatype Pair = Pair(a: bit, b: bit)

  /** A symbol stream, two at a time. */
  function Pairs(s: seq<bit>): (r: seq<Pair>)
    ensures |r| == |s| / 2
    ensures forall i :: 0 <= i < |r| ==> r[i] == Pair(s[2 * i], s[2 * i + 1])
  {
    seq(|s| / 2, i requires 0 <= i < |s| / 2 => Pair(s[2 * i], s[2 * i + 1]))
  }

  /** The symbols sent along a path: a pair for every bit after the first six. */
  function Symbols(h: seq<bit>): (c: seq<Pair>)
    requires |h| >= 6
    ensures |c| == |h| - 6
  {
    if |h| == 6 then [] else Symbols(h[..|h| - 1]) + [Pair(LastA(h), LastB(h))]
  }

  /** The encoder: six zero register bits, then the message. */
  function Encode(u: seq<bit>): (c: seq<Pair>)
    ensures |c| == |u|
  {
    Symbols(Zeros(6) + u)
  }

  function Differ(p: Pair, q: Pair): nat {
    Xor(p.a, q.a) + Xor(p.b, q.b)
  }

  /** Number of symbols in which two equally long strings differ. */
  function Distance(a: seq<Pair>, b: seq<Pair>): nat
    requires |a| == |b|
  {
    if a == [] then 0 else Distance(a[..|a| - 1], b[..|b| - 1]) + Differ(a[|a| - 1], b[|b| - 1])
  }

  lemma {:induction false} DistanceTriangle(a: seq<Pair>, b: seq<Pair>, c: seq<Pair>)
    requires |a| == |b| == |c|
    ensures Distance(a, c) <= Distance(a, b) + Distance(b, c)
    ensures Distance(a, b) == Distance(b, a)
  {
    if a != [] {
      var n := |a| - 1;
      DistanceTriangle(a[..n], b[..n], c[..n]);
    }
  }

  lemma {:induction false} DistancePrefix(a: seq<Pair>, b: seq<Pair>, n: nat)
    requires |a| == |b| && n <= |a|
    ensures Distance(a[..n], b[..n]) <= Distance(a, b)
  {
    if n < |a| {
      var m := |a| - 1;
      DistancePrefix(a[..m], b[..m], n);
      assert a[..m][..n] == a[..n] && b[..m][..n] == b[..n];
    } else {
      assert a[..n] == a && b[..n] == b;
    }
  }

  lemma {:induction false} DistanceConcat(a: seq<Pair>, b: seq<Pair>, c: seq<Pair>, d: seq<Pair>)
    requires |a| == |c| && |b| == |d|
    ensures Distance(a + b, c + d) == Distance(a, c) + Distance(b, d)
  {
    if b == [] {
      assert a + b == a && c + d == c;
    } else {
      var n := |b| - 1;
      DistanceConcat(a, b[..n], c, d[..n]);
      assert (a + b)[..|a| + n] == a + b[..n] && (c + d)[..|a| + n] == c + d[..n];
    }
  }

  lemma {:induction false} SymbolsPrefix(h: seq<bit>, n: nat)
    requires 6 <= n <= |h|
    ensures Symbols(h)[..n - 6] == Symbols(h[..n])
  {
    if n < |h| {
      var g := h[..|h| - 1];
      SymbolsPrefix(g, n);
      assert g[..n] == h[..n];
      assert Symbols(h)[..n - 6] == Symbols(g)[..n - 6];
    } else {
      assert h[..n] == h;
      assert Symbols(h)[..n - 6] == Symbols(h);
    }
  }

  // ---------- linearity ----------

  function Diff(a: seq<bit>, b: seq<bit>): (d: seq<bit>)
    requires |a| == |b|
    ensures |d| == |a|
    ensures forall i :: 0 <= i < |a| ==> d[i] == Xor(a[i], b[i])
  {
    seq(|a|, i requires 0 <= i < |a| => Xor(a[i], b[i]))
  }

  /** Number of ones a path sends. */
  function Weight(d: seq<bit>): nat
    requires |d| >= 6
  {
    if |d| == 6 then 0 else Weight(d[..|d| - 1]) + LastA(d) + LastB(d)
  }

  lemma LastOfDiff(a: seq<bit>, b: seq<bit>)
    requires |a| == |b| >= 7
    ensures LastA(Diff(a, b)) == Xor(LastA(a), LastA(b))
    ensures LastB(Diff(a, b)) == Xor(LastB(a), LastB(b))
  {
    var n := |a|;
    XorLinear(a[n - 1], a[n - 3], a[n - 4], a[n - 6], a[n - 7], b[n - 1], b[n - 3], b[n - 4], b[n - 6], b[n - 7]);
    XorLinear(a[n - 1], a[n - 2], a[n - 3], a[n - 4], a[n - 7], b[n - 1], b[n - 2], b[n - 3], b[n - 4], b[n - 7]);
  }

  lemma XorLinear(a0: bit, a1: bit, a2: bit, a3: bit, a4: bit, b0: bit, b1: bit, b2: bit, b3: bit, b4: bit)
    ensures Xor(Xor(a0, b0), Xor(Xor(a1, b1), Xor(Xor(a2, b2), Xor(Xor(a3, b3), Xor(a4, b4)))))
         == Xor(Xor(a0, Xor(a1, Xor(a2, Xor(a3, a4)))), Xor(b0, Xor(b1, Xor(b2, Xor(b3, b4)))))
  {
  }

  /** Two paths send symbols that differ exactly where the difference path sends a one. */
  lemma {:induction false} DistanceIsWeight(a: seq<bit>, b: seq<bit>)
    requires |a| == |b| >= 6
    ensures Distance(Symbols(a), Symbols(b)) == Weight(Diff(a, b))
  {
    if |a| > 6 {
      var n := |a| - 1;
      assert Diff(a, b)[..n] == Diff(a[..n], b[..n]);
      DistanceIsWeight(a[..n], b[..n]);
      LastOfDiff(a, b);
      assert Symbols(a)[..n - 6] == Symbols(a[..n]) && Symbols(b)[..n - 6] == Symbols(b[..n]);
    }
  }

  // ---------- free distance ----------

  function Row(s3: bit, s4: bit, s5: bit,
               v0: nat, v1: nat, v2: nat, v3: nat, v4: nat, v5: nat, v6: nat, v7: nat): nat {
    if s3 == 0 then
      if s4 == 0 then if s5 == 0 then v0 else v1
      else if s5 == 0 then v2 else v3
    else if s4 == 0 then if s5 == 0 then v4 else v5
    else if s5 == 0 then v6 else v7
  }

  /** The least output weight of a path from a state back to the zero state, oldest
      register bit first. */
  function ReturnWeight(s0: bit, s1: bit, s2: bit, s3: bit, s4: bit, s5: bit): nat {
    if s0 == 0 then
      if s1 == 0 then
        if s2 == 0 then Row(s3, s4, s5, 0, 8, 7, 7, 5, 7, 6, 6)
        else Row(s3, s4, s5, 3, 5, 6, 6, 6, 6, 5, 7)
      else if s2 == 0 then Row(s3, s4, s5, 3, 7, 4, 6, 6, 6, 5, 7)
      else Row(s3, s4, s5, 4, 6, 7, 5, 5, 7, 6, 6)
    else if s1 == 0 then
      if s2 == 0 then Row(s3, s4, s5, 2, 8, 5, 7, 3, 7, 6, 6)
      else Row(s3, s4, s5, 5, 5, 6, 6, 4, 6, 7, 7)
    else if s2 == 0 then Row(s3, s4, s5, 3, 5, 4, 6, 6, 6, 5, 7)
    else Row(s3, s4, s5, 4, 4, 7, 7, 5, 7, 6, 6)
  }

  /** The offset by which four times the output weight of a path that left the zero state and
      has not met it again exceeds the number of its steps. */
  function Slack(s0: bit, s1: bit, s2: bit, s3: bit, s4: bit, s5: bit): nat {
    if s0 == 0 then
      if s1 == 0 then
        if s2 == 0 then Row(s3, s4, s5, 0, 7, 10, 10, 15, 9, 13, 13)
        else Row(s3, s4, s5, 15, 14, 12, 12, 12, 13, 12, 12)
      else if s2 == 0 then Row(s3, s4, s5, 14, 11, 15, 15, 9, 11, 15, 15)
      else Row(s3, s4, s5, 17, 11, 16, 16, 11, 12, 15, 15)
    else if s1 == 0 then
      if s2 == 0 then Row(s3, s4, s5, 17, 17, 16, 10, 16, 16, 14, 9)
      else Row(s3, s4, s5, 12, 12, 10, 13, 18, 18, 13, 14)
    else if s2 == 0 then Row(s3, s4, s5, 17, 17, 13, 10, 14, 14, 15, 14)
    else Row(s3, s4, s5, 14, 14, 11, 15, 16, 16, 13, 14)
  }
  predicate ZeroState(s0: bit, s1: bit, s2: bit, s3: bit, s4: bit, s5: bit) {
    s0 + s1 + s2 + s3 + s4 + s5 == 0
  }

  /** The two tables are potentials: no step from a nonzero state beats them. */
  lemma Potentials(s0: bit, s1: bit, s2: bit, s3: bit, s4: bit, s5: bit, x: bit)
    requires !ZeroState(s0, s1, s2, s3, s4, s5)
    ensures var w := GenA(s0, s1, s2, s3, s4, s5, x) + GenB(s0, s1, s2, s3, s4, s5, x);
            && ReturnWeight(s0, s1, s2, s3, s4, s5) <= w + ReturnWeight(s1, s2, s3, s4, s5, x)
            && (ZeroState(s1, s2, s3, s4, s5, x) ||
                Slack(s0, s1, s2, s3, s4, s5) + 4 * w >= 1 + Slack(s1, s2, s3, s4, s5, x))
  {
  }

  lemma PotentialBounds(s0: bit, s1: bit, s2: bit, s3: bit, s4: bit, s5: bit)
    ensures ZeroState(s0, s1, s2, s3, s4, s5) ==> ReturnWeight(s0, s1, s2, s3, s4, s5) == 0
    ensures !ZeroState(s0, s1, s2, s3, s4, s5) ==> Slack(s0, s1, s2, s3, s4, s5) >= 7
  {
  }

  /** What is known of a difference path that left the zero state k steps ago and has not met it since,
      with output weight w and now in state (s0, ..., s5). */
  ghost predicate Away(w: nat, k: nat, s0: bit, s1: bit, s2: bit, s3: bit, s4: bit, s5: bit) {
    && !ZeroState(s0, s1, s2, s3, s4, s5)
    && 4 * w >= k + Slack(s0, s1, s2, s3, s4, s5)
    && w + ReturnWeight(s0, s1, s2, s3, s4, s5) >= 10
  }

  /** One step more: still away, or back with enough weight. */
  lemma AwayStep(w: nat, k: nat, s0: bit, s1: bit, s2: bit, s3: bit, s4: bit, s5: bit, x: bit)
    requires Away(w, k, s0, s1, s2, s3, s4, s5)
    ensures var v := w + GenA(s0, s1, s2, s3, s4, s5, x) + GenB(s0, s1, s2, s3, s4, s5, x);
            if ZeroState(s1, s2, s3, s4, s5, x) then v >= 10 && 4 * v >= k + 8
            else Away(v, k + 1, s1, s2, s3, s4, s5, x)
  {
    Potentials(s0, s1, s2, s3, s4, s5, x);
    PotentialBounds(s1, s2, s3, s4, s5, x);
  }

  /** The same, whether or not it has met the zero state since. */
  ghost predicate Far(w: nat, k: nat, s0: bit, s1: bit, s2: bit, s3: bit, s4: bit, s5: bit) {
    w >= 10 || Away(w, k, s0, s1, s2, s3, s4, s5)
  }

  lemma FarStep(w: nat, k: nat, s0: bit, s1: bit, s2: bit, s3: bit, s4: bit, s5: bit, x: bit)
    requires Far(w, k, s0, s1, s2, s3, s4, s5)
    ensures Far(w + GenA(s0, s1, s2, s3, s4, s5, x) + GenB(s0, s1, s2, s3, s4, s5, x), k + 1, s1, s2, s3, s4, s5, x)
  {
    if w < 10 {
      AwayStep(w, k, s0, s1, s2, s3, s4, s5, x);
    }
  }

  lemma AwayStart()
    ensures Away(GenA(0, 0, 0, 0, 0, 0, 1) + GenB(0, 0, 0, 0, 0, 0, 1), 1, 0, 0, 0, 0, 0, 1)
  {
  }

  lemma {:induction false} WeightOfZeros(d: seq<bit>)
    requires |d| >= 6 && forall i :: 0 <= i < |d| ==> d[i] == 0
    ensures Weight(d) == 0
  {
    if |d| > 6 {
      WeightOfZeros(d[..|d| - 1]);
    }
  }

  lemma {:induction false} Divergence(d: seq<bit>, p: nat)
    requires 6 <= p < |d| && d[p] == 1 && forall i :: 0 <= i < p ==> d[i] == 0
    ensures var n := |d|;
            Far(Weight(d), n - p, d[n - 6], d[n - 5], d[n - 4], d[n - 3], d[n - 2], d[n - 1])
  {
    var n := |d|;
    var g := d[..n - 1];
    if n == p + 1 {
      WeightOfZeros(g);
      AwayStart();
    } else {
      Divergence(g, p);
      FarStep(Weight(g), n - 1 - p, d[n - 7], d[n - 6], d[n - 5], d[n - 4], d[n - 3], d[n - 2], d[n - 1]);
    }
  }

  /** Free distance: two paths from one state that differ at bit p send symbol strings at least ten
      apart, if they end in one state again or have run 31 steps or more since they split. */
  lemma FreeDistance(a: seq<bit>, b: seq<bit>, p: nat)
    requires |a| == |b| > p >= 6
    requires a[..6] == b[..6] && a[p] != b[p]
    requires a[|a| - 6..] == b[|b| - 6..] || p + 31 <= |a|
    ensures Distance(Symbols(a), Symbols(b)) >= 10
  {
    var d, n := Diff(a, b), |a|;
    DistanceIsWeight(a, b);
    forall i | 0 <= i < 6 ensures d[i] == 0 {
      assert a[i] == a[..6][i] && b[i] == b[..6][i];
    }
    if a[n - 6..] == b[n - 6..] {
      forall i | n - 6 <= i < n ensures d[i] == 0 {
        assert a[i] == a[n - 6..][i - (n - 6)] && b[i] == b[n - 6..][i - (n - 6)];
      }
    }
    PathWeight(d, p);
  }

  lemma PathWeight(d: seq<bit>, p: nat)
    requires 6 <= p < |d| && d[p] == 1
    requires forall i :: 0 <= i < 6 ==> d[i] == 0
    requires (forall i :: |d| - 6 <= i < |d| ==> d[i] == 0) || p + 31 <= |d|
    ensures Weight(d) >= 10
  {
    var n := |d|;
    var q := FirstOne(d, p);
    Divergence(d, q);
    FarEnough(Weight(d), n - q, d[n - 6], d[n - 5], d[n - 4], d[n - 3], d[n - 2], d[n - 1]);
  }

  lemma FarEnough(w: nat, k: nat, s0: bit, s1: bit, s2: bit, s3: bit, s4: bit, s5: bit)
    requires Far(w, k, s0, s1, s2, s3, s4, s5)
    requires ZeroState(s0, s1, s2, s3, s4, s5) || k >= 31
    ensures w >= 10
  {
    PotentialBounds(s0, s1, s2, s3, s4, s5);
  }

  lemma FirstOne(d: seq<bit>, p: nat) returns (q: nat)
    requires p < |d| && d[p] == 1 && |d| >= 6 && forall i :: 0 <= i < 6 ==> d[i] == 0
    ensures 6 <= q <= p && d[q] == 1 && forall i :: 0 <= i < q ==> d[i] == 0
  {
    q := 6;
    while d[q] == 0
      invariant 6 <= q <= p && forall i :: 0 <= i < q ==> d[i] == 0
      decreases p - q
    {
      q := q + 1;
    }
  }
}
