/** What the interleaver is for: a burst of wrong symbols on the air is scattered over the coded symbols. */
module Bursts {
  import opened Bits
  import opened Convolutional
  import opened ErrorEvents
  import opened FrameSync
  import opened Interleaver

  /** Two rows of a frame. */
  const BURST: nat := 324

  predicate InBurst(start: nat, k: nat) {
    start <= k < start + BURST
  }

  /** Whether coded symbol m is sent during the burst. */
  predicate Hit(start: nat, m: nat) {
    m < CODED_LENGTH && InBurst(start, Place(m))
  }

  function Hits(start: nat, lo: nat, hi: nat): nat
    decreases hi
  {
    if hi <= lo then 0 else Hits(start, lo, hi - 1) + if Hit(start, hi - 1) then 1 else 0
  }

  lemma {:induction false} HitsSplit(start: nat, lo: nat, mid: nat, hi: nat)
    requires lo <= mid <= hi
    ensures Hits(start, lo, hi) == Hits(start, lo, mid) + Hits(start, mid, hi)
  {
    hide Hit;
    if mid < hi {
      HitsSplit(start, lo, mid, hi - 1);
    }
  }

  /** If only two places are hit, no more can be counted. */
  lemma {:induction false} HitsOfTwo(start: nat, lo: nat, hi: nat, a: int, b: int)
    requires forall m :: lo <= m < hi && Hit(start, m) ==> m == a || m == b
    ensures Hits(start, lo, hi) <= (if lo <= a < hi then 1 else 0) + if lo <= b < hi then 1 else 0
  {
    hide Hit;
    if lo < hi {
      HitsOfTwo(start, lo, hi - 1, a, b);
    }
  }

  /** The row after the one that stands in place p stands 39 rows down or 25 rows up. */
  lemma NextRow(p: nat)
    ensures RowAt(p + 1) == RowAt(p) + 39 || RowAt(p + 1) == RowAt(p) - 25
  {
    var q, r := p * 39 / 64, RowAt(p);
    if r + 39 < 64 {
      DivModUnique((p + 1) * 39, 64, q, r + 39);
    } else {
      DivModUnique((p + 1) * 39, 64, q + 1, r - 25);
    }
  }

  /** In one column a burst of two rows hits at most two symbols, at least 25 apart. */
  lemma ColumnHits(start: nat, c: nat) returns (a: int, b: int)
    requires c < 160
    ensures b >= a + 25 || a >= b + 25
    ensures forall m :: 64 * c <= m < 64 * c + 64 && Hit(start, m) ==> m == a || m == b
  {
    var p := if start <= 2 + c then 0 else (start - 2 - c + 161) / 162;
    NextRow(p);
    a, b := 64 * c + RowAt(p), 64 * c + RowAt(p + 1);
    forall m | 64 * c <= m < 64 * c + 64 && Hit(start, m) ensures m == a || m == b {
      var r := m - 64 * c;
      DivModUnique(m, 64, c, r);
      RowsInverse(r);
      RowInBurst(start, c, p, PermRow(r));
    }
  }

  lemma RowInBurst(start: nat, c: nat, p: nat, row: nat)
    requires p == if start <= 2 + c then 0 else (start - 2 - c + 161) / 162
    requires InBurst(start, 162 * row + 2 + c)
    ensures row == p || row == p + 1
  {
  }

  /** In a stretch of one column. */
  lemma StretchHits(start: nat, c: nat, lo: nat, hi: nat)
    requires c < 160 && 64 * c <= lo <= hi <= 64 * c + 64
    ensures Hits(start, lo, hi) <= 2
    ensures hi <= lo + 25 ==> Hits(start, lo, hi) <= 1
  {
    var a, b := ColumnHits(start, c);
    HitsOfTwo(start, lo, hi, a, b);
  }

  lemma {:induction false} ColumnsHits(start: nat, lo: nat, hi: nat)
    requires lo < hi <= CODED_LENGTH
    ensures Hits(start, lo, hi) <= 2 * ((hi - 1) / 64 - lo / 64 + 1)
    decreases hi
  {
    var c, d := lo / 64, (hi - 1) / 64;
    if c == d {
      StretchHits(start, c, lo, hi);
    } else {
      HitsSplit(start, lo, 64 * d, hi);
      StretchHits(start, d, 64 * d, hi);
      ColumnsHits(start, lo, 64 * d);
      assert (64 * d - 1) / 64 == d - 1;
    }
  }

  /** In no stretch of steps are too many symbols hit. */
  lemma FewHits(start: nat, x: nat, y: nat)
    requires x <= y && 2 * y <= CODED_LENGTH
    ensures Few(Hits(start, 2 * x, 2 * y), y - x)
  {
    var lo, hi := 2 * x, 2 * y;
    if lo < hi {
      var c, d := lo / 64, (hi - 1) / 64;
      ColumnsHits(start, lo, hi);
      if d == c + 2 && hi - lo < 84 {
        var s, t := 64 * c + 64, 64 * c + 128;
        HitsSplit(start, lo, s, hi);
        HitsSplit(start, s, t, hi);
        StretchHits(start, c, lo, s);
        StretchHits(start, c + 1, s, t);
        StretchHits(start, d, t, hi);
      }
    }
  }

  /** Where two coded streams differ only at symbols that are hit, their distance counts hits. */
  lemma {:induction false} DistanceOfHits(start: nat, a: seq<bit>, b: seq<bit>, x: nat, y: nat)
    requires |a| == |b| == CODED_LENGTH && x <= y && 2 * y <= CODED_LENGTH
    requires forall m :: 0 <= m < CODED_LENGTH && !Hit(start, m) ==> a[m] == b[m]
    ensures Distance(Pairs(a)[x..y], Pairs(b)[x..y]) <= Hits(start, 2 * x, 2 * y)
  {
    hide Hit;
    if x < y {
      DistanceOfHits(start, a, b, x, y - 1);
      DistanceLast(Pairs(a), Pairs(b), x, y);
      hide Distance, Hits;
      assert Pairs(a)[y - 1] == Pair(a[2 * y - 2], a[2 * y - 1]) && Pairs(b)[y - 1] == Pair(b[2 * y - 2], b[2 * y - 1]);
      HitsOfStep(start, 2 * x, 2 * y);
    }
  }

  lemma DistanceLast(a: seq<Pair>, b: seq<Pair>, x: nat, y: nat)
    requires |a| == |b| && x < y <= |a|
    ensures Distance(a[x..y], b[x..y]) == Distance(a[x..y - 1], b[x..y - 1]) + Differ(a[y - 1], b[y - 1])
  {
    var n := y - x - 1;
    assert a[x..y][..n] == a[x..y - 1] && b[x..y][..n] == b[x..y - 1];
  }

  lemma HitsOfStep(start: nat, lo: nat, hi: nat)
    requires lo + 2 <= hi
    ensures Hits(start, lo, hi)
         == Hits(start, lo, hi - 2) + (if Hit(start, hi - 2) then 1 else 0) + if Hit(start, hi - 1) then 1 else 0
  {
  }

  /** A frame that differs from the one sent only during the burst has scattered errors. */
  lemma BurstIsScattered(start: nat, tx: seq<bit>, rx: seq<bit>)
    requires |tx| == |rx| == FRAME_LENGTH
    requires forall k :: 0 <= k < FRAME_LENGTH && !InBurst(start, k) ==> tx[k] == rx[k]
    ensures Scattered(Pairs(CodedOf(tx)), Pairs(CodedOf(rx)))
  {
    var a, b := CodedOf(tx), CodedOf(rx);
    forall m | 0 <= m < CODED_LENGTH && !Hit(start, m) ensures a[m] == b[m] {
      assert a[m] == tx[Place(m)] && b[m] == rx[Place(m)];
    }
    hide Hit, Hits, Distance, Few;
    forall x, y | 0 <= x <= y <= 5120 ensures Few(Distance(Pairs(a)[x..y], Pairs(b)[x..y]), y - x) {
      FewHits(start, x, y);
      DistanceOfHits(start, a, b, x, y);
      Fewer(Distance(Pairs(a)[x..y], Pairs(b)[x..y]), Hits(start, 2 * x, 2 * y), y - x);
    }
  }

  lemma Fewer(a: nat, b: nat, n: nat)
    requires a <= b && Few(b, n)
    ensures Few(a, n)
  {
  }

  // ---------- the unique word ----------

  /** The burst reaches the heads of at most three rows. */
  lemma {:induction false} BurstMismatch(start: nat, word: seq<bit>, tx: seq<bit>, rx: seq<bit>, p: nat)
    requires |word| <= 64 && |tx| == |rx| == FRAME_LENGTH && p == (start + 160) / 162
    requires forall k :: 0 <= k < FRAME_LENGTH && !InBurst(start, k) ==> tx[k] == rx[k]
    ensures var reached := if |word| <= p then 0 else if |word| >= p + 3 then 3 else |word| - p;
            Mismatch(word, Reverse(rx)) <= Mismatch(word, Reverse(tx)) + 2 * reached
  {
    hide InBurst;
    if word != [] {
      var n := |word| - 1;
      BurstMismatch(start, word[..n], tx, rx, p);
      assert Reverse(rx)[10367 - 162 * n] == rx[162 * n] && Reverse(rx)[10366 - 162 * n] == rx[162 * n + 1];
      assert Reverse(tx)[10367 - 162 * n] == tx[162 * n] && Reverse(tx)[10366 - 162 * n] == tx[162 * n + 1];
      HeadInBurst(start, p, n);
    }
  }

  lemma HeadInBurst(start: nat, p: nat, n: nat)
    requires p == (start + 160) / 162
    ensures n < p || n >= p + 3 ==> !InBurst(start, 162 * n) && !InBurst(start, 162 * n + 1)
  {
  }
}
