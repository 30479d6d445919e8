/** How two paths through the trellis part and meet again, and how many wrong symbols that can take. */
module ErrorEvents {
  import opened Bits
  import opened Convolutional

  // ---------- what may be wrong ----------

  /** Wrong symbols in a stretch of n steps that no error event of that length can come from: fewer than
      half of max(10, (n + 7) / 4). */
  predicate Few(wrong: nat, n: nat) {
    wrong <= 4 || 8 * wrong < n + 7
  }

  /** In no stretch are there too many wrong symbols. */
  ghost predicate Scattered(a: seq<Pair>, b: seq<Pair>) {
    |a| == |b| && forall x, y :: 0 <= x <= y <= |a| ==> Few(Distance(a[x..y], b[x..y]), y - x)
  }

  lemma ScatteredPrefix(a: seq<Pair>, b: seq<Pair>, n: nat)
    requires Scattered(a, b) && n <= |a|
    ensures Scattered(a[..n], b[..n])
  {
    hide Few, Distance;
    forall x, y | 0 <= x <= y <= n ensures Few(Distance(a[..n][x..y], b[..n][x..y]), y - x) {
      assert a[..n][x..y] == a[x..y] && b[..n][x..y] == b[x..y];
    }
  }

  /** Four wrong symbols are never too many. */
  lemma FourAreScattered(a: seq<Pair>, b: seq<Pair>)
    requires |a| == |b| && Distance(a, b) <= 4
    ensures Scattered(a, b)
  {
    hide Distance;
    forall x, y | 0 <= x <= y <= |a| ensures Few(Distance(a[x..y], b[x..y]), y - x) {
      DistanceSplit(a, b, y);
      DistanceSplit(a[..y], b[..y], x);
      assert a[..y][x..] == a[x..y] && b[..y][x..] == b[x..y];
    }
  }

  lemma DistanceSplit(a: seq<Pair>, b: seq<Pair>, n: nat)
    requires |a| == |b| && n <= |a|
    ensures Distance(a, b) == Distance(a[..n], b[..n]) + Distance(a[n..], b[n..])
  {
    assert a == a[..n] + a[n..] && b == b[..n] + b[n..];
    DistanceConcat(a[..n], a[n..], b[..n], b[n..]);
  }

  // ---------- parting and meeting ----------

  /** Both paths are in the same state after bit t. */
  predicate Meet(h: seq<bit>, k: seq<bit>, t: nat)
    requires |h| == |k| && 6 <= t <= |h|
  {
    h[t - 6..t] == k[t - 6..t]
  }

  /** The last time up to n that both paths are in the same state. */
  lemma LastMeet(h: seq<bit>, k: seq<bit>, n: nat) returns (m: nat)
    requires |h| == |k| && 6 <= n <= |h| && h[..6] == k[..6]
    ensures 6 <= m <= n && Meet(h, k, m) && forall t :: m < t <= n ==> !Meet(h, k, t)
    ensures m < n ==> h[m] != k[m]
  {
    assert Meet(h, k, 6);
    m := n;
    while !Meet(h, k, m)
      invariant 6 <= m <= n && forall t :: m < t <= n ==> !Meet(h, k, t)
      decreases m
    {
      m := m - 1;
    }
    if m < n && h[m] == k[m] {
      assert h[m + 1 - 6..m + 1] == h[m - 6..m][1..] + [h[m]];
      assert k[m + 1 - 6..m + 1] == k[m - 6..m][1..] + [k[m]];
      assert Meet(h, k, m + 1);
    }
  }

  /** Whether a path is in the zero state after bit t. */
  predicate ZeroAfter(d: seq<bit>, t: nat)
    requires 6 <= t <= |d|
  {
    ZeroState(d[t - 6], d[t - 5], d[t - 4], d[t - 3], d[t - 2], d[t - 1])
  }

  /** A path that leaves the zero state with its first step, and is not in it again up to its end. */
  ghost predicate Parted(d: seq<bit>) {
    |d| >= 7 && ZeroAfter(d, 6) && d[6] == 1 && forall t :: 7 <= t <= |d| ==> !ZeroAfter(d, t)
  }

  lemma {:induction false} PartedIsAway(d: seq<bit>)
    requires Parted(d)
    ensures var n := |d|;
            Away(Weight(d), n - 6, d[n - 6], d[n - 5], d[n - 4], d[n - 3], d[n - 2], d[n - 1])
  {
    hide Away, GenA, GenB, ZeroState;
    var n := |d|;
    if n == 7 {
      FirstStep(d);
    } else {
      var g := d[..n - 1];
      PartedBefore(d);
      PartedIsAway(g);
      NextStep(d);
      assert !ZeroAfter(d, n);
    }
  }

  lemma FirstStep(d: seq<bit>)
    requires |d| == 7 && ZeroAfter(d, 6) && d[6] == 1
    ensures Away(Weight(d), 1, d[1], d[2], d[3], d[4], d[5], d[6])
  {
    WeightOfZeros(d[..6]);
    AwayStart();
  }

  /** One step of a path that is away. */
  lemma NextStep(d: seq<bit>)
    requires |d| > 7
    requires var n := |d|;
             Away(Weight(d[..n - 1]), n - 7, d[n - 7], d[n - 6], d[n - 5], d[n - 4], d[n - 3], d[n - 2])
    ensures var n := |d|;
            if ZeroAfter(d, n) then Weight(d) >= 10 && 4 * Weight(d) >= n + 1
            else Away(Weight(d), n - 6, d[n - 6], d[n - 5], d[n - 4], d[n - 3], d[n - 2], d[n - 1])
  {
    hide Away, GenA, GenB, ZeroState;
    var n := |d|;
    AwayStep(Weight(d[..n - 1]), n - 7, d[n - 7], d[n - 6], d[n - 5], d[n - 4], d[n - 3], d[n - 2], d[n - 1]);
  }

  lemma PartedBefore(d: seq<bit>)
    requires Parted(d) && |d| > 7
    ensures Parted(d[..|d| - 1])
  {
    hide ZeroState;
    var g := d[..|d| - 1];
    forall t | 6 <= t <= |g| ensures ZeroAfter(g, t) == ZeroAfter(d, t) {
    }
  }

  /** What an error event weighs: at least ten, and at least a quarter of its steps and more. It is over
      when the paths meet again, or has been going on for 31 steps. */
  lemma EventWeight(d: seq<bit>)
    requires |d| > 7 && Parted(d[..|d| - 1])
    requires ZeroAfter(d, |d|) || |d| >= 37
    ensures Weight(d) >= 10 && 4 * Weight(d) >= |d| + 1
  {
    hide Parted, GenA, GenB, Weight, Slack, ReturnWeight;
    var n := |d|;
    PartedIsAway(d[..n - 1]);
    NextStep(d);
    PotentialBounds(d[n - 6], d[n - 5], d[n - 4], d[n - 3], d[n - 2], d[n - 1]);
  }

  /** The symbols of a stretch depend on the state before it and the bits read in it. */
  lemma {:induction false} SymbolsOfStretch(h: seq<bit>, m: nat, n: nat)
    requires 6 <= m <= n <= |h|
    ensures Symbols(h)[m - 6..n - 6] == Symbols(h[m - 6..n])
  {
    hide LastA, LastB;
    if n > m {
      SymbolsOfStretch(h, m, n - 1);
      var g, s := h[m - 6..n], Symbols(h);
      assert g[..|g| - 1] == h[m - 6..n - 1];
      SymbolAt(h, n);
      LastOfStretch(h, m - 6, n);
      assert s[m - 6..n - 6] == s[m - 6..n - 7] + [s[n - 7]];
    }
  }

  lemma SymbolAt(h: seq<bit>, n: nat)
    requires 7 <= n <= |h|
    ensures Symbols(h)[n - 7] == Pair(LastA(h[..n]), LastB(h[..n]))
  {
    SymbolsPrefix(h, n);
    assert Symbols(h)[n - 7] == Symbols(h)[..n - 6][n - 7];
  }

  lemma LastOfStretch(h: seq<bit>, m: nat, n: nat)
    requires m + 7 <= n <= |h|
    ensures LastA(h[m..n]) == LastA(h[..n]) && LastB(h[m..n]) == LastB(h[..n])
  {
  }

  /** Between parting and meeting the symbols sent are far apart. */
  lemma EventDistance(h: seq<bit>, k: seq<bit>, m: nat, n: nat)
    requires |h| == |k| && 6 <= m < n <= |h| && Meet(h, k, m) && h[m] != k[m]
    requires forall t :: m < t < n ==> !Meet(h, k, t)
    requires m + 1 < n && (Meet(h, k, n) || m + 31 <= n)
    ensures var w := Distance(Symbols(h)[m - 6..n - 6], Symbols(k)[m - 6..n - 6]); w >= 10 && 4 * w >= n - m + 7
  {
    var a, b := h[m - 6..n], k[m - 6..n];
    var d := Diff(a, b);
    SymbolsOfStretch(h, m, n);
    SymbolsOfStretch(k, m, n);
    DistanceIsWeight(a, b);
    EventParts(h, k, m, n);
    EventWeight(d);
  }

  lemma EventParts(h: seq<bit>, k: seq<bit>, m: nat, n: nat)
    requires |h| == |k| && 6 <= m < n <= |h| && Meet(h, k, m) && h[m] != k[m]
    requires forall t :: m < t < n ==> !Meet(h, k, t)
    requires m + 1 < n
    ensures var d := Diff(h[m - 6..n], k[m - 6..n]);
            Parted(d[..|d| - 1]) && (Meet(h, k, n) ==> ZeroAfter(d, |d|))
  {
    hide ZeroAfter, Meet;
    var d := Diff(h[m - 6..n], k[m - 6..n]);
    var g := d[..|d| - 1];
    forall t | 6 <= t <= |d| ensures ZeroAfter(d, t) <==> Meet(h, k, m - 6 + t) {
      SameBits(h, k, m, n, t);
    }
    forall t | 6 <= t <= |g| ensures ZeroAfter(g, t) == ZeroAfter(d, t) {
      ZeroPrefix(d, |g|, t);
    }
    forall t | 7 <= t <= |g| ensures !ZeroAfter(g, t) {
      assert !Meet(h, k, m - 6 + t);
    }
  }

  lemma ZeroPrefix(d: seq<bit>, n: nat, t: nat)
    requires 6 <= t <= n <= |d|
    ensures ZeroAfter(d[..n], t) == ZeroAfter(d, t)
  {
  }

  lemma SameBits(h: seq<bit>, k: seq<bit>, m: nat, n: nat, t: nat)
    requires |h| == |k| && 6 <= m < n <= |h| && 6 <= t <= n - m + 6
    ensures ZeroAfter(Diff(h[m - 6..n], k[m - 6..n]), t) <==> Meet(h, k, m - 6 + t)
  {
    var d, s := Diff(h[m - 6..n], k[m - 6..n]), m - 12 + t;
    var x, y := h[s..s + 6], k[s..s + 6];
    assert forall i :: 0 <= i < 6 ==> d[t - 6 + i] == Xor(x[i], y[i]);
    SixEqual(x, y);
  }

  lemma SixEqual(x: seq<bit>, y: seq<bit>)
    requires |x| == |y| == 6
    ensures x == y <==> x[0] == y[0] && x[1] == y[1] && x[2] == y[2] && x[3] == y[3] && x[4] == y[4] && x[5] == y[5]
  {
  }

  // ---------- too few wrong symbols for an event ----------

  /** In a stretch where the paths part and meet, the wrong path is further from what arrived. */
  lemma EventLoses(h: seq<bit>, k: seq<bit>, r: seq<Pair>, m: nat, n: nat)
    requires |h| == |k| == |r| + 6 && 6 <= m < n <= |h| && Meet(h, k, m) && h[m] != k[m]
    requires forall t :: m < t < n ==> !Meet(h, k, t)
    requires m + 1 < n && (Meet(h, k, n) || m + 31 <= n)
    requires Scattered(Symbols(h), r)
    ensures Distance(Symbols(h)[m - 6..n - 6], r[m - 6..n - 6]) < Distance(Symbols(k)[m - 6..n - 6], r[m - 6..n - 6])
  {
    hide Distance, Symbols, Meet;
    EventDistance(h, k, m, n);
    var a, b, c := Symbols(h)[m - 6..n - 6], Symbols(k)[m - 6..n - 6], r[m - 6..n - 6];
    DistanceTriangle(a, c, b);
    DistanceTriangle(b, c, c);
    assert Few(Distance(a, c), n - m);
  }

  /** Where both paths read the same bits, they send the same symbols. */
  lemma SameSymbols(h: seq<bit>, k: seq<bit>, m: nat)
    requires |h| == |k| && 6 <= m <= |h| && h[m - 6..] == k[m - 6..]
    ensures Symbols(h)[m - 6..] == Symbols(k)[m - 6..]
  {
    var n := |h|;
    SymbolsOfStretch(h, m, n);
    SymbolsOfStretch(k, m, n);
    assert h[m - 6..n] == k[m - 6..n];
    assert Symbols(h)[m - 6..] == Symbols(h)[m - 6..n - 6];
    assert Symbols(k)[m - 6..] == Symbols(k)[m - 6..n - 6];
  }

  lemma SplitAt(h: seq<bit>, r: seq<Pair>, m: nat)
    requires |h| == |r| + 6 && 6 <= m <= |h|
    ensures Distance(Symbols(h), r)
         == Distance(Symbols(h[..m]), r[..m - 6]) + Distance(Symbols(h)[m - 6..], r[m - 6..])
  {
    DistanceSplit(Symbols(h), r, m - 6);
    SymbolsPrefix(h, m);
  }

  /** Of two paths with the same start and the same end, one that is no further from what arrived than the
      one sent is the one sent. */
  lemma {:induction false} SameEnds(h: seq<bit>, k: seq<bit>, r: seq<Pair>)
    requires |h| == |k| == |r| + 6 && h[..6] == k[..6] && Meet(h, k, |h|)
    requires Scattered(Symbols(h), r) && Distance(Symbols(k), r) <= Distance(Symbols(h), r)
    ensures h == k
    decreases |h|
  {
    hide Distance, Symbols, Scattered;
    var n := |h|;
    if n == 6 {
      assert h == h[..6] && k == k[..6];
    } else {
      var m := LastMeet(h, k, n - 1);
      SplitAt(h, r, m);
      SplitAt(k, r, m);
      SymbolsPrefix(h, m);
      ScatteredPrefix(Symbols(h), r, m - 6);
      assert h[..m][..6] == h[..6] && k[..m][..6] == k[..6];
      assert Meet(h[..m], k[..m], m) by { MeetPrefix(h, k, m); }
      if m == n - 1 {
        LastBit(h, k);
        SameSymbols(h, k, m);
      } else {
        EventLoses(h, k, r, m, n);
        WholeRest(h, k, r, m);
      }
      SameEnds(h[..m], k[..m], r[..m - 6]);
      assert m == n - 1;
      assert h == h[..m] + [h[m]] && k == k[..m] + [k[m]];
    }
  }

  lemma MeetPrefix(h: seq<bit>, k: seq<bit>, m: nat)
    requires |h| == |k| && 6 <= m <= |h|
    ensures Meet(h[..m], k[..m], m) == Meet(h, k, m)
  {
    assert h[..m][m - 6..m] == h[m - 6..m] && k[..m][m - 6..m] == k[m - 6..m];
  }

  lemma LastBit(h: seq<bit>, k: seq<bit>)
    requires |h| == |k| >= 7 && Meet(h, k, |h|) && Meet(h, k, |h| - 1)
    ensures var n := |h|; h[n - 1] == k[n - 1] && h[n - 7..] == k[n - 7..]
  {
    var n := |h|;
    assert h[n - 1] == h[n - 6..n][5] && k[n - 1] == k[n - 6..n][5];
    assert h[n - 7..] == h[n - 7..n - 1] + [h[n - 1]] && k[n - 7..] == k[n - 7..n - 1] + [k[n - 1]];
  }

  lemma WholeRest(h: seq<bit>, k: seq<bit>, r: seq<Pair>, m: nat)
    requires |h| == |k| == |r| + 6 && 6 <= m <= |h|
    ensures var n := |h|;
            && Symbols(h)[m - 6..n - 6] == Symbols(h)[m - 6..] && Symbols(k)[m - 6..n - 6] == Symbols(k)[m - 6..]
            && r[m - 6..n - 6] == r[m - 6..]
  {
  }
}
