/** Timing of downlink grants: unwrapped subframe counters, a sliding window of them, and how many of
    them keep a cadence. */
module GrantWindow {
  const WRAP: nat := 10240
  const TOLERANCE: nat := 3

  /** A grant as it is heard: system frame number and subframe spell a counter that wraps at 10240 ms. */
  datatype Report = Report(sfn: nat, sf: nat, bytes: nat)
  {
    predicate Valid() {
      sfn < 1024 && sf < 10
    }

    function Raw(): nat {
      sfn * 10 + sf
    }
  }

  datatype Grant = Grant(ms: int, size: nat)

  function Min(a: int, b: int): int {
    if a < b then a else b
  }

  predicate AllValid(heard: seq<Report>) {
    forall i :: 0 <= i < |heard| ==> heard[i].Valid()
  }

  // ---------- unwrapping ----------

  /** Milliseconds from one counter value to the next, less than a whole turn. */
  function Advance(last: nat, raw: nat): int {
    if raw >= last then raw - last else raw - last + WRAP
  }

  /** All grants heard, on a time axis that does not wrap. */
  function Unwrapped(heard: seq<Report>): (g: seq<Grant>)
    ensures |g| == |heard|
  {
    if heard == [] then []
    else
      var n := |heard| - 1;
      var before := Unwrapped(heard[..n]);
      var ms := if n == 0 then heard[0].Raw() else before[n - 1].ms + Advance(heard[n - 1].Raw(), heard[n].Raw());
      before + [Grant(ms, Min(heard[n].bytes, 65535))]
  }

  ghost predicate Sorted(g: seq<Grant>) {
    forall i, j :: 0 <= i < j < |g| ==> g[i].ms <= g[j].ms
  }

  /** The counter shows raw at time ms. */
  predicate Reads(ms: int, raw: nat) {
    ms % WRAP == raw
  }

  lemma AdvanceReads(ms: int, last: nat, raw: nat)
    requires Reads(ms, last) && raw < WRAP
    ensures 0 <= Advance(last, raw) < WRAP && Reads(ms + Advance(last, raw), raw)
  {
    var q := ms / WRAP;
    assert ms == WRAP * q + last;
    assert ms + Advance(last, raw) == WRAP * q + raw || ms + Advance(last, raw) == WRAP * (q + 1) + raw;
  }

  lemma AdvanceIsUnique(ms: int, last: nat, raw: nat, d: nat)
    requires Reads(ms, last) && Reads(ms + d, raw) && d < WRAP
    ensures d == Advance(last, raw)
  {
    AdvanceReads(ms, last, raw);
  }

  /** Times that start at the first counter value, agree with every counter value modulo the wrap, and
      never advance by a whole turn. */
  ghost predicate Lifts(heard: seq<Report>, ms: seq<int>) {
    && |ms| == |heard|
    && (heard != [] ==> ms[0] == heard[0].Raw())
    && (forall i :: 0 <= i < |heard| ==> Reads(ms[i], heard[i].Raw()))
    && (forall i :: 1 <= i < |heard| ==> 0 <= ms[i] - ms[i - 1] < WRAP)
  }

  function Times(g: seq<Grant>): (t: seq<int>)
    ensures |t| == |g| && forall i :: 0 <= i < |g| ==> t[i] == g[i].ms
  {
    seq(|g|, i requires 0 <= i < |g| => g[i].ms)
  }

  lemma {:induction false} UnwrappedLifts(heard: seq<Report>)
    requires AllValid(heard)
    ensures Lifts(heard, Times(Unwrapped(heard))) && Sorted(Unwrapped(heard))
  {
    hide Reads, Advance, Report.Raw;
    if heard != [] {
      var n := |heard| - 1;
      UnwrappedLifts(heard[..n]);
      RawBound(heard[n]);
      if n > 0 {
        AdvanceReads(Unwrapped(heard[..n])[n - 1].ms, heard[n - 1].Raw(), heard[n].Raw());
      }
      LiftsNext(heard, Unwrapped(heard[..n]), Unwrapped(heard)[n]);
    }
  }

  lemma LiftsNext(heard: seq<Report>, before: seq<Grant>, g: Grant)
    requires heard != [] && |before| == |heard| - 1
    requires Lifts(heard[..|heard| - 1], Times(before)) && Sorted(before)
    requires Reads(g.ms, heard[|heard| - 1].Raw())
    requires if before == [] then g.ms == heard[0].Raw() else 0 <= g.ms - before[|before| - 1].ms < WRAP
    ensures Lifts(heard, Times(before + [g])) && Sorted(before + [g])
  {
    hide Reads, Report.Raw;
    assert Times(before + [g]) == Times(before) + [g.ms];
  }

  lemma RawBound(r: Report)
    requires r.Valid()
    ensures r.Raw() < WRAP && Reads(r.Raw(), r.Raw())
  {
  }

  /** There is only one way to lift the counter: the unwrapped times are determined by what is heard. */
  lemma {:induction false} LiftIsUnique(heard: seq<Report>, a: seq<int>, b: seq<int>)
    requires Lifts(heard, a) && Lifts(heard, b)
    ensures a == b
  {
    hide Reads, Advance, Report.Raw;
    if |heard| > 1 {
      var n := |heard| - 1;
      LiftIsUnique(heard[..n], a[..n], b[..n]);
      assert a[n - 1] == a[..n][n - 1] && b[n - 1] == b[..n][n - 1];
      AdvanceIsUnique(a[n - 1], heard[n - 1].Raw(), heard[n].Raw(), a[n] - a[n - 1]);
      AdvanceIsUnique(b[n - 1], heard[n - 1].Raw(), heard[n].Raw(), b[n] - b[n - 1]);
    }
  }

  // ---------- time on the air ----------

  /** A place on the air: frame and subframe. */
  datatype Place = Place(sfn: nat, sf: nat)

  function PlaceOf(r: Report): Place {
    Place(r.sfn, r.sf)
  }

  /** One subframe, a millisecond, later: ten subframes make a frame, and after frame 1023 comes frame 0. */
  function NextPlace(p: Place): Place {
    if p.sf < 9 then Place(p.sfn, p.sf + 1)
    else if p.sfn < 1023 then Place(p.sfn + 1, 0)
    else Place(0, 0)
  }

  function Later(p: Place, d: nat): Place {
    if d == 0 then p else NextPlace(Later(p, d - 1))
  }

  /** Report b was heard d subframes after a, or that many and whole turns of 1024 frames. */
  predicate Apart(a: Report, b: Report, d: nat) {
    PlaceOf(b) == Later(PlaceOf(a), d)
  }

  /** The same of the last grant heard. */
  predicate HeardAfter(heard: seq<Report>, r: Report, d: nat) {
    heard != [] && Apart(heard[|heard| - 1], r, d)
  }

  lemma {:induction false} LaterValid(p: Place, d: nat)
    requires p.sfn < 1024 && p.sf < 10
    ensures Later(p, d).sfn < 1024 && Later(p, d).sf < 10
  {
    if d > 0 {
      LaterValid(p, d - 1);
    }
  }

  lemma {:induction false} LaterAdds(p: Place, a: nat, b: nat)
    ensures Later(Later(p, a), b) == Later(p, a + b)
  {
    if b > 0 {
      LaterAdds(p, a, b - 1);
    }
  }

  lemma OneMore(r: Report, n: Report)
    requires r.Valid() && PlaceOf(n) == NextPlace(PlaceOf(r))
    ensures n.Raw() == (r.Raw() + 1) % 10240
  {
  }

  /** The counter counts milliseconds: d subframes later it shows d more, modulo its range. */
  lemma {:induction false} CounterCounts(a: Report, b: Report, d: nat)
    requires a.Valid() && Apart(a, b, d)
    ensures b.Valid() && b.Raw() == (a.Raw() + d) % 10240
    decreases d
  {
    hide Report.Raw;
    LaterValid(PlaceOf(a), d);
    if d > 0 {
      var p := Later(PlaceOf(a), d - 1);
      var c := Report(p.sfn, p.sf, 0);
      CounterCounts(a, c, d - 1);
      OneMore(c, b);
      ModNext(a.Raw() + d - 1);
    } else {
      SamePlace(a, b);
    }
  }

  lemma SamePlace(a: Report, b: Report)
    requires a.Valid() && PlaceOf(a) == PlaceOf(b)
    ensures b.Raw() == a.Raw() % 10240
  {
  }

  lemma ModNext(n: nat)
    ensures (n % 10240 + 1) % 10240 == (n + 1) % 10240
  {
  }

  /** A grant d subframes after another, less than a whole turn, advances the time by d. */
  lemma AdvanceOnAir(a: Report, b: Report, d: nat)
    requires a.Valid() && d < 10240 && Apart(a, b, d)
    ensures Advance(a.Raw(), b.Raw()) == d
  {
    CounterCounts(a, b, d);
    hide Report.Raw;
    RawBound(a);
  }

  /** Grants heard at these milliseconds, counted from frame 0, with less than a whole turn between them. */
  ghost predicate OnAir(heard: seq<Report>, at: seq<nat>) {
    && |at| == |heard|
    && (forall i :: 0 <= i < |heard| ==> PlaceOf(heard[i]) == Later(Place(0, 0), at[i]))
    && (forall i :: 1 <= i < |heard| ==> 0 <= at[i] - at[i - 1] < 10240)
  }

  /** The unwrapped times are the times on the air, counted from the turn in which the first grant fell. */
  lemma {:induction false} UnwrappedIsOnAir(heard: seq<Report>, at: seq<nat>)
    requires OnAir(heard, at)
    ensures forall i :: 0 <= i < |heard| ==> heard[i].Valid() && Unwrapped(heard)[i].ms + at[0] == at[i] + at[0] % 10240
  {
    hide Advance, Report.Raw, Later;
    if heard != [] {
      var n := |heard| - 1;
      UnwrappedIsOnAir(heard[..n], at[..n]);
      var first := Report(0, 0, 0);
      CounterCounts(first, heard[n], at[n]);
      RawOfFirst();
      if n > 0 {
        LaterAdds(Place(0, 0), at[n - 1], at[n] - at[n - 1]);
        assert Apart(heard[n - 1], heard[n], at[n] - at[n - 1]);
        AdvanceOnAir(heard[n - 1], heard[n], at[n] - at[n - 1]);
      }
    }
  }

  lemma RawOfFirst()
    ensures Report(0, 0, 0).Raw() == 0
  {
  }

  // ---------- the window ----------

  /** The part of the history that the window keeps: of the newest 400, those of the last 3000 ms. */
  ghost predicate InWindow(all: seq<Grant>, now: int, i: int) {
    0 <= i < |all| && i >= |all| - 400 && now - all[i].ms <= 3000
  }

  ghost predicate IsWindow(all: seq<Grant>, now: int, window: seq<Grant>) {
    && |window| <= |all|
    && window == all[|all| - |window|..]
    && forall i {:trigger all[i]} :: 0 <= i < |all| ==> (i >= |all| - |window| <==> InWindow(all, now, i))
  }

  /** What is kept of a UE for timing. */
  datatype Timing = Timing(grants: seq<Grant>, abs_ms: int, last_raw: nat, has_raw: bool)

  const NO_TIMING: Timing := Timing([], 0, 0, false)

  ghost predicate Tracks(t: Timing, heard: seq<Report>) {
    && AllValid(heard) && t.has_raw == (heard != [])
    && (heard != [] ==> t.last_raw == heard[|heard| - 1].Raw() && t.abs_ms == Unwrapped(heard)[|heard| - 1].ms)
    && IsWindow(Unwrapped(heard), t.abs_ms, t.grants)
  }

  /** Records one grant: unwraps its time, appends it, and drops what has left the window. */
  method Record(t: Timing, r: Report, ghost heard: seq<Report>) returns (t': Timing)
    requires Tracks(t, heard) && r.Valid()
    ensures Tracks(t', heard + [r])
    ensures forall d: nat :: d < 10240 && HeardAfter(heard, r, d) ==> t'.abs_ms == t.abs_ms + d
    ensures LastIs(t', if r.bytes < 65535 then r.bytes else 65535)
  {
    var raw, abs_ms := r.Raw(), t.abs_ms;
    if !t.has_raw {
      abs_ms := raw;
    } else {
      var d := raw - t.last_raw;
      if d < 0 {
        d := d + WRAP;
      }
      abs_ms := abs_ms + d;
    }
    var g := Grant(abs_ms, Min(r.bytes, 65535));
    hide IsWindow, Report.Raw, Min, Tracks, IsTrimmed;
    var grants := Trim(t.grants + [g], abs_ms);
    t' := Timing(grants, abs_ms, raw, true);
    Recorded(t, heard, r, g, grants);
    NewestIsKept(t', heard, r);
    forall d: nat | d < 10240 && HeardAfter(heard, r, d) ensures abs_ms == t.abs_ms + d {
      AdvancesBy(t, t', heard, r, d);
    }
  }

  /** The newest grant stands last in the window, at the time reached. */
  predicate LastIs(t: Timing, size: nat) {
    t.grants != [] && t.grants[|t.grants| - 1] == Grant(t.abs_ms, size)
  }

  lemma NewestIsKept(t: Timing, heard: seq<Report>, r: Report)
    requires Tracks(t, heard + [r])
    ensures LastIs(t, if r.bytes < 65535 then r.bytes else 65535)
  {
    var all := Unwrapped(heard + [r]);
    var n := |heard|;
    assert (heard + [r])[n] == r;
    assert InWindow(all, t.abs_ms, n) by { assert all[n].ms == t.abs_ms; }
    assert all[n] == Grant(t.abs_ms, if r.bytes < 65535 then r.bytes else 65535);
    assert t.grants[|t.grants| - 1] == all[n];
  }

  lemma AdvancesBy(t: Timing, t': Timing, heard: seq<Report>, r: Report, d: nat)
    requires Tracks(t, heard) && Tracks(t', heard + [r]) && d < 10240 && HeardAfter(heard, r, d)
    ensures t'.abs_ms == t.abs_ms + d
  {
    hide Report.Raw, Advance, IsWindow, Apart;
    assert (heard + [r])[..|heard|] == heard;
    AdvanceOnAir(heard[|heard| - 1], r, d);
  }

  ghost predicate IsTrimmed(all: seq<Grant>, abs_ms: int, kept: seq<Grant>) {
    && |kept| <= |all| && kept == all[|all| - |kept|..] && |kept| <= 400
    && (kept != [] ==> abs_ms - kept[0].ms <= 3000)
    && forall i :: 0 <= i < |all| - |kept| ==> |all| - i > 400 || abs_ms - all[i].ms > 3000
  }

  lemma Recorded(t: Timing, heard: seq<Report>, r: Report, g: Grant, kept: seq<Grant>)
    requires Tracks(t, heard) && r.Valid() && g.size == Min(r.bytes, 65535)
    requires g.ms == if heard == [] then r.Raw() else t.abs_ms + Advance(t.last_raw, r.Raw())
    requires IsTrimmed(t.grants + [g], g.ms, kept)
    ensures Tracks(Timing(kept, g.ms, r.Raw(), true), heard + [r])
  {
    hide Report.Raw, Min, Advance, Report.Valid, Unwrapped, IsTrimmed, IsWindow, InWindow;
    var now := heard + [r];
    assert now[|heard|] == r;
    assert IsWindow(Unwrapped(now), g.ms, kept) by {
      Appended(t, heard, r);
      SortedHistory(now);
      Trimmed(Unwrapped(now), g.ms, t.grants + [g], kept);
    }
    Appended(t, heard, r);
  }

  lemma SortedHistory(heard: seq<Report>)
    requires AllValid(heard)
    ensures Sorted(Unwrapped(heard))
  {
    UnwrappedLifts(heard);
  }

  method Trim(all: seq<Grant>, abs_ms: int) returns (kept: seq<Grant>)
    ensures IsTrimmed(all, abs_ms, kept)
  {
    kept := all;
    while |kept| > 400 || (kept != [] && abs_ms - kept[0].ms > 3000)
      invariant |kept| <= |all| && kept == all[|all| - |kept|..]
      invariant forall i :: 0 <= i < |all| - |kept| ==> |all| - i > 400 || abs_ms - all[i].ms > 3000
      decreases |kept|
    {
      kept := kept[1..];
    }
  }

  /** The old window with the new grant is still a suffix of the history, and has all that is to stay. */
  lemma Appended(t: Timing, heard: seq<Report>, r: Report)
    requires Tracks(t, heard) && r.Valid()
    ensures var all := Unwrapped(heard + [r]);
            var more := t.grants + [Grant(all[|heard|].ms, Min(r.bytes, 65535))];
            && |more| <= |all| && more == all[|all| - |more|..]
            && all[|heard|].ms == (if heard == [] then r.Raw() else t.abs_ms + Advance(t.last_raw, r.Raw()))
            && forall i :: 0 <= i < |all| - |more| ==> !InWindow(all, all[|heard|].ms, i)
  {
    assert (heard + [r])[..|heard|] == heard;
    var before, all := Unwrapped(heard), Unwrapped(heard + [r]);
    var now := all[|heard|].ms;
    var more := t.grants + [all[|heard|]];
    forall i | 0 <= i < |all| - |more| ensures !InWindow(all, now, i) {
      assert all[i] == before[i] && !InWindow(before, t.abs_ms, i);
    }
  }

  lemma Trimmed(all: seq<Grant>, now: int, more: seq<Grant>, kept: seq<Grant>)
    requires Sorted(all) && |more| <= |all| && more == all[|all| - |more|..]
    requires forall i :: 0 <= i < |all| - |more| ==> !InWindow(all, now, i)
    requires IsTrimmed(more, now, kept)
    ensures IsWindow(all, now, kept)
  {
    var k, m := |all| - |kept|, |all| - |more|;
    assert kept == all[k..];
    forall i | 0 <= i < |all| ensures i >= k <==> InWindow(all, now, i) {
      if i >= k {
        assert kept[0] == all[k];
        assert i > k ==> all[k].ms <= all[i].ms;
      } else if i >= m {
        assert more[i - m] == all[i];
      }
    }
  }

  /** The window in numbers: of all grants heard, the newest 400 as far as they are not older than 3000 ms. */
  lemma WindowMeans(t: Timing, heard: seq<Report>)
    requires Tracks(t, heard)
    ensures var all := Unwrapped(heard);
            && |t.grants| <= |all| && t.grants == all[|all| - |t.grants|..]
            && forall i {:trigger all[i]} :: 0 <= i < |all| ==>
                 (i >= |all| - |t.grants| <==> |all| - i <= 400 && t.abs_ms - all[i].ms <= 3000)
  {
  }

  /** So the window is sorted, and dropping what is too old, as every analysis does once more, finds
      nothing to drop. */
  lemma WindowIsSorted(t: Timing, heard: seq<Report>)
    requires Tracks(t, heard)
    ensures Sorted(t.grants) && |t.grants| <= 400
    ensures forall i :: 0 <= i < |t.grants| ==> 0 <= t.abs_ms - t.grants[i].ms <= 3000
  {
    UnwrappedLifts(heard);
    var all := Unwrapped(heard);
    var k := |all| - |t.grants|;
    if t.grants != [] {
      assert InWindow(all, t.abs_ms, k) by { assert all[k] == t.grants[0]; }
    }
    forall i | 0 <= i < |t.grants| ensures 0 <= t.abs_ms - t.grants[i].ms <= 3000 {
      assert t.grants[i] == all[k + i] && InWindow(all, t.abs_ms, k + i);
    }
  }

  ghost predicate IsDropped(grants: seq<Grant>, abs_ms: int, kept: seq<Grant>) {
    && |kept| <= |grants| && kept == grants[|grants| - |kept|..]
    && (forall i :: 0 <= i < |grants| - |kept| ==> abs_ms - grants[i].ms > 3000)
    && (kept != [] ==> abs_ms - kept[0].ms <= 3000)
  }

  lemma NothingDropped(t: Timing, heard: seq<Report>, kept: seq<Grant>)
    requires Tracks(t, heard) && IsDropped(t.grants, t.abs_ms, kept)
    ensures kept == t.grants
  {
    WindowIsSorted(t, heard);
    hide Tracks;
    var oldest := if t.grants == [] then t.abs_ms else t.grants[0].ms;
    assert t.abs_ms - oldest <= 3000;
    assert |kept| < |t.grants| ==> t.abs_ms - oldest > 3000;
  }

  /** std::deque::pop_front while the oldest grant is too old. */
  method DropOld(grants: seq<Grant>, abs_ms: int) returns (kept: seq<Grant>)
    ensures IsDropped(grants, abs_ms, kept)
  {
    kept := grants;
    while kept != [] && abs_ms - kept[0].ms > 3000
      invariant |kept| <= |grants| && kept == grants[|grants| - |kept|..]
      invariant forall i :: 0 <= i < |grants| - |kept| ==> abs_ms - grants[i].ms > 3000
      decreases |kept|
    {
      kept := kept[1..];
    }
  }

  // ---------- cadence ----------

  /** Some grant came P ms before time t, give or take the tolerance. */
  ghost predicate Preceded(times: seq<int>, t: int, P: nat) {
    exists j :: 0 <= j < |times| && t - P - 3 <= times[j] <= t - P + 3
  }

  ghost function Keeping(times: seq<int>, P: nat, n: nat): nat
    requires n <= |times|
  {
    if n == 0 then 0 else Keeping(times, P, n - 1) + if Preceded(times, times[n - 1], P) then 1 else 0
  }

  /** How many grants keep the cadence. */
  ghost function Cadence(times: seq<int>, P: nat): nat {
    Keeping(times, P, |times|)
  }

  ghost predicate Ascending(times: seq<int>) {
    forall i, j :: 0 <= i < j < |times| ==> times[i] <= times[j]
  }

  /** std::lower_bound: the first time not before lo. */
  method LowerBound(times: seq<int>, lo: int) returns (a: nat)
    requires Ascending(times)
    ensures a <= |times|
    ensures forall j :: 0 <= j < a ==> times[j] < lo
    ensures forall j :: a <= j < |times| ==> times[j] >= lo
  {
    a := 0;
    var end := |times|;
    while a < end
      invariant a <= end <= |times|
      invariant forall j :: 0 <= j < a ==> times[j] < lo
      invariant forall j :: end <= j < |times| ==> times[j] >= lo
    {
      var mid := a + (end - a) / 2;
      if times[mid] < lo {
        a := mid + 1;
      } else {
        end := mid;
      }
    }
  }

  /** The binary search counts the same grants as comparing every pair. */
  method MatchCount(times: seq<int>, P: nat) returns (m: nat)
    requires Ascending(times)
    ensures m == Cadence(times, P)
  {
    m := 0;
    for i := 0 to |times|
      invariant m == Keeping(times, P, i)
    {
      var lo, hi := times[i] - P - TOLERANCE, times[i] - P + TOLERANCE;
      var a := LowerBound(times, lo);
      assert Preceded(times, times[i], P) <==> a < |times| && times[a] <= hi;
      if a < |times| && times[a] <= hi {
        m := m + 1;
      }
    }
  }
}
