/** The verdict on a window as it is computed, with every operation rounded. */
module RoundedVerdict {
  import opened GrantWindow
  import opened VoiceCalls

  /** What is asked of rounding: an error of at most one part in 100000. Floats and doubles do far better. */
  ghost predicate Rounds(r: real -> real) {
    forall x :: x >= 0.0 ==> 0.99999 * x <= r(x) <= 1.00001 * x
  }

  lemma RoundAt(r: real -> real, x: real)
    requires Rounds(r) && x >= 0.0
    ensures 0.99999 * x <= r(x) <= 1.00001 * x
  {
  }

  // ---------- products of reals ----------

  lemma TimesMore(a: real, b: real, c: real)
    requires a <= b && c >= 0.0
    ensures a * c <= b * c
  {
  }

  /** Commutes, and takes out a factor. */
  lemma ScaledProduct(k: real, a: real, b: real)
    ensures (k * a) * b == k * (b * a) && a * b == b * a
  {
  }

  lemma ProductPositive(a: real, b: real)
    requires a > 0.0 && b > 0.0
    ensures a * b > 0.0
  {
  }

  lemma NotNegative(a: real, n: real)
    requires n > 0.0 && a * n >= 0.0
    ensures a >= 0.0
  {
    if a < 0.0 {
      ProductPositive(-a, n);
    }
  }

  lemma Spread(a: real, b: real, c: real, n: real)
    ensures (a - b - c) * n == a * n - b * n - c * n
  {
  }

  // ---------- the share of grants in cadence ----------

  /** m of n, rounded, against a bound. */
  ghost function Share(r: real -> real, m: nat, n: nat): real
    requires n > 0
  {
    r(m as real / n as real)
  }

  lemma Quotient(m: nat, n: nat)
    requires n > 0
    ensures var x := m as real / n as real; x >= 0.0 && x * n as real == m as real
  {
  }

  /** A fraction with a denominator of at most 400 that is above c is well above it. */
  lemma WellAbove(x: real, n: real, c: real, gap: real)
    requires 0.0 < n <= 400.0 && gap >= 0.0 && x * n >= c * n + 400.0 * gap
    ensures x >= c + gap
  {
    Spread(x, c, gap, n);
    TimesMore(n, 400.0, gap);
    assert n * gap == gap * n;
    NotNegative(x - c - gap, n);
  }

  lemma WellBelow(x: real, n: real, c: real, gap: real)
    requires 0.0 < n <= 400.0 && gap >= 0.0 && x * n <= c * n - 400.0 * gap
    ensures x <= c - gap
  {
    Spread(c, x, gap, n);
    TimesMore(n, 400.0, gap);
    assert n * gap == gap * n;
    NotNegative(c - x - gap, n);
  }

  lemma NotClose(x: real, n: real, c: real, gap: real)
    requires 0.0 < n <= 400.0 && gap >= 0.0
    ensures x * n >= c * n + 400.0 * gap ==> x >= c + gap
    ensures x * n <= c * n - 400.0 * gap ==> x <= c - gap
  {
    if x * n >= c * n + 400.0 * gap {
      WellAbove(x, n, c, gap);
    }
    if x * n <= c * n - 400.0 * gap {
      WellBelow(x, n, c, gap);
    }
  }

  /** Three quarters can be told from anything else. */
  lemma QuarterShare(f: real -> real, m: nat, n: nat)
    requires Rounds(f) && f(0.75) == 0.75 && m <= n && 0 < n <= 400
    ensures Share(f, m, n) >= 0.75 <==> 4 * m >= 3 * n
  {
    var x := m as real / n as real;
    Quotient(m, n);
    RoundAt(f, x);
    NotClose(x, n as real, 0.75, 0.000625);
    NotClose(x, n as real, 1.0, 0.0);
    if 4 * m == 3 * n {
      NotClose(x, n as real, 0.75, 0.0);
      assert x == 0.75;
    }
  }

  /** And so can nine tenths, although that is rounded itself. */
  lemma TenthShare(f: real -> real, m: nat, n: nat)
    requires Rounds(f) && m <= n && 0 < n < 30
    ensures Share(f, m, n) >= f(0.9) <==> 10 * m >= 9 * n
  {
    var x := m as real / n as real;
    Quotient(m, n);
    RoundAt(f, x);
    RoundAt(f, 0.9);
    NotClose(x, n as real, 0.9, 0.00025);
    NotClose(x, n as real, 1.0, 0.0);
    if 10 * m == 9 * n {
      NotClose(x, n as real, 0.9, 0.0);
      assert x == 0.9;
    }
  }

  // ---------- the bit rate ----------

  /** As the program computes it: seconds first, and no rate for 200 ms or less. */
  ghost function BitRate(d: real -> real, bytes: nat, span: int): real {
    var span_s := d(span as real / 1000.0);
    if span_s > d(0.2) && span_s != 0.0 then d(bytes as real * 8.0 / span_s) else 0.0
  }

  /** Bits over seconds t with a rounding error, against a limit that is missed by one part in 25000. */
  lemma RateAbove(bits: real, s: real, t: real, q: real, b: real, limit: real)
    requires s > 0.0 && limit > 0.0 && 0.0 < t <= 1.00001 * s
    requires q * t == bits && 0.99999 * q <= b && bits >= 1.00004 * (limit * s)
    ensures b > limit
  {
    ProductPositive(limit, s);
    TimesMore(t, 1.00001 * s, limit);
    ScaledProduct(1.00001, s, limit);
    ScaledProduct(1.00002, limit, t);
    assert (q - 1.00002 * limit) * t == q * t - (1.00002 * limit) * t;
    NotNegative(q - 1.00002 * limit, t);
  }

  lemma RateBelow(bits: real, s: real, t: real, q: real, b: real, limit: real)
    requires s > 0.0 && limit > 0.0 && 0.99999 * s <= t
    requires q * t == bits && b <= 1.00001 * q && bits <= 0.99996 * (limit * s)
    ensures b < limit
  {
    ProductPositive(limit, s);
    TimesMore(0.99999 * s, t, limit);
    ScaledProduct(0.99999, s, limit);
    ScaledProduct(0.99998, limit, t);
    assert (0.99998 * limit - q) * t == (0.99998 * limit) * t - q * t;
    NotNegative(0.99998 * limit - q, t);
  }

  lemma SpanSide(d: real -> real, span: int)
    requires Rounds(d) && span >= 0
    ensures d(span as real / 1000.0) > d(0.2) <==> span > 200
  {
    RoundAt(d, 0.2);
    RoundAt(d, span as real / 1000.0);
    assert span == 200 ==> span as real / 1000.0 == 0.2;
  }

  /** Unless it is exactly one of the bounds, the rate is on the same side of them as the exact fraction. */
  lemma RateAgrees(d: real -> real, bytes: nat, span: int)
    requires Rounds(d) && 0 <= span <= 3000 && 8000 * bytes != 2000 * span && 8000 * bytes != 64000 * span
    ensures 2000.0 <= BitRate(d, bytes, span) <= 64000.0
       <==> span > 200 && 2000 * span <= 8000 * bytes <= 64000 * span
  {
    SpanSide(d, span);
    if span > 200 {
      var s := span as real / 1000.0;
      var t, bits := d(s), bytes as real * 8.0;
      RoundAt(d, s);
      RoundAt(d, bits / t);
      QuotientTimes(bits, t);
      Limit(bytes, span, s, 2000);
      Limit(bytes, span, s, 64000);
      RateSide(bits, s, t, bits / t, d(bits / t), 2000.0);
      RateSide(bits, s, t, bits / t, d(bits / t), 64000.0);
    }
  }

  lemma QuotientTimes(a: real, b: real)
    requires a >= 0.0 && b > 0.0
    ensures a / b >= 0.0 && a / b * b == a
  {
  }

  /** A rate that is not exactly at the limit misses it by more than rounding can hide. */
  lemma Limit(bytes: nat, span: int, s: real, limit: int)
    requires 200 < span <= 3000 && s == span as real / 1000.0 && (limit == 2000 || limit == 64000)
    ensures var bits := bytes as real * 8.0;
            && (8000 * bytes > limit * span ==> bits >= 1.00004 * (limit as real * s))
            && (8000 * bytes < limit * span ==> bits <= 0.99996 * (limit as real * s))
  {
    if limit == 2000 {
      assert 8000 * bytes > limit * span ==> 8000 * bytes >= 2000 * span + 2000;
      assert 8000 * bytes < limit * span ==> 8000 * bytes <= 2000 * span - 2000;
    } else {
      assert 8000 * bytes > limit * span ==> 8000 * bytes >= 64000 * span + 8000;
      assert 8000 * bytes < limit * span ==> 8000 * bytes <= 64000 * span - 8000;
    }
  }

  lemma RateSide(bits: real, s: real, t: real, q: real, b: real, limit: real)
    requires s > 0.0 && limit > 0.0 && 0.99999 * s <= t <= 1.00001 * s && q >= 0.0
    requires q * t == bits && 0.99999 * q <= b <= 1.00001 * q
    ensures bits >= 1.00004 * (limit * s) ==> b > limit
    ensures bits <= 0.99996 * (limit * s) ==> b < limit
  {
    if bits >= 1.00004 * (limit * s) {
      RateAbove(bits, s, t, q, b, limit);
    }
    if bits <= 0.99996 * (limit * s) {
      RateBelow(bits, s, t, q, b, limit);
    }
  }

  // ---------- the verdict ----------

  ghost function JudgeRounded(f: real -> real, d: real -> real, grants: seq<Grant>): Verdict {
    var n := |grants|;
    if n < 8 then Verdict(false, false, 0, n)
    else
      var times := Times(grants);
      var a, b := Share(f, Cadence(times, 20), n), Share(f, Cadence(times, 40), n);
      var best := if a < b then b else a;
      var rate := BitRate(d, TotalSize(grants), grants[n - 1].ms - grants[0].ms);
      var brok := 2000.0 <= rate <= 64000.0;
      var voice := (if n >= 30 then best >= 0.75 else best >= f(0.9)) && SizeOk(grants) && brok;
      Verdict(voice, voice && n < 30, Best(grants), n)
  }

  /** Rounding changes no verdict, unless the bit rate is exactly one of its two bounds. */
  lemma RoundingAside(f: real -> real, d: real -> real, grants: seq<Grant>)
    requires Rounds(f) && f(0.75) == 0.75 && Rounds(d)
    requires Sorted(grants) && |grants| <= 400
    requires grants != [] ==>
               var span, bytes := grants[|grants| - 1].ms - grants[0].ms, TotalSize(grants);
               span <= 3000 && 8000 * bytes != 2000 * span && 8000 * bytes != 64000 * span
    ensures JudgeRounded(f, d, grants) == Judge(grants)
  {
    var n := |grants|;
    if n >= 8 {
      var times := Times(grants);
      hide Share, BitRate, TotalSize, SizeOk, Cadence;
      CadenceBound(times, 20);
      CadenceBound(times, 40);
      RateAgrees(d, TotalSize(grants), grants[n - 1].ms - grants[0].ms);
      if n >= 30 {
        QuarterShare(f, Cadence(times, 20), n);
        QuarterShare(f, Cadence(times, 40), n);
      } else {
        TenthShare(f, Cadence(times, 20), n);
        TenthShare(f, Cadence(times, 40), n);
      }
    }
  }

  lemma CadenceBound(times: seq<int>, P: nat)
    ensures Cadence(times, P) <= |times|
  {
    KeepingBound(times, P, |times|);
  }

  lemma {:induction false} KeepingBound(times: seq<int>, P: nat, n: nat)
    requires n <= |times|
    ensures Keeping(times, P, n) <= n
  {
    if n > 0 {
      KeepingBound(times, P, n - 1);
    }
  }
}
