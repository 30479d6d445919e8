/** Which sub-band a new decoder is put into: the scan over all workers, and what it finds. */
module BandChoice {
  import opened Options
  import opened ManagerSteps
  import opened ManagerInvariant

  /** Sub-band k of worker i covers the frequency. */
  predicate Fits(ws: seq<Worker>, freq: real, i: nat, k: nat) {
    i < |ws| && k < |ws[i].bands| && Covers(ws[i].bands[k].site, freq)
  }

  function LoadAt(ws: seq<Worker>, i: nat, k: nat): int
    requires i < |ws| && k < |ws[i].bands|
  {
    Load(ws[i], ws[i].bands[k])
  }

  /** It may be taken: its load is below the one that the search begins with. */
  predicate Candidate(ws: seq<Worker>, freq: real, i: nat, k: nat) {
    Fits(ws, freq, i, k) && LoadAt(ws, i, k) < NO_LOAD
  }

  predicate Before(i: nat, k: nat, j: nat, l: nat) {
    i < j || (i == j && k < l)
  }

  /** Among the sub-bands of the first n workers that cover the frequency, it is the first of least load. */
  ghost predicate Chosen(ws: seq<Worker>, freq: real, n: nat, i: nat, k: nat)
    requires n <= |ws|
  {
    && i < n && Candidate(ws, freq, i, k)
    && (forall j: nat, l: nat :: j < n && Fits(ws, freq, j, l) ==>
          && LoadAt(ws, i, k) <= LoadAt(ws, j, l)
          && (Before(j, l, i, k) ==> LoadAt(ws, i, k) < LoadAt(ws, j, l)))
  }

  /** The look at the first n workers. */
  function ScanWorkers(freq: real, baud: int, ws: seq<Worker>, n: nat): Adder
    requires n <= |ws|
  {
    if n == 0 then Adder(freq, baud, 0, None, NO_LOAD)
    else
      ScanBands(ScanWorkers(freq, baud, ws, n - 1), n - 1, ws[n - 1], |ws[n - 1].bands|).(next := n)
  }

  /** What it has found: nothing that may be taken, or the sub-band chosen. */
  ghost predicate Finds(r: Adder, ws: seq<Worker>, n: nat, i: nat, k: nat)
    requires n <= |ws|
  {
    if r.best.None? then
      r.load == NO_LOAD && forall j: nat, l: nat :: j < n ==> !Candidate(ws, r.freq, j, l)
    else
      Chosen(ws, r.freq, n, i, k) && r.best.value == Choice(i, ws[i].bands[k].key) && r.load == LoadAt(ws, i, k)
  }

  /** One worker more. */
  lemma FindsNext(r: Adder, ws: seq<Worker>, n: nat, i: nat, k: nat) returns (j: nat, l: nat)
    requires n < |ws| && Finds(r, ws, n, i, k)
    ensures var a := ScanBands(r, n, ws[n], |ws[n].bands|);
            a.freq == r.freq && a.baud == r.baud && Finds(a.(next := n + 1), ws, n + 1, j, l)
  {
    var w := ws[n];
    l := ScanIsLeast(r, n, w, |w.bands|);
    hide ScanBands, Covers, Load;
    var a := ScanBands(r, n, w, |w.bands|);
    if forall m :: 0 <= m < |w.bands| && Covers(w.bands[m].site, r.freq) ==> Load(w, w.bands[m]) >= r.load {
      j, l := i, k;
      assert a == r;
      forall m: nat | Fits(ws, r.freq, n, m) ensures LoadAt(ws, n, m) >= r.load {
        assert Covers(w.bands[m].site, r.freq);
      }
    } else {
      j := n;
      var m :| 0 <= m < |w.bands| && Covers(w.bands[m].site, r.freq) && Load(w, w.bands[m]) < r.load;
      assert LoadAt(ws, n, l) < r.load <= NO_LOAD;
      assert Candidate(ws, r.freq, n, l);
      forall j: nat, m: nat | j < n + 1 && Fits(ws, r.freq, j, m)
        ensures LoadAt(ws, n, l) <= LoadAt(ws, j, m) && (Before(j, m, n, l) ==> LoadAt(ws, n, l) < LoadAt(ws, j, m))
      {
        if j == n {
          assert Covers(w.bands[m].site, r.freq);
        } else {
          assert r.best.None? ==> !Candidate(ws, r.freq, j, m);
        }
      }
    }
  }

  /** It ends with the first sub-band of least load on all these workers, or with none if none may be
      taken. */
  lemma {:induction false} ScanChooses(freq: real, baud: int, ws: seq<Worker>, n: nat) returns (i: nat, k: nat)
    requires n <= |ws|
    ensures var r := ScanWorkers(freq, baud, ws, n);
            r.freq == freq && r.baud == baud && r.next == n && Finds(r, ws, n, i, k)
  {
    i, k := 0, 0;
    if n > 0 {
      i, k := ScanChooses(freq, baud, ws, n - 1);
      i, k := FindsNext(ScanWorkers(freq, baud, ws, n - 1), ws, n - 1, i, k);
    }
  }

  // ---------- the choice in terms of what a worker holds ----------

  /** The frequency lies within 0.40 of the sub-band's rate from its centre. */
  predicate Inside(b: Band, freq: real) {
    -0.40 * b.site.rate < freq - b.site.centre < 0.40 * b.site.rate
  }

  predicate Reaches(ws: seq<Worker>, freq: real, i: nat, k: nat) {
    i < |ws| && k < |ws[i].bands| && Inside(ws[i].bands[k], freq)
  }

  /** Fewer than four decoders. */
  predicate Free(ws: seq<Worker>, freq: real, i: nat, k: nat) {
    Reaches(ws, freq, i, k) && |ws[i].bands[k].decs| < 4
  }

  function Burden(w: Worker, k: nat): int
    requires k < |w.bands|
  {
    w.weight + 10 * |w.bands| + 8 * |w.bands[k].decs|
  }

  /** Four decoders or more, and a burden below the largest 32-bit integer. */
  predicate Bearable(ws: seq<Worker>, freq: real, i: nat, k: nat) {
    Reaches(ws, freq, i, k) && |ws[i].bands[k].decs| >= 4 && Burden(ws[i], k) < 0x7FFF_FFFF
  }

  /** The first of those with the fewest decoders. */
  ghost predicate FewestFree(ws: seq<Worker>, freq: real, i: nat, k: nat) {
    && Free(ws, freq, i, k)
    && forall j: nat, l: nat :: Free(ws, freq, j, l) ==>
         && |ws[i].bands[k].decs| <= |ws[j].bands[l].decs|
         && (Before(j, l, i, k) ==> |ws[i].bands[k].decs| < |ws[j].bands[l].decs|)
  }

  /** The first of those with the least burden. */
  ghost predicate LeastBearable(ws: seq<Worker>, freq: real, i: nat, k: nat) {
    && Bearable(ws, freq, i, k)
    && forall j: nat, l: nat :: Bearable(ws, freq, j, l) ==>
         && Burden(ws[i], k) <= Burden(ws[j], l)
         && (Before(j, l, i, k) ==> Burden(ws[i], k) < Burden(ws[j], l))
  }

  lemma CoversIsInside(b: Band, freq: real)
    ensures Covers(b.site, freq) <==> Inside(b, freq)
  {
  }

  lemma CandidateMeans(ws: seq<Worker>, freq: real, i: nat, k: nat)
    ensures Candidate(ws, freq, i, k) <==> Free(ws, freq, i, k) || Bearable(ws, freq, i, k)
    ensures Fits(ws, freq, i, k) <==> Reaches(ws, freq, i, k)
  {
  }

  lemma LoadMeans(ws: seq<Worker>, freq: real, i: nat, k: nat)
    requires i < |ws| && k < |ws[i].bands| && ws[i].weight >= 0
    ensures |ws[i].bands[k].decs| < 4 ==> LoadAt(ws, i, k) == |ws[i].bands[k].decs|
    ensures |ws[i].bands[k].decs| >= 4 ==> LoadAt(ws, i, k) == Burden(ws[i], k) > 3
  {
  }

  /** The sub-band chosen is the free one with the fewest decoders, or, if none is free, the one with the
      least burden. */
  lemma ChosenMeans(ws: seq<Worker>, freq: real, i: nat, k: nat)
    requires Chosen(ws, freq, |ws|, i, k) && forall j :: 0 <= j < |ws| ==> ws[j].weight >= 0
    ensures (exists j: nat, l: nat :: Free(ws, freq, j, l)) ==> FewestFree(ws, freq, i, k)
    ensures (forall j: nat, l: nat :: !Free(ws, freq, j, l)) ==> LeastBearable(ws, freq, i, k)
  {
    hide Load, Covers, Inside, Candidate;
    forall j: nat, l: nat
      ensures Fits(ws, freq, j, l) == Reaches(ws, freq, j, l)
      ensures Candidate(ws, freq, j, l) <==> Free(ws, freq, j, l) || Bearable(ws, freq, j, l)
    {
      CandidateMeans(ws, freq, j, l);
    }
    assert Fits(ws, freq, i, k);
    LoadMeans(ws, freq, i, k);
    hide LoadAt, Burden;
    if j: nat, l: nat :| Free(ws, freq, j, l) {
      LoadMeans(ws, freq, j, l);
    }
    forall j: nat, l: nat | Reaches(ws, freq, j, l)
      ensures |ws[j].bands[l].decs| < 4 ==> LoadAt(ws, j, l) == |ws[j].bands[l].decs|
      ensures |ws[j].bands[l].decs| >= 4 ==> LoadAt(ws, j, l) == Burden(ws[j], l)
      ensures LoadAt(ws, i, k) <= LoadAt(ws, j, l) && (Before(j, l, i, k) ==> LoadAt(ws, i, k) < LoadAt(ws, j, l))
    {
      LoadMeans(ws, freq, j, l);
      assert Fits(ws, freq, j, l);
    }
  }
}
