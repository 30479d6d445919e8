/** Many decoders at one frequency: where they go when one thread adds them, and what another can cause. */
module OneFrequency {
  import opened Options
  import opened ManagerSteps
  import opened ManagerInvariant
  import opened BandChoice
  import opened DecoderManager

  /** An undisturbed thread adds m decoders, one after the other. */
  function Repeated(s: State, freq: real, baud: int, rate: real, m: nat): State {
    if m == 0 then s
    else
      var t := Repeated(s, freq, baud, rate, m - 1);
      if t.workers == [] then t else Execute(t, Adding(t.nextId, freq, baud, t.workers, rate))
  }

  lemma {:induction false} RunOn(s: State, a: seq<Action>, b: seq<Action>)
    ensures Execute(s, a + b) == Execute(Execute(s, a), b)
  {
    hide Next, Enabled;
    if b == [] {
      assert a + b == a;
    } else {
      RunOn(s, a, b[..|b| - 1]);
      assert (a + b)[..|a + b| - 1] == a + b[..|b| - 1];
    }
  }

  /** That too is a sequence of steps. */
  lemma {:induction false} RepeatedIsRun(s: State, freq: real, baud: int, rate: real, m: nat)
    returns (actions: seq<Action>)
    ensures Execute(s, actions) == Repeated(s, freq, baud, rate, m)
  {
    hide Next, Enabled, Adding;
    actions := [];
    if m > 0 {
      actions := RepeatedIsRun(s, freq, baud, rate, m - 1);
      var t := Repeated(s, freq, baud, rate, m - 1);
      if t.workers != [] {
        RunOn(s, actions, Adding(t.nextId, freq, baud, t.workers, rate));
        actions := actions + Adding(t.nextId, freq, baud, t.workers, rate);
      }
    }
  }

  ghost predicate Idle(ws: seq<Worker>) {
    ws != [] && forall i :: 0 <= i < |ws| ==> ws[i].bands == [] && ws[i].weight == 0
  }

  /** One sub-band on worker 0 has them all, and nothing else has changed. */
  ghost predicate AllInOne(s: State, t: State, freq: real, baud: int, rate: real, m: nat) {
    && |t.workers| == |s.workers| > 0 && t.workers[1..] == s.workers[1..]
    && var w := t.workers[0];
    && |w.bands| == 1 && w.bands[0].site == Site(freq, rate) && |w.bands[0].decs| == m
    && w.weight == m * DecoderWeight(baud)
    && t.places == s.places + [Site(freq, rate)] && t.adders == s.adders && t.nextId == s.nextId + m
  }

  lemma IdleHasNone(ws: seq<Worker>, freq: real)
    requires Idle(ws)
    ensures Lightest(ws) == 0 && forall i: nat, k: nat :: !Candidate(ws, freq, i, k)
  {
    assert Effective(ws[0]) == 0 && Effective(ws[Lightest(ws)]) == 0;
  }

  /** The first one gets a sub-band of its own. */
  lemma FirstOfMany(s: State, freq: real, baud: int, rate: real)
    requires Invariant(s) && Idle(s.workers) && rate > 0.0
    ensures AllInOne(s, Execute(s, Adding(s.nextId, freq, baud, s.workers, rate)), freq, baud, rate, 1)
  {
    hide Invariant, Execute, Adding, Candidate, Lightest;
    AddingChooses(s, freq, baud, rate);
    IdleHasNone(s.workers, freq);
  }

  /** And every other one joins it, overloaded or not, up to a load that no machine will see. */
  lemma NextOfMany(s: State, t: State, freq: real, baud: int, rate: real, m: nat)
    requires Invariant(t) && Idle(s.workers) && rate > 0.0 && 11 * m + 11 < NO_LOAD
    requires AllInOne(s, t, freq, baud, rate, m)
    ensures AllInOne(s, Execute(t, Adding(t.nextId, freq, baud, t.workers, rate)), freq, baud, rate, m + 1)
  {
    hide Invariant, Execute, Adding, Lightest;
    var ws := t.workers;
    AddingChooses(t, freq, baud, rate);
    OnlyOne(s, t, freq, baud, rate, m);
    var d := Dec(t.nextId, baud, freq, freq);
    var i: nat, k: nat :| Chosen(ws, freq, |ws|, i, k)
                          && Execute(t, Adding(t.nextId, freq, baud, ws, rate)).workers == ws[i := Placed(ws[i], k, d)];
    assert Candidate(ws, freq, i, k);
    assert i == 0 && k == 0;
    hide Chosen, Candidate;
    WeightOfOneMore(m, DecoderWeight(baud));
  }

  lemma WeightOfOneMore(m: nat, w: nat)
    ensures (m + 1) * w == m * w + w
  {
  }

  lemma OnlyOne(s: State, t: State, freq: real, baud: int, rate: real, m: nat)
    requires Idle(s.workers) && rate > 0.0 && 11 * m + 11 < NO_LOAD
    requires AllInOne(s, t, freq, baud, rate, m)
    ensures Candidate(t.workers, freq, 0, 0)
    ensures forall i: nat, k: nat :: Candidate(t.workers, freq, i, k) ==> i == 0 && k == 0
  {
    var ws, w := t.workers, t.workers[0];
    assert Covers(w.bands[0].site, freq);
    assert m * DecoderWeight(baud) <= 3 * m;
    forall i | 0 < i < |ws| ensures ws[i].bands == [] {
      assert ws[i] == ws[1..][i - 1] && s.workers[i] == s.workers[1..][i - 1];
    }
  }

  /** One thread alone never makes a second sub-band for one frequency: however many decoders there are, and
      although other workers are idle, all go into the first. */
  lemma {:induction false} AllGoIntoOne(s: State, freq: real, baud: int, rate: real, m: nat)
    requires Invariant(s) && Idle(s.workers) && rate > 0.0 && 0 < m && 11 * m < NO_LOAD
    ensures var t := Repeated(s, freq, baud, rate, m); Invariant(t) && AllInOne(s, t, freq, baud, rate, m)
  {
    hide Invariant, Execute, Adding, Idle;
    var before := Repeated(s, freq, baud, rate, m - 1);
    if m == 1 {
      SomeWorker(s.workers);
      FirstOfMany(s, freq, baud, rate);
    } else {
      AllGoIntoOne(s, freq, baud, rate, m - 1);
      NextOfMany(s, before, freq, baud, rate, m - 1);
    }
    InvariantKept(before, Adding(before.nextId, freq, baud, before.workers, rate));
  }

  lemma SomeWorker(ws: seq<Worker>)
    requires Idle(ws)
    ensures ws != []
  {
  }

  /** For instance: a fifth decoder joins the overloaded sub-band of four, and the second worker stays idle. */
  lemma FifthJoinsFour(freq: real, baud: int, rate: real)
    requires rate > 0.0
    ensures var four, five := Repeated(Started(2), freq, baud, rate, 4), Repeated(Started(2), freq, baud, rate, 5);
            && AllInOne(Started(2), four, freq, baud, rate, 4) && AllInOne(Started(2), five, freq, baud, rate, 5)
            && |four.workers| == |five.workers| == 2 && four.workers[1] == five.workers[1] == IDLE_WORKER
  {
    hide Repeated, Invariant;
    var s := Started(2);
    StartedOk(2);
    assert s.workers == [IDLE_WORKER, IDLE_WORKER];
    AllGoIntoOne(s, freq, baud, rate, 4);
    AllGoIntoOne(s, freq, baud, rate, 5);
    SecondIdle(s, Repeated(s, freq, baud, rate, 4), freq, baud, rate, 4);
    SecondIdle(s, Repeated(s, freq, baud, rate, 5), freq, baud, rate, 5);
  }

  lemma SecondIdle(s: State, t: State, freq: real, baud: int, rate: real, m: nat)
    requires AllInOne(s, t, freq, baud, rate, m) && s.workers == [IDLE_WORKER, IDLE_WORKER]
    ensures |t.workers| == 2 && t.workers[1] == IDLE_WORKER
  {
    assert t.workers[1] == t.workers[1..][0] && s.workers[1] == s.workers[1..][0];
  }

  /** Between threads it is otherwise: one that has looked before the others began makes a second sub-band for
      the frequency, beside one with any number of decoders. */
  lemma LateThreadMakesSecond(freq: real, baud: int, rate: real, m: nat) returns (actions: seq<Action>)
    requires rate > 0.0 && 0 < m && 11 * m < NO_LOAD
    ensures var w := Execute(Started(1), actions).workers;
            && |w| == 1 && |w[0].bands| == 2 && |w[0].bands[0].decs| == m
            && Covers(w[0].bands[0].site, freq) && Covers(w[0].bands[1].site, freq)
  {
    hide Execute, BeginScan, Repeated, Invariant, AllInOne;
    var s0, look := Started(1), BeginScan(1, freq, baud, 1);
    var s := LookedTooEarly(freq, baud);
    AllGoIntoOne(s, freq, baud, rate, m);
    var t := Repeated(s, freq, baud, rate, m);
    var others := RepeatedIsRun(s, freq, baud, rate, m);
    RunOn(s0, look, others);
    OneWorkerLeft(s, t, freq, baud, rate, m);
    SameSizes(t);
    actions := look + others + [Create(1, 0, rate)];
    ExecuteOne(s0, look + others, Create(1, 0, rate));
    CreateIs(t, 1, 0, rate);
  }

  lemma OneWorkerLeft(s: State, t: State, freq: real, baud: int, rate: real, m: nat)
    requires AllInOne(s, t, freq, baud, rate, m) && |s.workers| == 1 && rate > 0.0
    ensures |t.workers| == 1 && |t.workers[0].bands| == 1 && |t.workers[0].bands[0].decs| == m
    ensures t.workers[0].bands[0].site == Site(freq, rate) && Covers(Site(freq, rate), freq) && t.adders == s.adders
  {
  }

  /** A thread has been given identifier 1, has looked at the one worker there is, and found nothing. */
  lemma LookedTooEarly(freq: real, baud: int) returns (s: State)
    ensures s == Execute(Started(1), BeginScan(1, freq, baud, 1)) && Invariant(s) && Idle(s.workers) && |s.workers| == 1
    ensures 1 in s.adders && s.adders[1].next == 1 && s.adders[1].best.None? && s.adders[1].freq == freq
  {
    hide Execute, BeginScan, Invariant, Held;
    var s0 := Started(1);
    StartedOk(1);
    assert s0.workers == [IDLE_WORKER];
    ScanKeeps(s0, freq, baud, 1);
    InvariantKept(s0, BeginScan(1, freq, baud, 1));
    var i, k := ScanChooses(freq, baud, s0.workers, 1);
    IdleHasNone(s0.workers, freq);
    s := Execute(s0, BeginScan(1, freq, baud, 1));
  }
}
