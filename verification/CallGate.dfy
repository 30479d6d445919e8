/** When a voice call starts and ends: the counters of matching and idle analysis passes, over whole
    runs of passes. */
module CallGate {

  /** The counters kept for a UE, and whether a call is running. */
  datatype Gate = Gate(voice_secs: nat, idle_secs: nat, call_active: bool)

  const QUIET: Gate := Gate(0, 0, false)

  datatype Event = Started | Ended

  /** One pass, matching or not: the counters, then at most one event. */
  function Step(g: Gate, matching: bool): (Gate, seq<Event>) {
    var c := if matching then g.(voice_secs := g.voice_secs + 1, idle_secs := 0) else g.(idle_secs := g.idle_secs + 1);
    if !c.call_active && c.voice_secs >= 3 then (c.(call_active := true), [Started])
    else if c.call_active && c.idle_secs >= 3 then (c.(call_active := false, voice_secs := 0), [Ended])
    else (c, [])
  }

  function After(passes: seq<bool>): Gate {
    if passes == [] then QUIET else Step(After(passes[..|passes| - 1]), passes[|passes| - 1]).0
  }

  function Events(passes: seq<bool>): seq<Event> {
    if passes == [] then []
    else
      var n := |passes| - 1;
      Events(passes[..n]) + Step(After(passes[..n]), passes[n]).1
  }

  /** The event of pass t, if there is one. */
  function EventAt(passes: seq<bool>, t: nat): seq<Event>
    requires t < |passes|
  {
    Step(After(passes[..t]), passes[t]).1
  }

  /** The number of passes up to the last event, that one included. */
  function LastEvent(passes: seq<bool>): (n: nat)
    ensures n <= |passes|
  {
    if passes == [] then 0
    else
      var n := |passes| - 1;
      if EventAt(passes, n) != [] then |passes| else LastEvent(passes[..n])
  }

  function Matches(passes: seq<bool>): nat {
    if passes == [] then 0 else Matches(passes[..|passes| - 1]) + if passes[|passes| - 1] then 1 else 0
  }

  /** How many passes at the end are idle, or matching, without a break. */
  function Run(passes: seq<bool>, matching: bool): (n: nat)
    ensures n <= |passes|
  {
    if passes == [] || passes[|passes| - 1] != matching then 0 else Run(passes[..|passes| - 1], matching) + 1
  }

  /** What the counters mean: without a call, the matching passes since the last event; during a call,
      the idle passes in a row since it started. Neither ever gets past two. */
  lemma {:induction false} CountersMean(passes: seq<bool>)
    ensures var g, since := After(passes), passes[LastEvent(passes)..];
            && (!g.call_active ==> g.voice_secs == Matches(since) < 3)
            && (g.call_active ==> g.idle_secs == Run(since, false) < 3)
  {
    if passes != [] {
      var n, k := |passes| - 1, LastEvent(passes);
      CountersMean(passes[..n]);
      if EventAt(passes, n) != [] {
        assert passes[k..] == [];
      } else {
        assert passes[k..][..n - k] == passes[..n][k..];
      }
    }
  }

  /** A call starts with the third matching pass since the last event, and ends with the third idle pass
      in a row: exactly then. */
  lemma EventsExactly(passes: seq<bool>, x: bool)
    ensures var g, since := After(passes), passes[LastEvent(passes)..];
            && (EventAt(passes + [x], |passes|) == [Started] <==> !g.call_active && x && Matches(since) == 2)
            && (EventAt(passes + [x], |passes|) == [Ended] <==> g.call_active && !x && Run(since, false) == 2)
            && (EventAt(passes + [x], |passes|) == [] || EventAt(passes + [x], |passes|) == [Started]
                || EventAt(passes + [x], |passes|) == [Ended])
  {
    CountersMean(passes);
    assert (passes + [x])[..|passes|] == passes;
  }

  function Due(n: nat): Event {
    if n % 2 == 0 then Started else Ended
  }

  predicate Alternating(events: seq<Event>) {
    forall i :: 0 <= i < |events| ==> events[i] == Due(i)
  }

  lemma StepIsDue(g: Gate, x: bool, n: nat)
    requires g.call_active <==> n % 2 == 1
    ensures var s := Step(g, x);
            && (s.1 == [] || s.1 == [Due(n)])
            && (s.0.call_active <==> (n + |s.1|) % 2 == 1)
  {
  }

  /** Starts and ends alternate, beginning with a start; a call runs exactly after an odd number. */
  lemma {:induction false} EventsAlternate(passes: seq<bool>)
    ensures Alternating(Events(passes))
    ensures After(passes).call_active <==> |Events(passes)| % 2 == 1
  {
    hide Due, Step;
    if passes != [] {
      var n := |passes| - 1;
      EventsAlternate(passes[..n]);
      StepIsDue(After(passes[..n]), passes[n], |Events(passes[..n])|);
    }
  }

  // ---------- consecutive or not ----------

  /** The pass that makes the difference: an idle one while matching passes have been counted, unless it
      ends a call and so resets the count. */
  predicate Lapse(g: Gate, matching: bool) {
    !matching && g.voice_secs > 0 && !(g.call_active && g.idle_secs == 2)
  }

  predicate LapsesAt(passes: seq<bool>, t: nat)
    requires t < |passes|
  {
    Lapse(After(passes[..t]), passes[t])
  }

  /** `voice_secs` is the number of consecutive matching passes, as it is documented to be. */
  predicate CountsRun(passes: seq<bool>) {
    After(passes).voice_secs == Run(passes, true)
  }

  /** The number of passes up to the last end of a call, that one included. */
  function LastEnd(passes: seq<bool>): (n: nat)
    ensures n <= |passes|
  {
    if passes == [] then 0
    else
      var n := |passes| - 1;
      if EventAt(passes, n) == [Ended] then |passes| else LastEnd(passes[..n])
  }

  /** Pass by pass: it is so exactly if there has been no lapse since a call last ended. */
  lemma {:induction false} ConsecutiveUntilLapse(passes: seq<bool>)
    ensures CountsRun(passes) <==> forall t :: LastEnd(passes) <= t < |passes| ==> !LapsesAt(passes, t)
    ensures After(passes).voice_secs >= Run(passes, true)
  {
    hide Step, Lapse;
    if passes != [] {
      var n := |passes| - 1;
      ConsecutiveUntilLapse(passes[..n]);
      forall t | 0 <= t < n ensures LapsesAt(passes[..n], t) == LapsesAt(passes, t) {
        assert passes[..n][..t] == passes[..t];
      }
      CountersMean(passes[..n]);
      assert LapsesAt(passes, n) == Lapse(After(passes[..n]), passes[n]);
      LapseStep(After(passes[..n]), passes[n], Run(passes[..n], true));
    }
  }

  /** One pass more: the end of a call puts the count right, a lapse puts it wrong, and nothing else
      changes whether it is. */
  lemma LapseStep(g: Gate, x: bool, run: nat)
    requires g.voice_secs >= run && (g.call_active ==> g.idle_secs < 3)
    ensures var s, now := Step(g, x), if x then run + 1 else 0;
            && s.0.voice_secs >= now
            && (s.1 == [Ended] ==> s.0.voice_secs == now)
            && (s.1 != [Ended] ==> (s.0.voice_secs == now <==> g.voice_secs == run && !Lapse(g, x)))
  {
  }

  function Idle(n: nat): (p: seq<bool>)
    ensures |p| == n
  {
    seq(n, _ => false)
  }

  lemma PassesAppend(passes: seq<bool>, x: bool)
    ensures After(passes + [x]) == Step(After(passes), x).0
    ensures Events(passes + [x]) == Events(passes) + Step(After(passes), x).1
  {
    assert (passes + [x])[..|passes|] == passes;
  }

  lemma {:induction false} IdleKeeps(passes: seq<bool>, n: nat)
    requires !After(passes).call_active
    ensures var g := After(passes);
            && After(passes + Idle(n)) == Gate(g.voice_secs, g.idle_secs + n, false)
            && Events(passes + Idle(n)) == Events(passes)
  {
    if n == 0 {
      assert passes + Idle(0) == passes;
    } else {
      IdleKeeps(passes, n - 1);
      CountersMean(passes + Idle(n - 1));
      assert passes + Idle(n) == (passes + Idle(n - 1)) + [false];
      PassesAppend(passes + Idle(n - 1), false);
    }
  }

  /** So three matching passes, however far apart, are enough to start a call. */
  lemma ScatteredMatchesStartACall(a: nat, b: nat)
    ensures Events([true] + Idle(a) + [true] + Idle(b) + [true]) == [Started]
  {
    var p := [true] + Idle(a);
    var q := p + [true] + Idle(b);
    PassesAppend([], true);
    assert [] + [true] == [true];
    IdleKeeps([true], a);
    PassesAppend(p, true);
    IdleKeeps(p + [true], b);
    PassesAppend(q, true);
  }
}
