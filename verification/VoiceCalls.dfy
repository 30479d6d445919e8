/** Voice calls detected from the cadence of downlink grants: the verdict on a window, and the log of
    calls over all UEs. */
module VoiceCalls {
  import opened GrantWindow
  import opened CallGate

  // ---------- the verdict on one window ----------

  /** Whether the window looks like speech, sparse speech, and the share best / n of grants in cadence. */
  datatype Verdict = Verdict(voice_now: bool, sps: bool, best: nat, n: nat)

  function TotalSize(grants: seq<Grant>): nat {
    if grants == [] then 0 else TotalSize(grants[..|grants| - 1]) + grants[|grants| - 1].size
  }

  /** How many grants are smaller than v. */
  function Below(grants: seq<Grant>, v: nat): (n: nat)
    ensures n <= |grants|
  {
    if grants == [] then 0
    else Below(grants[..|grants| - 1], v) + if grants[|grants| - 1].size < v then 1 else 0
  }

  /** The upper median of the sizes is from 15 to 250. */
  predicate SizeOk(grants: seq<Grant>) {
    Below(grants, 15) <= |grants| / 2 < Below(grants, 251)
  }

  /** More than 200 ms, and from 2000 to 64000 bits per second over them. */
  predicate RateOk(grants: seq<Grant>)
    requires grants != []
  {
    var span := grants[|grants| - 1].ms - grants[0].ms;
    span > 200 && 2000 * span <= 8000 * TotalSize(grants) <= 64000 * span
  }

  ghost function Best(grants: seq<Grant>): nat {
    var a, b := Cadence(Times(grants), 20), Cadence(Times(grants), 40);
    if a < b then b else a
  }

  /** From 30 grants on, three quarters must be in cadence; of 8 to 29, nine tenths. */
  ghost function Judge(grants: seq<Grant>): Verdict {
    var n := |grants|;
    if n < 8 then Verdict(false, false, 0, n)
    else
      var best := Best(grants);
      var share := if n >= 30 then 4 * best >= 3 * n else 10 * best >= 9 * n;
      var voice := share && SizeOk(grants) && RateOk(grants);
      Verdict(voice, voice && n < 30, best, n)
  }

  lemma {:induction false} BelowGrows(grants: seq<Grant>, u: nat, v: nat)
    requires u <= v
    ensures Below(grants, u) <= Below(grants, v)
  {
    if grants != [] {
      BelowGrows(grants[..|grants| - 1], u, v);
    }
  }

  lemma {:induction false} BelowAll(grants: seq<Grant>, v: nat)
    requires forall i :: 0 <= i < |grants| ==> grants[i].size < v
    ensures Below(grants, v) == |grants|
  {
    if grants != [] {
      BelowAll(grants[..|grants| - 1], v);
    }
  }

  lemma {:induction false} BelowNone(grants: seq<Grant>)
    ensures Below(grants, 0) == 0
  {
    if grants != [] {
      BelowNone(grants[..|grants| - 1]);
    }
  }

  /** std::nth_element: the size of rank k. */
  method NthSize(grants: seq<Grant>, k: nat) returns (v: nat)
    requires k < |grants| && forall i :: 0 <= i < |grants| ==> grants[i].size <= 65535
    ensures Below(grants, v) <= k < Below(grants, v + 1)
  {
    BelowNone(grants);
    BelowAll(grants, 65536);
    v := 0;
    while Below(grants, v + 1) <= k
      invariant v <= 65535 && Below(grants, v) <= k
      decreases 65536 - v
    {
      v := v + 1;
    }
  }

  method SumSizes(grants: seq<Grant>) returns (total: nat)
    ensures total == TotalSize(grants)
  {
    total := 0;
    for i := 0 to |grants|
      invariant total == TotalSize(grants[..i])
    {
      assert grants[..i + 1][..i] == grants[..i];
      total := total + grants[i].size;
    }
    assert grants[..|grants|] == grants;
  }

  method Analyzed(grants: seq<Grant>) returns (v: Verdict)
    requires Sorted(grants) && forall i :: 0 <= i < |grants| ==> grants[i].size <= 65535
    ensures v == Judge(grants)
  {
    hide Below, TotalSize, Cadence;
    var n := |grants|;
    if n < 8 {
      return Verdict(false, false, 0, n);
    }
    var times := Times(grants);
    var a := MatchCount(times, 20);
    var b := MatchCount(times, 40);
    var best := if a < b then b else a;
    var med := NthSize(grants, n / 2);
    MedianBounds(grants, med);
    var sizeok := 15 <= med <= 250;
    var totbytes := SumSizes(grants);
    var span := times[n - 1] - times[0];
    var brok := span > 200 && 2000 * span <= 8000 * totbytes <= 64000 * span;
    if n >= 30 && 4 * best >= 3 * n && sizeok && brok {
      return Verdict(true, false, best, n);
    } else if n < 30 && 10 * best >= 9 * n && sizeok && brok {
      return Verdict(true, true, best, n);
    }
    return Verdict(false, false, best, n);
  }

  lemma MedianBounds(grants: seq<Grant>, med: nat)
    requires Below(grants, med) <= |grants| / 2 < Below(grants, med + 1)
    ensures 15 <= med <= 250 <==> SizeOk(grants)
  {
    if med < 15 { BelowGrows(grants, med + 1, 15); } else { BelowGrows(grants, 15, med); }
    if med <= 250 { BelowGrows(grants, med + 1, 251); } else { BelowGrows(grants, 251, med); }
  }

  // ---------- all UEs ----------

  datatype Track = Track(timing: Timing, gate: Gate, call_sps: bool, call_start_ms: nat)

  datatype Ue = Ue(voice: bool, best: nat, n: nat, call_start_ms: nat)

  datatype CallEvent = CallEvent(ts_ms: nat, rnti: nat, started: bool, sps: bool, duration_ms: int)

  const NEW_TRACK: Track := Track(NO_TIMING, QUIET, false, 0)

  const NEW_UE: Ue := Ue(false, 0, 1, 0)

  /** The events of one UE. */
  function EventsOf(log: seq<CallEvent>, rnti: nat): seq<Event> {
    if log == [] then []
    else
      var n := |log| - 1;
      EventsOf(log[..n], rnti) +
        if log[n].rnti == rnti then [if log[n].started then Started else Ended] else []
  }

  /** The log entries of one UE. */
  function EntriesOf(log: seq<CallEvent>, rnti: nat): seq<CallEvent> {
    if log == [] then []
    else
      var n := |log| - 1;
      EntriesOf(log[..n], rnti) + if log[n].rnti == rnti then [log[n]] else []
  }

  lemma {:induction false} EntriesAreEvents(log: seq<CallEvent>, rnti: nat)
    ensures |EntriesOf(log, rnti)| == |EventsOf(log, rnti)|
    ensures forall i :: 0 <= i < |EntriesOf(log, rnti)| ==>
              EventsOf(log, rnti)[i] == if EntriesOf(log, rnti)[i].started then Started else Ended
  {
    if log != [] {
      EntriesAreEvents(log[..|log| - 1], rnti);
    }
  }

  /** The entries of a UE, two by two: an end is of the kind of the call that started before it, and lasted
      since then. While a call is running, the track knows when it started and its kind. */
  ghost predicate Timed(t: Track, entries: seq<CallEvent>) {
    && (forall i :: 1 <= i < |entries| && i % 2 == 1 ==>
          && entries[i].sps == entries[i - 1].sps
          && entries[i].duration_ms == entries[i].ts_ms - entries[i - 1].ts_ms)
    && (t.gate.call_active ==>
          && entries != [] && entries[|entries| - 1].ts_ms == t.call_start_ms
          && entries[|entries| - 1].sps == t.call_sps)
  }

  function Newest(log: seq<CallEvent>, n: nat): seq<CallEvent> {
    if |log| <= n then log else log[|log| - n..]
  }

  lemma NewestMeans(log: seq<CallEvent>)
    ensures var kept := Newest(log, 200);
            |kept| == (if |log| < 200 then |log| else 200) && kept == log[|log| - |kept|..]
  {
  }

  lemma SuffixAppended(log: seq<CallEvent>, kept: seq<CallEvent>, more: seq<CallEvent>)
    requires |kept| <= |log| && kept == log[|log| - |kept|..]
    ensures kept + more == (log + more)[|log| - |kept|..]
  {
  }

  lemma SuffixShortened(log: seq<CallEvent>, kept: seq<CallEvent>)
    requires 0 < |kept| <= |log| && kept == log[|log| - |kept|..]
    ensures kept[1..] == log[|log| - |kept[1..]|..]
  {
  }

  lemma SuffixIsNewest(log: seq<CallEvent>, kept: seq<CallEvent>)
    requires |kept| <= |log| && kept == log[|log| - |kept|..]
    requires |kept| <= 200 && (|kept| == 200 || kept == log)
    ensures kept == Newest(log, 200)
  {
  }

  /** A track is what its UE has been heard and judged to do. */
  ghost predicate Reflects(t: Track, heard: seq<Report>, passes: seq<bool>) {
    Tracks(t.timing, heard) && t.gate == After(passes)
  }

  /** What one verdict puts into the log. */
  function Logged(now: nat, rnti: nat, t: Track, v: Verdict): (more: seq<CallEvent>)
    ensures |more| <= 1
  {
    var e := Step(t.gate, v.voice_now).1;
    if e == [Started] then [CallEvent(now, rnti, true, v.sps, 0)]
    else if e == [Ended] then [CallEvent(now, rnti, false, t.call_sps, now - t.call_start_ms)]
    else []
  }

  /** What one verdict makes of a track. */
  function Sustained(t: Track, v: Verdict, now: nat): Track {
    var s := Step(t.gate, v.voice_now);
    if s.1 == [Started] then Track(t.timing, s.0, v.sps, now) else t.(gate := s.0)
  }

  lemma LoggedIsEntry(now: nat, rnti: nat, t: Track, v: Verdict, k: nat)
    ensures EntriesOf(Logged(now, rnti, t, v), k) == if k == rnti then Logged(now, rnti, t, v) else []
  {
  }

  lemma TimedNext(t: Track, entries: seq<CallEvent>, now: nat, rnti: nat, v: Verdict)
    requires Timed(t, entries) && (t.gate.call_active <==> |entries| % 2 == 1)
    ensures Timed(Sustained(t, v, now), entries + Logged(now, rnti, t, v))
  {
    var more := Logged(now, rnti, t, v);
    if more == [] {
      assert entries + [] == entries;
    } else {
      assert (entries + more)[..|entries|] == entries;
    }
  }

  lemma LoggedIsEvent(now: nat, rnti: nat, t: Track, v: Verdict, k: nat)
    ensures EventsOf(Logged(now, rnti, t, v), k) == if k == rnti then Step(t.gate, v.voice_now).1 else []
  {
  }

  /** The window is judged after one more look for what is too old. */
  method JudgeTrack(t: Track, ghost heard: seq<Report>) returns (v: Verdict)
    requires Tracks(t.timing, heard)
    ensures v == Judge(t.timing.grants)
  {
    hide Judge, Tracks, Sorted, IsDropped;
    WindowIsSorted(t.timing, heard);
    SizesFit(t.timing, heard);
    var grants := DropOld(t.timing.grants, t.timing.abs_ms);
    NothingDropped(t.timing, heard, grants);
    v := Analyzed(grants);
  }

  lemma SizesFit(t: Timing, heard: seq<Report>)
    requires Tracks(t, heard)
    ensures forall i :: 0 <= i < |t.grants| ==> t.grants[i].size <= 65535
  {
    SizesFitAll(heard);
  }

  lemma {:induction false} SizesFitAll(heard: seq<Report>)
    ensures forall i :: 0 <= i < |heard| ==> Unwrapped(heard)[i].size <= 65535
  {
    if heard != [] {
      SizesFitAll(heard[..|heard| - 1]);
    }
  }

  /** The sustain gates. */
  method Sustain(vt: Track, v: Verdict, rnti: nat, now: nat) returns (t: Track, more: seq<CallEvent>)
    ensures t == Sustained(vt, v, now) && more == Logged(now, rnti, vt, v)
  {
    t, more := vt, [];
    var g := vt.gate;
    if v.voice_now {
      g := g.(voice_secs := g.voice_secs + 1, idle_secs := 0);
    } else {
      g := g.(idle_secs := g.idle_secs + 1);
    }
    if !g.call_active && g.voice_secs >= 3 {
      g := g.(call_active := true);
      t := t.(call_sps := v.sps, call_start_ms := now);
      more := [CallEvent(now, rnti, true, v.sps, 0)];
    } else if g.call_active && g.idle_secs >= 3 {
      g := g.(call_active := false);
      more := [CallEvent(now, rnti, false, t.call_sps, now - t.call_start_ms)];
      g := g.(voice_secs := 0);
    }
    t := t.(gate := g);
  }

  /** What is known of all UEs, together with what led to it. */
  datatype Ledger = Ledger(ues: map<nat, Ue>, vtrack: map<nat, Track>,
                           heard: map<nat, seq<Report>>, passes: map<nat, seq<bool>>, events: seq<CallEvent>)
  {
    ghost predicate Agrees(r: nat) {
      if r in vtrack then
        && r in ues && r in heard && r in passes
        && Reflects(vtrack[r], heard[r], passes[r])
        && ues[r].voice == vtrack[r].gate.call_active
        && EventsOf(events, r) == Events(passes[r])
        && Timed(vtrack[r], EntriesOf(events, r))
      else
        r !in heard && r !in passes && (r in ues ==> !ues[r].voice) && EventsOf(events, r) == []
    }

    ghost predicate Consistent() {
      forall r: nat :: Agrees(r)
    }
  }

  lemma LedgerHeard(l: Ledger, rnti: nat, t: Track, h: seq<Report>, p: seq<bool>)
    requires l.Consistent() && Reflects(t, h, p)
    requires p == if rnti in l.passes then l.passes[rnti] else []
    requires var vt := if rnti in l.vtrack then l.vtrack[rnti] else NEW_TRACK; t == vt.(timing := t.timing)
    ensures var u := if rnti in l.ues then l.ues[rnti] else NEW_UE;
            Ledger(l.ues[rnti := u], l.vtrack[rnti := t], l.heard[rnti := h], l.passes[rnti := p],
                l.events).Consistent()
  {
    hide Reflects, EventsOf, EntriesOf, Timed, Ledger.Agrees;
    var u := if rnti in l.ues then l.ues[rnti] else NEW_UE;
    var m := Ledger(l.ues[rnti := u], l.vtrack[rnti := t], l.heard[rnti := h], l.passes[rnti := p], l.events);
    forall k: nat ensures m.Agrees(k) {
      assert l.Agrees(k);
      if k == rnti { HeardAgrees(l, m, rnti, t, h, p, u); } else { OtherAgrees(l, m, k); }
    }
  }

  /** What led to the track that the next grant finds or makes. */
  lemma Known(l: Ledger, rnti: nat) returns (h: seq<Report>, p: seq<bool>)
    requires l.Consistent()
    ensures h == if rnti in l.heard then l.heard[rnti] else []
    ensures p == if rnti in l.passes then l.passes[rnti] else []
    ensures var vt := if rnti in l.vtrack then l.vtrack[rnti] else NEW_TRACK;
            Reflects(vt, h, p) && Tracks(vt.timing, h)
  {
    assert l.Agrees(rnti);
    h := if rnti in l.heard then l.heard[rnti] else [];
    p := if rnti in l.passes then l.passes[rnti] else [];
    NothingTracked();
  }

  lemma Heard(l: Ledger, rnti: nat, h: seq<Report>, p: seq<bool>, timing: Timing, r: Report)
    requires var vt := if rnti in l.vtrack then l.vtrack[rnti] else NEW_TRACK; Reflects(vt, h, p)
    requires Tracks(timing, h + [r])
    ensures var vt := if rnti in l.vtrack then l.vtrack[rnti] else NEW_TRACK;
            Reflects(vt.(timing := timing), h + [r], p)
  {
    hide Tracks;
  }

  lemma HeardAgrees(l: Ledger, m: Ledger, rnti: nat, t: Track, h: seq<Report>, p: seq<bool>, u: Ue)
    requires l.Agrees(rnti) && Reflects(t, h, p)
    requires p == if rnti in l.passes then l.passes[rnti] else []
    requires var vt := if rnti in l.vtrack then l.vtrack[rnti] else NEW_TRACK; t == vt.(timing := t.timing)
    requires u == if rnti in l.ues then l.ues[rnti] else NEW_UE
    requires m == Ledger(l.ues[rnti := u], l.vtrack[rnti := t], l.heard[rnti := h], l.passes[rnti := p], l.events)
    ensures m.Agrees(rnti)
  {
    EntriesAreEvents(l.events, rnti);
  }

  lemma OtherAgrees(l: Ledger, m: Ledger, k: nat)
    requires l.Agrees(k)
    requires k in m.ues <==> k in l.ues
    requires k in m.vtrack <==> k in l.vtrack
    requires k in m.heard <==> k in l.heard
    requires k in m.passes <==> k in l.passes
    requires k in l.ues ==> m.ues[k].voice == l.ues[k].voice
    requires k in l.vtrack ==> m.vtrack[k] == l.vtrack[k]
    requires k in l.heard ==> m.heard[k] == l.heard[k]
    requires k in l.passes ==> m.passes[k] == l.passes[k]
    requires EventsOf(m.events, k) == EventsOf(l.events, k) && EntriesOf(m.events, k) == EntriesOf(l.events, k)
    ensures m.Agrees(k)
  {
    hide Reflects, EventsOf, Events, EntriesOf, Timed;
  }

  lemma LedgerJudged(l: Ledger, rnti: nat, u: Ue, now: nat, v: Verdict)
    requires l.Consistent() && rnti in l.vtrack && rnti in l.passes
    requires u.voice == Sustained(l.vtrack[rnti], v, now).gate.call_active
    ensures Ledger(l.ues[rnti := u], l.vtrack[rnti := Sustained(l.vtrack[rnti], v, now)], l.heard,
                   l.passes[rnti := l.passes[rnti] + [v.voice_now]],
                   l.events + Logged(now, rnti, l.vtrack[rnti], v)).Consistent()
  {
    hide Reflects, EventsOf, EntriesOf, Timed, Events, Ledger.Agrees, Step, Logged, Sustained;
    var t := Sustained(l.vtrack[rnti], v, now);
    var p, more := l.passes[rnti] + [v.voice_now], Logged(now, rnti, l.vtrack[rnti], v);
    var m := Ledger(l.ues[rnti := u], l.vtrack[rnti := t], l.heard, l.passes[rnti := p], l.events + more);
    forall k: nat ensures m.Agrees(k) {
      assert l.Agrees(k);
      EventsAppended(l.events, more, k);
      LoggedIsEvent(now, rnti, l.vtrack[rnti], v, k);
      LoggedIsEntry(now, rnti, l.vtrack[rnti], v, k);
      if k == rnti {
        JudgedAgrees(l, m, rnti, now, v);
      } else {
        assert EventsOf(l.events, k) + [] == EventsOf(l.events, k);
        assert EntriesOf(l.events, k) + [] == EntriesOf(l.events, k);
        OtherAgrees(l, m, k);
      }
    }
  }

  /** A UE without a track changes nothing, as long as it is not marked. */
  lemma UeAdded(l: Ledger, m: Ledger, rnti: nat, u: Ue)
    requires l.Consistent() && m.vtrack == l.vtrack && m.heard == l.heard && m.passes == l.passes
        && m.events == l.events
    requires m.ues == l.ues || (rnti !in l.vtrack && !u.voice && m.ues == l.ues[rnti := u])
    ensures m.Consistent()
  {
    hide Reflects, EventsOf, Events;
    forall k: nat ensures m.Agrees(k) {
      assert l.Agrees(k);
    }
  }

  lemma JudgedAgrees(l: Ledger, m: Ledger, rnti: nat, now: nat, v: Verdict)
    requires l.Agrees(rnti) && rnti in l.vtrack
    requires rnti in m.vtrack && m.vtrack[rnti] == Sustained(l.vtrack[rnti], v, now) && m.heard == l.heard
    requires rnti in m.ues && m.ues[rnti].voice == m.vtrack[rnti].gate.call_active
    requires rnti in m.passes && m.passes[rnti] == l.passes[rnti] + [v.voice_now]
    requires EventsOf(m.events, rnti) == EventsOf(l.events, rnti) + Step(l.vtrack[rnti].gate, v.voice_now).1
    requires EntriesOf(m.events, rnti) == EntriesOf(l.events, rnti) + Logged(now, rnti, l.vtrack[rnti], v)
    ensures m.Agrees(rnti)
  {
    hide EventsOf, EntriesOf, Timed, Events, Step, Reflects, Logged;
    var vt, p := l.vtrack[rnti], l.passes[rnti];
    GateOf(vt, l.heard[rnti], p);
    EventsAlternate(p);
    EntriesAreEvents(l.events, rnti);
    TimedNext(vt, EntriesOf(l.events, rnti), now, rnti, v);
    PassAppended(vt, m.vtrack[rnti], l.heard[rnti], p, v.voice_now);
  }

  lemma GateOf(t: Track, heard: seq<Report>, passes: seq<bool>)
    requires Reflects(t, heard, passes)
    ensures t.gate == After(passes)
  {
  }

  /** Identifiers are 16-bit integers. */
  ghost predicate Fits(ues: map<nat, Ue>) {
    forall r :: r in ues ==> r < 0x1_0000
  }

  class Detector {
    var ues: map<nat, Ue>
    var vtrack: map<nat, Track>
    var call_log: seq<CallEvent>
    /** All grants heard and verdicts passed per tracked UE, and all events logged. */
    ghost var heard: map<nat, seq<Report>>
    ghost var passes: map<nat, seq<bool>>
    ghost var events: seq<CallEvent>

    ghost function TheLedger(): Ledger
      reads this
    {
      Ledger(ues, vtrack, heard, passes, events)
    }

    ghost predicate Valid()
      reads this
    {
      && Fits(ues) && TheLedger().Consistent()
      && call_log == Newest(events, 200)
    }

    constructor ()
      ensures Valid() && ues == map[] && events == []
    {
      ues, vtrack, call_log := map[], map[], [];
      heard, passes, events := map[], map[], [];
    }

    /** A grant for a UE: its time is recorded. */
    method OnDlDci(rnti: nat, r: Report)
      requires Valid() && rnti < 0x1_0000 && r.Valid()
      modifies this
      ensures Valid() && rnti in vtrack && events == old(events) && call_log == old(call_log)
      ensures heard == old(heard)[rnti := (if rnti in old(heard) then old(heard)[rnti] else []) + [r]]
      ensures passes == old(passes)[rnti := if rnti in old(passes) then old(passes)[rnti] else []]
      ensures ues == old(ues)[rnti := if rnti in old(ues) then old(ues)[rnti] else NEW_UE]
      ensures var vt := if rnti in old(vtrack) then old(vtrack)[rnti] else NEW_TRACK;
              vtrack == old(vtrack)[rnti := vt.(timing := vtrack[rnti].timing)]
      ensures LastIs(vtrack[rnti].timing, if r.bytes < 65535 then r.bytes else 65535)
    {
      hide Reflects, Ledger.Agrees, Tracks, Newest, Ledger.Consistent, Fits;
      ghost var l := TheLedger();
      ghost var h, p := Known(l, rnti);
      UeRef(rnti);
      var vt := if rnti in vtrack then vtrack[rnti] else NEW_TRACK;
      var timing := Record(vt.timing, r, h);
      vt := vt.(timing := timing);
      vtrack := vtrack[rnti := vt];
      heard, passes := heard[rnti := h + [r]], passes[rnti := p];
      Heard(l, rnti, h, p, timing, r);
      LedgerHeard(l, rnti, vt, h + [r], p);
    }

    /** The entry of a UE, made if there is none. */
    method UeRef(rnti: nat)
      requires Fits(ues) && rnti < 0x1_0000
      modifies this`ues
      ensures Fits(ues) && ues == old(ues)[rnti := if rnti in old(ues) then old(ues)[rnti] else NEW_UE]
    {
      if rnti !in ues {
        ues := ues[rnti := NEW_UE];
      }
    }

    /** An identity is heard without any grant. */
    method OnIdentity(rnti: nat)
      requires Valid() && rnti < 0x1_0000
      modifies this`ues
      ensures Valid() && ues == old(ues)[rnti := if rnti in old(ues) then old(ues)[rnti] else NEW_UE]
    {
      ghost var l := TheLedger();
      assert l.Agrees(rnti);
      UeRef(rnti);
      UeAdded(l, TheLedger(), rnti, NEW_UE);
    }

    /** One UE of an analysis pass: its window is judged, its gate takes the verdict, and what that
        starts or ends is logged. */
    method AnalyzeOne(rnti: nat, now: nat)
      requires Valid() && rnti in ues
      modifies this
      ensures Valid() && TheLedger() == Judged(old(TheLedger()), rnti, now)
    {
      ghost var l := TheLedger();
      assert l.Agrees(rnti);
      if rnti !in vtrack {
        ues := ues[rnti := ues[rnti].(voice := false, best := 0, n := 1)];
        UeAdded(l, TheLedger(), rnti, ues[rnti]);
        return;
      }
      var vt := vtrack[rnti];
      hide Judge, Logged, Sustained, Reflects, EventsOf, EntriesOf, Timed, Events, After, Step, Newest;
      assert rnti in passes;
      var v := JudgeTrack(vt, heard[rnti]);
      var t, more := Sustain(vt, v, rnti, now);
      LogEvents(more);
      vtrack := vtrack[rnti := t];
      ues := ues[rnti := Ue(t.gate.call_active, v.best, v.n, t.call_start_ms)];
      passes := passes[rnti := passes[rnti] + [v.voice_now]];
      LedgerJudged(l, rnti, ues[rnti], now, v);
    }

    /** Appends to the log, of which the newest 200 are kept. */
    method LogEvents(more: seq<CallEvent>)
      requires call_log == Newest(events, 200) && |more| <= 1
      modifies this`call_log, this`events
      ensures events == old(events) + more && call_log == Newest(events, 200)
    {
      hide Newest;
      NewestMeans(events);
      SuffixAppended(events, call_log, more);
      call_log := call_log + more;
      events := events + more;
      if more != [] {
        while |call_log| > 200
          invariant |call_log| <= |events| && call_log == events[|events| - |call_log|..]
          invariant |call_log| >= 200 || call_log == events
          invariant events == old(events) + more
          decreases |call_log|
        {
          SuffixShortened(events, call_log);
          call_log := call_log[1..];
        }
      }
      SuffixIsNewest(events, call_log);
    }

    /** An analysis pass over all UEs, in the order of their identifiers: every tracked UE gets exactly
        one more verdict, that on its window, and what the verdicts start or end at this time is logged. No
        track is ever without its UE. */
    method Analyze(now: nat)
      requires Valid()
      modifies this
      ensures Valid() && ues.Keys == old(ues.Keys) && vtrack.Keys == old(vtrack.Keys) && heard == old(heard)
      ensures forall k :: k in vtrack ==>
                k in passes && k in old(passes) &&
                passes[k] == old(passes)[k] + [Judge(old(vtrack)[k].timing.grants).voice_now]
      ensures forall k :: k in vtrack ==> vtrack[k] == PassedBy(old(vtrack)[k], now)
      ensures forall k :: k in ues ==>
                ues[k] == if k in vtrack then Shown(vtrack[k], Judge(old(vtrack)[k].timing.grants))
                          else old(ues)[k].(voice := false, best := 0, n := 1)
      ensures old(events) <= events && PassLogged(events[|old(events)|..], now, old(vtrack), 0x1_0000)
      ensures |call_log| == (if |events| < 200 then |events| else 200) && call_log == events[|events| - |call_log|..]
    {
      hide Ledger.Agrees, Ledger.Consistent, PassDone, PassLogged, Judge, PassedBy, Shown, Newest;
      ghost var l := TheLedger();
      VisitAll(now);
      TracksHaveUes(TheLedger());
      DropStale();
      PassEnds(l, TheLedger(), now);
      NewestMeans(events);
    }

    /** Drops the tracks without a UE, of which there are none. */
    method DropStale()
      requires forall k :: k in vtrack ==> k in ues
      modifies this`vtrack
      ensures vtrack == old(vtrack)
    {
      vtrack := map k | k in vtrack && k in ues :: vtrack[k];
    }

    /** The loop of a pass: every UE in turn. */
    method VisitAll(now: nat)
      requires Valid()
      modifies this
      ensures Valid() && PassDone(old(TheLedger()), TheLedger(), now, 0x1_0000)
    {
      hide Ledger.Agrees, Ledger.Consistent, PassDone, Judged, Newest;
      ghost var l := TheLedger();
      PassBegins(l, now);
      for r := 0 to 0x1_0000
        invariant Valid() && PassDone(l, TheLedger(), now, r)
      {
        TrackHasUe(TheLedger(), r);
        PassNext(l, TheLedger(), now, r);
        if r in ues {
          AnalyzeOne(r, now);
        }
      }
    }
  }

  /** What the verdict on one UE makes of all that is known. */
  ghost function Judged(l: Ledger, r: nat, now: nat): Ledger
    requires r in l.ues
  {
    if r !in l.vtrack then l.(ues := l.ues[r := l.ues[r].(voice := false, best := 0, n := 1)])
    else
      var v := Judge(l.vtrack[r].timing.grants);
      var t := PassedBy(l.vtrack[r], now);
      var p := if r in l.passes then l.passes[r] else [];
      Ledger(l.ues[r := Shown(t, v)], l.vtrack[r := t], l.heard, l.passes[r := p + [v.voice_now]],
             l.events + Logged(now, r, l.vtrack[r], v))
  }

  /** What a pass has changed when it has come to identifier r. */
  ghost predicate PassDone(a: Ledger, b: Ledger, now: nat, r: nat) {
    && TracksDone(a, b, now, r) && UesDone(a, b, now, r) && b.heard == a.heard
    && a.events <= b.events && PassLogged(b.events[|a.events|..], now, a.vtrack, r)
  }

  ghost predicate TracksDone(a: Ledger, b: Ledger, now: nat, r: nat) {
    b.vtrack.Keys == a.vtrack.Keys &&
    forall k :: k in b.vtrack ==>
      && b.vtrack[k] == (if k < r then PassedBy(a.vtrack[k], now) else a.vtrack[k])
      && k in a.passes && k in b.passes
      && b.passes[k] == a.passes[k] + if k < r then [Judge(a.vtrack[k].timing.grants).voice_now] else []
  }

  ghost predicate UesDone(a: Ledger, b: Ledger, now: nat, r: nat) {
    b.ues.Keys == a.ues.Keys &&
    forall k :: k in b.ues ==>
      b.ues[k] == if k >= r then a.ues[k]
                  else if k in a.vtrack then Shown(PassedBy(a.vtrack[k], now), Judge(a.vtrack[k].timing.grants))
                  else a.ues[k].(voice := false, best := 0, n := 1)
  }

  lemma PassBegins(l: Ledger, now: nat)
    requires l.Consistent()
    ensures PassDone(l, l, now, 0)
  {
    NothingLogged(now, l.vtrack);
    assert l.events[|l.events|..] == [];
    hide PassLogged, Judge, PassedBy;
    forall k | k in l.vtrack ensures k in l.passes {
      assert l.Agrees(k);
    }
  }

  lemma PassNext(a: Ledger, b: Ledger, now: nat, r: nat)
    requires PassDone(a, b, now, r) && (r in b.vtrack ==> r in b.ues)
    ensures PassDone(a, if r in b.ues then Judged(b, r, now) else b, now, r + 1)
  {
    hide PassLogged, Judge, PassedBy, Logged, Shown;
    OneLogged(b.events[|a.events|..], now, a.vtrack, r);
    if r in b.vtrack {
      PassTracked(a, b, now, r);
    }
  }

  lemma PassTracked(a: Ledger, b: Ledger, now: nat, r: nat)
    requires PassDone(a, b, now, r) && r in b.vtrack && r in b.ues
    requires PassLogged(b.events[|a.events|..] + Logged(now, r, a.vtrack[r], Judge(a.vtrack[r].timing.grants)), now,
                        a.vtrack, r + 1)
    ensures PassDone(a, Judged(b, r, now), now, r + 1)
  {
    hide PassLogged, Judge, PassedBy, Logged, Shown, TracksDone, UesDone;
    TrackDone(a, b, now, r);
    UeDone(a, b, now, r);
    var more := b.events[|a.events|..];
    var e := Logged(now, r, a.vtrack[r], Judge(a.vtrack[r].timing.grants));
    assert (b.events + e)[|a.events|..] == more + e;
  }

  lemma TrackDone(a: Ledger, b: Ledger, now: nat, r: nat)
    requires TracksDone(a, b, now, r) && r in b.vtrack && r in b.ues
    ensures b.vtrack.Keys == a.vtrack.Keys && b.vtrack[r] == a.vtrack[r]
    ensures TracksDone(a, Judged(b, r, now), now, r + 1)
  {
    hide Judge, PassedBy, Logged, Shown;
  }

  lemma UeDone(a: Ledger, b: Ledger, now: nat, r: nat)
    requires UesDone(a, b, now, r) && r in b.vtrack && r in b.ues && r in a.vtrack && b.vtrack[r] == a.vtrack[r]
    ensures UesDone(a, Judged(b, r, now), now, r + 1)
  {
    hide Judge, PassedBy, Logged, Shown;
  }

  lemma PassEnds(a: Ledger, b: Ledger, now: nat)
    requires PassDone(a, b, now, 0x1_0000) && Fits(b.ues) && forall k :: k in b.vtrack ==> k in b.ues
    ensures b.ues.Keys == a.ues.Keys && b.vtrack.Keys == a.vtrack.Keys && b.heard == a.heard
    ensures forall k :: k in b.vtrack ==>
              && b.vtrack[k] == PassedBy(a.vtrack[k], now) && k in a.passes && k in b.passes
              && b.passes[k] == a.passes[k] + [Judge(a.vtrack[k].timing.grants).voice_now]
    ensures forall k :: k in b.ues ==>
              b.ues[k] == if k in b.vtrack then Shown(b.vtrack[k], Judge(a.vtrack[k].timing.grants))
                          else a.ues[k].(voice := false, best := 0, n := 1)
    ensures a.events <= b.events && PassLogged(b.events[|a.events|..], now, a.vtrack, 0x1_0000)
  {
    hide PassLogged, Judge, PassedBy, Shown;
  }

  lemma TrackHasUe(l: Ledger, r: nat)
    requires l.Consistent()
    ensures r in l.vtrack ==> r in l.ues
  {
    assert l.Agrees(r);
  }

  lemma TracksHaveUes(l: Ledger)
    requires l.Consistent()
    ensures forall k :: k in l.vtrack ==> k in l.ues
  {
    hide Ledger.Agrees, Ledger.Consistent;
    forall k | k in l.vtrack ensures k in l.ues {
      TrackHasUe(l, k);
    }
  }

  /** What is shown of a UE after a verdict. */
  function Shown(t: Track, v: Verdict): Ue {
    Ue(t.gate.call_active, v.best, v.n, t.call_start_ms)
  }

  /** What an analysis pass makes of a track. */
  ghost function PassedBy(t: Track, now: nat): Track {
    Sustained(t, Judge(t.timing.grants), now)
  }

  /** What a pass logs up to identifier r: in the order of the identifiers, for every UE what its verdict starts
      or ends, all at the time of the pass. */
  ghost predicate PassLogged(more: seq<CallEvent>, now: nat, was: map<nat, Track>, r: nat) {
    && (forall i :: 0 <= i < |more| ==> more[i].ts_ms == now && more[i].rnti < r && more[i].rnti in was)
    && (forall i, j :: 0 <= i < j < |more| ==> more[i].rnti < more[j].rnti)
    && forall k :: k in was && k < r ==> EntriesOf(more, k) == Logged(now, k, was[k], Judge(was[k].timing.grants))
  }

  lemma NothingLogged(now: nat, was: map<nat, Track>)
    ensures PassLogged([], now, was, 0)
  {
  }

  lemma OneLogged(more: seq<CallEvent>, now: nat, was: map<nat, Track>, r: nat)
    requires PassLogged(more, now, was, r)
    ensures r !in was ==> PassLogged(more, now, was, r + 1)
    ensures r in was ==> PassLogged(more + Logged(now, r, was[r], Judge(was[r].timing.grants)), now, was, r + 1)
  {
    hide Judge, EventsOf, EntriesOf;
    if r in was {
      var e := Logged(now, r, was[r], Judge(was[r].timing.grants));
      forall k | k in was && k < r + 1
        ensures EntriesOf(more + e, k) == Logged(now, k, was[k], Judge(was[k].timing.grants))
      {
        EventsAppended(more, e, k);
        LoggedIsEntry(now, r, was[r], Judge(was[r].timing.grants), k);
        if k == r {
          NoEntries(more, r);
        }
      }
    }
  }

  lemma {:induction false} NoEntries(log: seq<CallEvent>, rnti: nat)
    requires forall i :: 0 <= i < |log| ==> log[i].rnti != rnti
    ensures EntriesOf(log, rnti) == []
  {
    if log != [] {
      NoEntries(log[..|log| - 1], rnti);
    }
  }

  /** For every UE the logged events alternate, beginning with a start, and it is marked as speaking
      exactly between a start and an end. */
  lemma LogAlternates(l: Ledger, rnti: nat)
    requires l.Consistent()
    ensures Alternating(EventsOf(l.events, rnti))
    ensures rnti in l.ues ==> (l.ues[rnti].voice <==> |EventsOf(l.events, rnti)| % 2 == 1)
  {
    assert l.Agrees(rnti);
    if rnti in l.vtrack {
      EventsAlternate(l.passes[rnti]);
    }
  }

  /** What the log tells of a UE: its entries are starts and ends in turn, and every end has the kind of the
      call that it ends and the time since that started. */
  lemma LogTells(l: Ledger, rnti: nat)
    requires l.Consistent()
    ensures var e := EntriesOf(l.events, rnti);
            forall i :: 0 <= i < |e| ==>
              && (e[i].started <==> i % 2 == 0)
              && (!e[i].started ==>
                    i > 0 && e[i].sps == e[i - 1].sps && e[i].duration_ms == e[i].ts_ms - e[i - 1].ts_ms)
  {
    LogAlternates(l, rnti);
    EntriesAreEvents(l.events, rnti);
    assert l.Agrees(rnti);
    hide EntriesOf, EventsOf, Reflects, Events;
    forall i | 0 <= i < |EntriesOf(l.events, rnti)| ensures EntriesOf(l.events, rnti)[i].started <==> i % 2 == 0 {
      assert EventsOf(l.events, rnti)[i] == Due(i);
    }
  }

  lemma NothingTracked()
    ensures Reflects(NEW_TRACK, [], [])
  {
  }

  lemma PassAppended(t: Track, t': Track, heard: seq<Report>, passes: seq<bool>, x: bool)
    requires Reflects(t, heard, passes) && t'.timing == t.timing && t'.gate == Step(t.gate, x).0
    ensures Reflects(t', heard, passes + [x]) && Events(passes + [x]) == Events(passes) + Step(t.gate, x).1
  {
    PassesAppend(passes, x);
  }

  lemma EventsAppended(log: seq<CallEvent>, more: seq<CallEvent>, rnti: nat)
    requires |more| <= 1
    ensures EventsOf(log + more, rnti) == EventsOf(log, rnti) + EventsOf(more, rnti)
    ensures EntriesOf(log + more, rnti) == EntriesOf(log, rnti) + EntriesOf(more, rnti)
  {
    if more == [] {
      assert log + more == log;
      assert EventsOf(log, rnti) + [] == EventsOf(log, rnti);
      assert EntriesOf(log, rnti) + [] == EntriesOf(log, rnti);
    } else {
      assert (log + more)[..|log|] == log && more[..0] == [];
    }
  }
}
