/** The decoder manager as one undisturbed thread runs it: every operation is a sequence of atomic steps. */
module DecoderManager {
  import opened Options
  import opened ManagerSteps
  import opened ManagerInvariant
  import opened BandChoice

  // ---------- operations as sequences of steps ----------

  lemma ExecuteOne(s: State, actions: seq<Action>, a: Action)
    ensures var t := Execute(s, actions);
            Execute(s, actions + [a]) == if Enabled(t, a) then Next(t, a) else t
  {
    assert (actions + [a])[..|actions|] == actions;
  }

  lemma {:induction false} InvariantKept(s: State, actions: seq<Action>)
    requires Invariant(s)
    ensures Invariant(Execute(s, actions))
  {
    if actions != [] {
      var k := |actions| - 1;
      InvariantKept(s, actions[..k]);
      var t := Execute(s, actions[..k]);
      hide WorkersOk, AddressesOk, IdsOk, QueuesOk, Next, Enabled;
      if Enabled(t, actions[k]) {
        WorkersKept(t, actions[k]);
        AddressesKept(t, actions[k]);
        IdsKept(t, actions[k]);
        QueuesKept(t, actions[k]);
      }
    }
  }

  /** The worker with the least weight, sub-bands counting five each; the first of several. */
  function Effective(w: Worker): int {
    w.weight + |w.bands| * 5
  }

  function Lightest(ws: seq<Worker>): (k: nat)
    requires ws != []
    ensures k < |ws|
    ensures forall i :: 0 <= i < |ws| ==> Effective(ws[k]) <= Effective(ws[i])
    ensures forall i :: 0 <= i < k ==> Effective(ws[k]) < Effective(ws[i])
  {
    var n := |ws| - 1;
    if n == 0 then 0
    else
      var k := Lightest(ws[..n]);
      if Effective(ws[n]) < Effective(ws[k]) then n else k
  }

  function BeginScan(id: nat, freq: real, baud: int, n: nat): seq<Action> {
    if n == 0 then [Begin(freq, baud)] else BeginScan(id, freq, baud, n - 1) + [Scan(id)]
  }

  /** addDecoder: an identifier, a look at every worker, then the sub-band found or a new one. */
  function Adding(id: nat, freq: real, baud: int, ws: seq<Worker>, rate: real): seq<Action>
    requires ws != []
  {
    BeginScan(id, freq, baud, |ws|) + [Place(id)] + [Create(id, Lightest(ws), rate)]
  }

  function Removing(id: nat, n: nat): seq<Action> {
    if n == 0 then [] else Removing(id, n - 1) + [Remove(n - 1, id)]
  }

  function Retuning(id: nat, freq: real, n: nat): seq<Action> {
    if n == 0 then [] else Retuning(id, freq, n - 1) + [Retune(n - 1, id, freq)]
  }

  function ClearingOne(n: nat): seq<Action> {
    if n == 0 then [] else ClearingOne(n - 1) + [ClearBands(n - 1)] + [ClearQueue(n - 1)]
  }

  function FeedingOne(n: nat): seq<Action> {
    if n == 0 then [NextBlock] else FeedingOne(n - 1) + [FeedCheck] + [FeedPush]
  }

  // ---------- the loops under one lock ----------

  /** The scan of one worker's sub-bands. */
  method ScanWorker(a: Adder, i: nat, w: Worker) returns (r: Adder)
    ensures r == ScanBands(a, i, w, |w.bands|)
  {
    r := a;
    for k := 0 to |w.bands|
      invariant r == ScanBands(a, i, w, k) && r.freq == a.freq
    {
      var sb := w.bands[k];
      if Covers(sb.site, a.freq) {
        var cnt := |sb.decs|;
        if cnt >= 4 {
          var eff := w.weight + |w.bands| * 10 + cnt * 8;
          if eff < r.load {
            r := r.(best := Some(Choice(i, sb.key)), load := eff);
          }
        } else {
          if cnt < r.load {
            r := r.(best := Some(Choice(i, sb.key)), load := cnt);
          }
        }
      }
    }
  }

  lemma {:induction false} FirstBand(bands: seq<Band>, key: nat, k: nat)
    requires k < |bands| && bands[k].key == key && forall j :: 0 <= j < k ==> bands[j].key != key
    ensures FindBand(bands, key) == Some(k)
  {
    var n := |bands| - 1;
    if k < n {
      FirstBand(bands[..n], key, k);
    }
  }

  lemma {:induction false} FirstDec(decs: seq<Dec>, id: nat, k: nat)
    requires k < |decs| && decs[k].id == id && forall j :: 0 <= j < k ==> decs[j].id != id
    ensures FindDec(decs, id) == Some(k)
  {
    var n := |decs| - 1;
    if k < n {
      FirstDec(decs[..n], id, k);
    }
  }

  lemma {:induction false} FirstHome(bands: seq<Band>, id: nat, k: nat)
    requires k < |bands| && FindDec(bands[k].decs, id).Some?
    requires forall j :: 0 <= j < k ==> FindDec(bands[j].decs, id).None?
    ensures FindHome(bands, id) == Some(k)
  {
    var n := |bands| - 1;
    if k < n {
      FirstHome(bands[..n], id, k);
    }
  }

  /** The re-lookup under the lock, and the new decoder in the sub-band if it is still there. */
  method PlaceIn(w: Worker, key: nat, d: Dec) returns (w': Worker, done: bool)
    ensures var k := FindBand(w.bands, key);
            done == k.Some? && w' == if k.Some? then Placed(w, k.value, d) else w
  {
    for k := 0 to |w.bands|
      invariant forall j :: 0 <= j < k ==> w.bands[j].key != key
    {
      if w.bands[k].key == key {
        FirstBand(w.bands, key, k);
        var sb := w.bands[k].(decs := w.bands[k].decs + [d]);
        w' := w.(bands := w.bands[k := sb]);
        w' := w'.(count := w'.count + 1);
        w' := w'.(weight := w'.weight + DecoderWeight(d.baud));
        return w', true;
      }
    }
    return w, false;
  }

  /** The search for a decoder over all sub-bands of a worker, and its removal. */
  method RemoveFrom(w: Worker, id: nat) returns (w': Worker, done: bool)
    ensures w' == Removed(w, id) && done == FindHome(w.bands, id).Some?
  {
    for k := 0 to |w.bands|
      invariant forall j :: 0 <= j < k ==> FindDec(w.bands[j].decs, id).None?
    {
      var decs := w.bands[k].decs;
      for j := 0 to |decs|
        invariant forall i :: 0 <= i < j ==> decs[i].id != id
      {
        if decs[j].id == id {
          FirstDec(decs, id, j);
          FirstHome(w.bands, id, k);
          var baudOfRemoved := decs[j].baud;
          decs := decs[..j] + decs[j + 1..];
          w' := w.(count := w.count - 1);
          w' := w'.(weight := w'.weight - DecoderWeight(baudOfRemoved));
          if decs == [] {
            w' := w'.(bands := w.bands[..k] + w.bands[k + 1..]);
          } else {
            w' := w'.(bands := w.bands[k := w.bands[k].(decs := decs)]);
          }
          return w', true;
        }
      }
    }
    return w, false;
  }

  /** The search for a decoder over all sub-bands of a worker, and its new frequency. */
  method RetuneIn(w: Worker, id: nat, freq: real) returns (w': Worker, done: bool)
    ensures w' == Retuned(w, id, freq) && done == FindHome(w.bands, id).Some?
  {
    for k := 0 to |w.bands|
      invariant forall j :: 0 <= j < k ==> FindDec(w.bands[j].decs, id).None?
    {
      var decs := w.bands[k].decs;
      for j := 0 to |decs|
        invariant forall i :: 0 <= i < j ==> decs[i].id != id
      {
        if decs[j].id == id {
          FirstDec(decs, id, j);
          FirstHome(w.bands, id, k);
          decs := decs[j := decs[j].(freq := freq)];
          return w.(bands := w.bands[k := w.bands[k].(decs := decs)]), true;
        }
      }
    }
    return w, false;
  }

  // ---------- the manager ----------

  class Manager {
    var workers: seq<Worker>
    var nextId: nat
    var drops: nat
    /** The sub-bands allocated so far; the position of one is its address. */
    var places: seq<Site>
    // the threads and the history
    ghost var tallies: seq<Tally>
    ghost var adders: map<nat, Adder>
    ghost var feeder: Feeder

    ghost function TheState(): State
      reads this
    {
      State(workers, tallies, nextId, places, drops, adders, feeder)
    }

    ghost predicate Valid()
      reads this
    {
      Invariant(TheState())
    }

    /** As many workers as asked for, at least one. */
    constructor (n: nat)
      requires n > 0
      ensures Valid() && TheState() == Started(n)
    {
      workers := seq(n, _ => IDLE_WORKER);
      nextId, drops := 1, 0;
      tallies, places, adders, feeder := seq(n, _ => NOTHING_YET), [], map[], Feeder(0, n, false);
      new;
      StartedOk(n);
    }

    /** Lets the ghosts follow to a state that the code has reached. */
    ghost method FollowTo(s: State)
      requires workers == s.workers && nextId == s.nextId && drops == s.drops && places == s.places
      modifies this`tallies, this`adders, this`feeder
      ensures TheState() == s
    {
      tallies, adders, feeder := s.tallies, s.adders, s.feeder;
    }

    /** The least loaded worker. */
    method LightestWorker() returns (best: nat)
      requires workers != []
      ensures best == Lightest(workers)
    {
      best := 0;
      var bestEff := workers[0].weight + |workers[0].bands| * 5;
      assert workers[..1] == [workers[0]];
      for i := 1 to |workers|
        invariant best < i && best == Lightest(workers[..i]) && bestEff == Effective(workers[best])
      {
        assert workers[..i + 1][..i] == workers[..i];
        var eff := workers[i].weight + |workers[i].bands| * 5;
        if eff < bestEff {
          best, bestEff := i, eff;
        }
      }
      assert workers[..|workers|] == workers;
    }

    /** A new channel: placed in the first sub-band of least load on any worker that covers its frequency, or
        in a new sub-band on the least loaded worker exactly if none may be taken. `Promised` says what that
        means in terms of what the workers hold. */
    method AddDecoder(freq: real, baud: int, rate: real) returns (id: int)
      requires Valid() && rate > 0.0
      modifies this
      ensures Valid()
      ensures old(workers) == [] ==> id == -1 && unchanged(this)
      ensures old(workers) != [] ==>
                && id == old(nextId)
                && TheState() == Execute(old(TheState()), Adding(id, freq, baud, old(workers), rate))
                && Held(TheState(), id) == 1 && id !in adders
                && WellPlaced(old(workers), old(places), workers, places, Dec(id, baud, freq, freq), rate)
                && Promised(old(workers), old(places), workers, places, Dec(id, baud, freq, freq), rate)
    {
      if workers == [] {
        return -1;
      }
      hide Invariant, Execute, Adding, BeginScan, Held, WellPlaced, Promised;
      ghost var s0 := TheState();
      InvariantKept(s0, Adding(nextId, freq, baud, workers, rate));
      AddingHeld(s0, freq, baud, rate);
      AddingChooses(s0, freq, baud, rate);
      PlacedAsPromised(s0, freq, baud, rate);
      SameSizes(s0);
      AddBegin(s0, freq, baud);
      var ident := nextId;
      nextId := nextId + 1;
      FollowTo(Execute(s0, BeginScan(ident, freq, baud, 0)));
      var d := ScanAll(ident, freq, baud, s0);
      AddEnd(s0, ident, freq, baud, rate);
      Finish(d, ident, rate, Execute(s0, Adding(ident, freq, baud, workers, rate)));
      return ident;
    }

    /** The look at every worker. */
    method ScanAll(ident: nat, freq: real, baud: int, ghost s0: State) returns (d: Adder)
      requires |tallies| == |workers| && TheState() == Execute(s0, BeginScan(ident, freq, baud, 0))
      requires ident in adders && adders[ident] == Adder(freq, baud, 0, None, NO_LOAD)
      modifies this`tallies, this`adders, this`feeder
      ensures TheState() == Execute(s0, BeginScan(ident, freq, baud, |workers|))
      ensures ident in adders && adders[ident] == d && d.next == |workers| && d.freq == freq && d.baud == baud
    {
      hide Execute, BeginScan, ScanBands;
      d := Adder(freq, baud, 0, None, NO_LOAD);
      for i := 0 to |workers|
        invariant |tallies| == |workers| && TheState() == Execute(s0, BeginScan(ident, freq, baud, i))
        invariant ident in adders && adders[ident] == d && d.next == i && d.freq == freq && d.baud == baud
      {
        AddScan(s0, ident, freq, baud, i);
        d := ScanWorker(d, i, workers[i]);
        d := d.(next := i + 1);
        FollowTo(Execute(s0, BeginScan(ident, freq, baud, i + 1)));
      }
    }

    /** The decoder goes into the sub-band found if that is still there, otherwise into a new one. */
    method Finish(d: Adder, ident: nat, rate: real, ghost t: State)
      requires workers != [] && (d.best.Some? ==> d.best.value.worker < |workers|)
      requires t.nextId == nextId && t.drops == drops
      requires if d.best.Some? && FindBand(workers[d.best.value.worker].bands, d.best.value.key).Some? then
                 var i := d.best.value.worker;
                 && t.workers == workers[i :=
                      Placed(workers[i], FindBand(workers[i].bands, d.best.value.key).value,
                             Dec(ident, d.baud, d.freq, d.freq))]
                 && t.places == places
               else
                 var k := Lightest(workers);
                 && t.workers == workers[k :=
                      Created(workers[k], Band(|places|, Site(d.freq, rate), []), Dec(ident, d.baud, d.freq, d.freq))]
                 && t.places == places + [Site(d.freq, rate)]
      modifies this
      ensures TheState() == t
    {
      hide Placed, FindBand, Lightest;
      var dec := Dec(ident, d.baud, d.freq, d.freq);
      if d.best.Some? {
        var c := d.best.value;
        var w, done := PlaceIn(workers[c.worker], c.key, dec);
        if done {
          workers := workers[c.worker := w];
          FollowTo(t);
          return;
        }
      }
      var best := LightestWorker();
      var sb := Band(|places|, Site(d.freq, rate), [dec]);
      places := places + [sb.site];
      var w := workers[best];
      w := w.(bands := w.bands + [sb]);
      w := w.(count := w.count + 1, weight := w.weight + DecoderWeight(d.baud));
      workers := workers[best := w];
      FollowTo(t);
    }

    /** All decoders and all queued blocks of every worker go. */
    method RemoveAll()
      requires Valid()
      modifies this
      ensures Valid() && TheState() == Execute(old(TheState()), ClearingOne(|old(workers)|))
      ensures forall i :: 0 <= i < |workers| ==>
                workers[i].bands == [] && workers[i].count == 0 && workers[i].queue == []
    {
      hide Invariant, Execute, ClearingOne;
      ghost var s0, n := TheState(), |workers|;
      InvariantKept(s0, ClearingOne(n));
      SameSizes(s0);
      ClearNone(s0);
      for i := 0 to |workers|
        invariant |workers| == n == |tallies|
        invariant TheState() == Execute(s0, ClearingOne(i))
        invariant forall j :: 0 <= j < i ==> workers[j].bands == [] && workers[j].count == 0 && workers[j].queue == []
      {
        ClearStep(s0, i);
        var w := workers[i].(bands := [], count := 0);
        w := w.(queue := []);
        workers := workers[i := w];
        FollowTo(Execute(s0, ClearingOne(i + 1)));
      }
    }

    /** A worker takes the oldest block. */
    method PopBlock(i: nat) returns (block: nat)
      requires Valid() && i < |workers| && workers[i].queue != []
      modifies this
      ensures Valid() && TheState() == Next(old(TheState()), Pop(i)) && block == old(workers)[i].queue[0]
    {
      hide Invariant;
      ghost var s := TheState();
      SameSizes(s);
      StepKept(s, Pop(i));
      var queue := workers[i].queue;
      block := queue[0];
      workers := workers[i := workers[i].(queue := queue[1..])];
      FollowTo(Next(s, Pop(i)));
    }

    /** A block for every worker that has decoders; a full queue loses its oldest block. */
    method Feed(block: nat)
      requires Valid() && feeder.next == |workers| && !feeder.pushing && block == feeder.block + 1
      modifies this
      ensures Valid() && TheState() == Execute(old(TheState()), FeedingOne(|old(workers)|))
      ensures feeder == Feeder(block, |workers|, false)
      ensures |workers| == |old(workers)| && forall i :: 0 <= i < |workers| ==>
                workers[i] == old(workers)[i].(queue := Queued(old(workers)[i], block))
    {
      hide Invariant, Execute, FeedingOne;
      ghost var s0, n := TheState(), |workers|;
      InvariantKept(s0, FeedingOne(n));
      SameSizes(s0);
      FeedStart(s0);
      FollowTo(Execute(s0, FeedingOne(0)));
      for i := 0 to |workers|
        invariant |workers| == n == |tallies|
        invariant TheState() == Execute(s0, FeedingOne(i))
        invariant feeder == Feeder(block, i, false)
        invariant forall j :: 0 <= j < n ==>
                    workers[j] == if j < i then old(workers)[j].(queue := Queued(old(workers)[j], block))
                                  else old(workers)[j]
      {
        FeedStep(s0, i);
        if workers[i].count != 0 {
          var queue := workers[i].queue;
          if |queue| >= MAX_QUEUE {
            queue := queue[1..];
            drops := drops + 1;
          }
          queue := queue + [block];
          workers := workers[i := workers[i].(queue := queue)];
        }
        FollowTo(Execute(s0, FeedingOne(i + 1)));
      }
    }

    /** Goes through the workers until one has the decoder. */
    method RemoveDecoder(channelId: nat)
      requires Valid()
      modifies this
      ensures Valid() && TheState() == Execute(old(TheState()), Removing(channelId, |old(workers)|))
      ensures channelId !in old(adders) ==> Held(TheState(), channelId) == 0
      ensures (forall i :: 0 <= i < |old(workers)| ==> NoneWith(old(workers)[i], channelId)) ==> workers == old(workers)
      ensures forall i: nat :: FirstHolder(old(workers), channelId, i) ==>
                workers == old(workers)[i := Removed(old(workers)[i], channelId)]
    {
      hide Invariant, Execute, Removing, Removed, FindHome, Held, NoneWith;
      ghost var s0, n := TheState(), |workers|;
      if channelId !in adders {
        RemovingFrees(s0, channelId);
      }
      InvariantKept(s0, Removing(channelId, n));
      SameSizes(s0);
      RemoveNone(s0, channelId);
      for i := 0 to |workers|
        invariant |workers| == n == |tallies|
        invariant TheState() == Execute(s0, Removing(channelId, i)) && workers == old(workers)
        invariant forall j :: 0 <= j < i ==> NoneWith(workers[j], channelId)
      {
        RemoveStep(s0, channelId, i);
        FoundIff(workers[i], channelId);
        var w, done := RemoveFrom(workers[i], channelId);
        if done {
          RemovedElsewhere(s0, channelId, i, n);
        }
        if !done {
          NotRemoved(workers[i], channelId);
        } else {
          OneHolder(workers, channelId, i);
        }
        workers := workers[i := w];
        if done {
          return;
        }
      }
    }

    /** Goes through the workers until one has the decoder. That has the new frequency then, and all else is as
        it was. */
    method SetDecoderFreq(channelId: nat, freq: real)
      requires Valid()
      modifies this
      ensures Valid() && exists n :: TheState() == Execute(old(TheState()), Retuning(channelId, freq, n))
      ensures OnlyRetuned(old(workers), workers, channelId, freq)
      ensures TheState() == old(TheState()).(workers := workers)
    {
      hide Invariant, Execute, Retuning, Retuned, FindHome, Held, NoneWith, OnlyRetuned;
      ghost var s0, n := TheState(), |workers|;
      SameSizes(s0);
      RetuneNone(s0, channelId, freq);
      for i := 0 to |workers|
        invariant TheState() == s0 == Execute(s0, Retuning(channelId, freq, i))
        invariant forall j :: 0 <= j < i ==> NoneWith(workers[j], channelId)
      {
        RetuneStep(s0, channelId, freq, i);
        FoundIff(workers[i], channelId);
        var w, done := RetuneIn(workers[i], channelId, freq);
        if !done {
          NotRetuned(workers[i], channelId, freq);
        }
        workers := workers[i := w];
        if done {
          InvariantKept(s0, Retuning(channelId, freq, i + 1));
          RetunedOnce(s0, channelId, freq, i);
          FollowTo(Execute(s0, Retuning(channelId, freq, i + 1)));
          return;
        }
      }
      NoneRetuned(workers, channelId, freq);
    }
  }

  /** A block behind what is queued, of which the oldest goes if there are 192; nothing for an idle worker. */
  function Queued(w: Worker, block: nat): seq<nat> {
    if w.count == 0 then w.queue
    else if |w.queue| < 192 then w.queue + [block]
    else w.queue[1..] + [block]
  }

  /** Worker i is the first that has a decoder with the identifier. */
  predicate FirstHolder(ws: seq<Worker>, id: nat, i: nat) {
    i < |ws| && !NoneWith(ws[i], id) && forall j :: 0 <= j < i ==> NoneWith(ws[j], id)
  }

  lemma OneHolder(ws: seq<Worker>, id: nat, i: nat)
    requires FirstHolder(ws, id, i)
    ensures forall h: nat :: FirstHolder(ws, id, h) ==> h == i
    ensures exists h :: 0 <= h < |ws| && !NoneWith(ws[h], id)
  {
    hide NoneWith;
  }

  /** Every decoder with the identifier has the frequency, and nothing else is different. */
  ghost predicate OnlyRetuned(ws: seq<Worker>, ws': seq<Worker>, id: nat, freq: real) {
    |ws'| == |ws| && forall i :: 0 <= i < |ws| ==> WorkerRetuned(ws[i], ws'[i], id, freq)
  }

  ghost predicate WorkerRetuned(w: Worker, w': Worker, id: nat, freq: real) {
    && w'.count == w.count && w'.weight == w.weight && w'.queue == w.queue && |w'.bands| == |w.bands|
    && forall k :: 0 <= k < |w.bands| ==>
         && w'.bands[k].key == w.bands[k].key && w'.bands[k].site == w.bands[k].site
         && DecsRetuned(w.bands[k].decs, w'.bands[k].decs, id, freq)
  }

  ghost predicate DecsRetuned(decs: seq<Dec>, decs': seq<Dec>, id: nat, freq: real) {
    |decs'| == |decs| && forall j :: 0 <= j < |decs| ==>
      decs'[j] == if decs[j].id == id then Dec(id, decs[j].baud, decs[j].placed, freq) else decs[j]
  }

  lemma FoundIff(w: Worker, id: nat)
    ensures FindHome(w.bands, id).None? <==> NoneWith(w, id)
  {
    WhereFound(w, id);
  }

  lemma RetuneNone(s0: State, id: nat, freq: real)
    ensures Execute(s0, Retuning(id, freq, 0)) == s0
  {
  }

  lemma RetuneStep(s0: State, id: nat, freq: real, i: nat)
    requires var s := Execute(s0, Retuning(id, freq, i)); i < |s.workers| == |s.tallies|
    ensures var s := Execute(s0, Retuning(id, freq, i));
            Execute(s0, Retuning(id, freq, i + 1)) == s.(workers := s.workers[i := Retuned(s.workers[i], id, freq)])
  {
    ExecuteOne(s0, Retuning(id, freq, i), Retune(i, id, freq));
  }

  lemma NotRetuned(w: Worker, id: nat, freq: real)
    requires FindHome(w.bands, id).None?
    ensures Retuned(w, id, freq) == w
  {
  }

  lemma NoneRetuned(ws: seq<Worker>, id: nat, freq: real)
    requires forall i :: 0 <= i < |ws| ==> NoneWith(ws[i], id)
    ensures OnlyRetuned(ws, ws, id, freq)
  {
    forall i | 0 <= i < |ws| ensures WorkerRetuned(ws[i], ws[i], id, freq) {
      SameWorker(ws[i], id, freq);
    }
  }

  lemma SameWorker(w: Worker, id: nat, freq: real)
    requires NoneWith(w, id)
    ensures WorkerRetuned(w, w, id, freq)
  {
  }

  // ---------- no identifier twice ----------

  lemma {:induction false} SumOfTwo<T>(s: seq<T>, k: nat, l: nat, f: T -> nat)
    requires k < l < |s|
    ensures Sum(s, f) >= f(s[k]) + f(s[l])
  {
    if l == |s| - 1 {
      SumAtLeast(s[..l], k, f);
    } else {
      SumOfTwo(s[..|s| - 1], k, l, f);
    }
  }

  predicate HasAt(w: Worker, id: nat, k: nat, j: nat) {
    k < |w.bands| && j < |w.bands[k].decs| && w.bands[k].decs[j].id == id
  }

  lemma HasOne(w: Worker, id: nat, k: nat, j: nat)
    requires HasAt(w, id, k, j)
    ensures BandHas(id)(w.bands[k]) >= 1 && WorkerHas(id)(w) >= 1
  {
    SumAtLeast(w.bands[k].decs, j, DecHas(id));
    SumAtLeast(w.bands, k, BandHas(id));
  }

  lemma HasTwo(w: Worker, id: nat, k: nat, j: nat, l: nat, i: nat)
    requires HasAt(w, id, k, j) && HasAt(w, id, l, i) && (k != l || j != i)
    ensures WorkerHas(id)(w) >= 2
  {
    HasOne(w, id, k, j);
    HasOne(w, id, l, i);
    if k < l {
      SumOfTwo(w.bands, k, l, BandHas(id));
    } else if l < k {
      SumOfTwo(w.bands, l, k, BandHas(id));
    } else {
      SumOfTwo(w.bands[k].decs, if j < i then j else i, if j < i then i else j, DecHas(id));
      SumAtLeast(w.bands, k, BandHas(id));
    }
  }

  /** A worker that has the decoder has it once, and no other worker has it. */
  lemma HeldHere(s: State, id: nat, i: nat)
    requires Held(s, id) <= 1 && i < |s.workers|
    ensures forall k, j, l, m :: HasAt(s.workers[i], id, k, j) && HasAt(s.workers[i], id, l, m) ==> k == l && j == m
    ensures !NoneWith(s.workers[i], id) ==>
              forall h :: 0 <= h < |s.workers| && h != i ==> NoneWith(s.workers[h], id)
  {
    hide WorkerHas;
    var w := s.workers[i];
    SumAtLeast(s.workers, i, WorkerHas(id));
    forall k, j, l, m | HasAt(w, id, k, j) && HasAt(w, id, l, m) ensures k == l && j == m {
      if k != l || j != m {
        HasTwo(w, id, k, j, l, m);
      }
    }
    if !NoneWith(w, id) {
      var k, j :| 0 <= k < |w.bands| && 0 <= j < |w.bands[k].decs| && w.bands[k].decs[j].id == id;
      HasOne(w, id, k, j);
      forall h | 0 <= h < |s.workers| && h != i ensures NoneWith(s.workers[h], id) {
        var v := s.workers[h];
        forall l, m | 0 <= l < |v.bands| && 0 <= m < |v.bands[l].decs| ensures v.bands[l].decs[m].id != id {
          if v.bands[l].decs[m].id == id {
            HasOne(v, id, l, m);
            SumOfTwo(s.workers, if h < i then h else i, if h < i then i else h, WorkerHas(id));
          }
        }
      }
    }
  }

  lemma RetunedOnce(s: State, id: nat, freq: real, i: nat)
    requires Invariant(s) && i < |s.workers| && !NoneWith(s.workers[i], id)
    ensures OnlyRetuned(s.workers, s.workers[i := Retuned(s.workers[i], id, freq)], id, freq)
  {
    assert Held(s, id) <= 1;
    hide Invariant, Held, Retuned, NoneWith, WorkerRetuned;
    var w := s.workers[i];
    HeldHere(s, id, i);
    OneRetuned(w, id, freq);
    forall h | 0 <= h < |s.workers| && h != i ensures WorkerRetuned(s.workers[h], s.workers[h], id, freq) {
      SameWorker(s.workers[h], id, freq);
    }
  }

  lemma OneRetuned(w: Worker, id: nat, freq: real)
    requires !NoneWith(w, id)
    requires forall k, j, l, m :: HasAt(w, id, k, j) && HasAt(w, id, l, m) ==> k == l && j == m
    ensures WorkerRetuned(w, Retuned(w, id, freq), id, freq)
  {
    hide Retuned;
    var k, j := RetunedMeans(w, id, freq);
    assert HasAt(w, id, k, j);
    var v := Retuned(w, id, freq);
    forall l | 0 <= l < |w.bands| ensures DecsRetuned(w.bands[l].decs, v.bands[l].decs, id, freq) {
      forall m | 0 <= m < |w.bands[l].decs| ensures w.bands[l].decs[m].id == id ==> l == k && m == j {
        if w.bands[l].decs[m].id == id {
          assert HasAt(w, id, l, m);
        }
      }
    }
  }

  lemma StepKept(s: State, a: Action)
    requires Invariant(s) && Enabled(s, a)
    ensures Invariant(Next(s, a))
  {
    hide WorkersOk, AddressesOk, IdsOk, QueuesOk, Next, Enabled;
    WorkersKept(s, a);
    AddressesKept(s, a);
    IdsKept(s, a);
    QueuesKept(s, a);
  }

  lemma AddBegin(s0: State, freq: real, baud: int)
    requires Invariant(s0) && s0.workers != []
    ensures Execute(s0, BeginScan(s0.nextId, freq, baud, 0))
         == s0.(nextId := s0.nextId + 1, adders := s0.adders[s0.nextId := Adder(freq, baud, 0, None, NO_LOAD)])
  {
    ExecuteOne(s0, [], Begin(freq, baud));
    assert [] + [Begin(freq, baud)] == [Begin(freq, baud)];
  }

  lemma AddScan(s0: State, id: nat, freq: real, baud: int, i: nat)
    requires var s := Execute(s0, BeginScan(id, freq, baud, i));
             i < |s.workers| == |s.tallies| && id in s.adders && s.adders[id].next == i
    ensures var s := Execute(s0, BeginScan(id, freq, baud, i));
            var w := s.workers[i];
            Execute(s0, BeginScan(id, freq, baud, i + 1))
              == s.(adders := s.adders[id := ScanBands(s.adders[id], i, w, |w.bands|).(next := i + 1)])
    ensures var s := Execute(s0, BeginScan(id, freq, baud, i));
            var r := ScanBands(s.adders[id], i, s.workers[i], |s.workers[i].bands|);
            r.freq == s.adders[id].freq && r.baud == s.adders[id].baud
  {
    var s := Execute(s0, BeginScan(id, freq, baud, i));
    ExecuteOne(s0, BeginScan(id, freq, baud, i), Scan(id));
    var k := ScanIsLeast(s.adders[id], i, s.workers[i], |s.workers[i].bands|);
  }

  lemma PlaceIs(s: State, id: nat)
    requires |s.tallies| == |s.workers| && id in s.adders && s.adders[id].next == |s.workers|
    requires s.adders[id].best.Some? ==> s.adders[id].best.value.worker < |s.workers|
    ensures Enabled(s, Place(id)) <==> s.adders[id].best.Some?
    ensures s.adders[id].best.Some? ==>
              var d := s.adders[id];
              var i := d.best.value.worker;
              var found := FindBand(s.workers[i].bands, d.best.value.key);
              var dec := Dec(id, d.baud, d.freq, d.freq);
              Next(s, Place(id)) ==
                if found.Some? then
                  s.(workers := s.workers[i := Placed(s.workers[i], found.value, dec)], adders := s.adders - {id})
                else s.(adders := s.adders[id := d.(best := None)])
  {
  }

  lemma CreateIs(s: State, id: nat, w: nat, rate: real)
    requires w < |s.workers| == |s.tallies| && rate > 0.0 && (id in s.adders ==> s.adders[id].next == |s.workers|)
    ensures Enabled(s, Create(id, w, rate)) <==> id in s.adders && s.adders[id].best.None?
    ensures Enabled(s, Create(id, w, rate)) ==>
              var d := s.adders[id];
              var b := Band(|s.places|, Site(d.freq, rate), []);
              Next(s, Create(id, w, rate))
                == s.(workers := s.workers[w := Created(s.workers[w], b, Dec(id, d.baud, d.freq, d.freq))],
                      adders := s.adders - {id}, places := s.places + [Site(d.freq, rate)])
  {
  }

  /** The end of addDecoder, from the state after the scan. */
  lemma AddEnd(s0: State, id: nat, freq: real, baud: int, rate: real)
    requires Invariant(s0) && s0.workers != [] && rate > 0.0
    requires var s := Execute(s0, BeginScan(id, freq, baud, |s0.workers|));
             && s.workers == s0.workers && id in s.adders && s.adders[id].next == |s.workers|
             && s.adders[id].freq == freq && s.adders[id].baud == baud
    ensures var s := Execute(s0, BeginScan(id, freq, baud, |s0.workers|));
            var t := Execute(s0, Adding(id, freq, baud, s0.workers, rate));
            var dec := Dec(id, baud, freq, freq);
            var d := s.adders[id];
            && (d.best.Some? ==> d.best.value.worker < |s.workers|)
            && t.nextId == s.nextId && t.drops == s.drops && t.adders == s.adders - {id}
            && if d.best.Some? && FindBand(s.workers[d.best.value.worker].bands, d.best.value.key).Some? then
                 var i := d.best.value.worker;
                 && t.workers == s.workers[i :=
                      Placed(s.workers[i], FindBand(s.workers[i].bands, d.best.value.key).value, dec)]
                 && t.places == s.places
               else
                 var k := Lightest(s.workers);
                 && t.workers == s.workers[k := Created(s.workers[k], Band(|s.places|, Site(freq, rate), []), dec)]
                 && t.places == s.places + [Site(freq, rate)]
  {
    var scan := BeginScan(id, freq, baud, |s0.workers|);
    var s := Execute(s0, scan);
    InvariantKept(s0, scan);
    AdderKnown(s, id);
    var t := Execute(s0, scan + [Place(id)]);
    hide Invariant, Placed, Created, BeginScan, Lightest, Next, Enabled, Execute, FindBand;
    ExecuteOne(s0, scan, Place(id));
    ExecuteOne(s0, scan + [Place(id)], Create(id, Lightest(s0.workers), rate));
    PlaceIs(s, id);
    CreateIs(t, id, Lightest(s0.workers), rate);
  }

  lemma AdderKnown(s: State, id: nat)
    requires Invariant(s) && id in s.adders
    ensures AdderOk(s, s.adders[id]) && |s.tallies| == |s.workers|
  {
  }

  ghost predicate ScannedTo(s0: State, s: State, freq: real, baud: int, i: nat) {
    && s.workers == s0.workers && |s.tallies| == |s.workers| && s.places == s0.places
    && i <= |s0.workers| && s.adders == s0.adders[s0.nextId := ScanWorkers(freq, baud, s0.workers, i)]
    && Held(s, s0.nextId) == 1 && s.nextId == s0.nextId + 1
    && var d := s.adders[s0.nextId]; d.next == i && d.freq == freq && d.baud == baud
  }

  lemma {:induction false} ScanKeeps(s0: State, freq: real, baud: int, i: nat)
    requires Invariant(s0) && s0.workers != [] && i <= |s0.workers|
    ensures ScannedTo(s0, Execute(s0, BeginScan(s0.nextId, freq, baud, i)), freq, baud, i)
  {
    hide Invariant, Held, Execute, BeginScan, ScannedTo;
    var id := s0.nextId;
    if i == 0 {
      SameSizes(s0);
      IdIsNew(s0);
      AddBegin(s0, freq, baud);
      NoneScanned(s0, freq, baud);
    } else {
      ScanKeeps(s0, freq, baud, i - 1);
      var s := Execute(s0, BeginScan(id, freq, baud, i - 1));
      ScanSizes(s0, s, freq, baud, i - 1);
      AddScan(s0, id, freq, baud, i - 1);
      OneScanned(s0, s, freq, baud, i - 1);
    }
  }

  lemma ScanSizes(s0: State, s: State, freq: real, baud: int, i: nat)
    requires ScannedTo(s0, s, freq, baud, i)
    ensures s.workers == s0.workers && |s.tallies| == |s.workers|
    ensures s0.nextId in s.adders && s.adders[s0.nextId].next == i
  {
  }

  lemma NoneScanned(s0: State, freq: real, baud: int)
    requires |s0.tallies| == |s0.workers| && Held(s0, s0.nextId) == 0 && s0.nextId !in s0.adders
    ensures var a := Adder(freq, baud, 0, None, NO_LOAD);
            ScannedTo(s0, s0.(nextId := s0.nextId + 1, adders := s0.adders[s0.nextId := a]), freq, baud, 0)
  {
    var a := Adder(freq, baud, 0, None, NO_LOAD);
    var n := s0.(nextId := s0.nextId + 1, adders := s0.adders[s0.nextId := a]);
    AdderAside(s0, n, s0.nextId);
    hide Held;
  }

  lemma OneScanned(s0: State, s: State, freq: real, baud: int, i: nat)
    requires ScannedTo(s0, s, freq, baud, i) && i < |s.workers|
    ensures var id, w := s0.nextId, s.workers[i];
            var a := ScanBands(s.adders[id], i, w, |w.bands|).(next := i + 1);
            ScannedTo(s0, s.(adders := s.adders[id := a]), freq, baud, i + 1)
  {
    hide Held, ScanBands;
    var id, w := s0.nextId, s.workers[i];
    var n := s.(adders := s.adders[id := ScanBands(s.adders[id], i, w, |w.bands|).(next := i + 1)]);
    var k := ScanIsLeast(s.adders[id], i, w, |w.bands|);
    AdderAside(s, n, id);
    assert n.adders == s0.adders[id := ScanWorkers(freq, baud, s0.workers, i + 1)];
  }

  lemma AdderAside(s: State, n: State, id: nat)
    requires n.workers == s.workers
    ensures Held(n, id) - (if id in n.adders then 1 else 0) == Held(s, id) - (if id in s.adders then 1 else 0)
  {
  }

  lemma IdIsNew(s: State)
    requires Invariant(s)
    ensures Held(s, s.nextId) == 0 && s.nextId !in s.adders
  {
    assert Held(s, s.nextId) <= 0;
  }

  /** Where a new decoder goes: into the first sub-band of least load that covers its frequency, among all
      that may be taken, or into a new one on the lightest worker if there are none. */
  ghost predicate WellPlaced(ws: seq<Worker>, places: seq<Site>, ws': seq<Worker>, places': seq<Site>,
                             d: Dec, rate: real)
    requires ws != []
  {
    if exists i, k :: Candidate(ws, d.freq, i, k) then
      && places' == places
      && exists i: nat, k: nat :: Chosen(ws, d.freq, |ws|, i, k) && ws' == ws[i := Placed(ws[i], k, d)]
    else
      var site, w := Site(d.freq, rate), Lightest(ws);
      places' == places + [site] && ws' == ws[w := Created(ws[w], Band(|places|, site, []), d)]
  }

  lemma KeyFound(s: State, i: nat, k: nat)
    requires Invariant(s) && i < |s.workers| && k < |s.workers[i].bands|
    ensures FindBand(s.workers[i].bands, s.workers[i].bands[k].key) == Some(k)
  {
    assert Registered(s.places, s.workers[i].bands);
    FirstBand(s.workers[i].bands, s.workers[i].bands[k].key, k);
  }

  /** An undisturbed addDecoder puts the decoder there. */
  lemma AddingChooses(s0: State, freq: real, baud: int, rate: real)
    requires Invariant(s0) && s0.workers != [] && rate > 0.0
    ensures var t := Execute(s0, Adding(s0.nextId, freq, baud, s0.workers, rate));
            && WellPlaced(s0.workers, s0.places, t.workers, t.places, Dec(s0.nextId, baud, freq, freq), rate)
            && t.nextId == s0.nextId + 1 && t.adders == s0.adders
  {
    hide Invariant, Execute, Adding, BeginScan, Held, Lightest, FindBand, Placed, Created, Candidate;
    var id, ws, n := s0.nextId, s0.workers, |s0.workers|;
    IdIsNew(s0);
    ScanKeeps(s0, freq, baud, n);
    AddEnd(s0, id, freq, baud, rate);
    assert s0.adders[id := ScanWorkers(freq, baud, ws, n)] - {id} == s0.adders;
    var i, k := ScanChooses(freq, baud, ws, n);
    if ScanWorkers(freq, baud, ws, n).best.Some? {
      assert Candidate(ws, freq, i, k);
      CandidateIs(ws, freq, i, k);
      KeyFound(s0, i, k);
    } else {
      forall j: nat, l: nat ensures !Candidate(ws, freq, j, l) {
        CandidateIs(ws, freq, j, l);
      }
    }
  }

  /** The worker with a decoder more in its sub-band k. */
  ghost predicate Joined(w: Worker, w': Worker, k: nat, d: Dec)
    requires k < |w.bands|
  {
    && w'.bands == w.bands[k := Band(w.bands[k].key, w.bands[k].site, w.bands[k].decs + [d])]
    && Charged(w, w', d.baud) && w'.queue == w.queue
  }

  /** One decoder more in number, and its share in weight: 1 for EGC, 2 for 8400 and 10500 baud, otherwise 3. */
  ghost predicate Charged(w: Worker, w': Worker, baud: int) {
    && w'.count == w.count + 1
    && w'.weight - w.weight == if baud == 1 then 1 else if baud in {8400, 10500} then 2 else 3
  }

  /** The first worker with the least sum of its weight and five for every sub-band. */
  ghost predicate LeastWorker(ws: seq<Worker>, i: nat) {
    && i < |ws|
    && (forall j :: 0 <= j < |ws| ==> ws[i].weight + 5 * |ws[i].bands| <= ws[j].weight + 5 * |ws[j].bands|)
    && (forall j :: 0 <= j < i ==> ws[i].weight + 5 * |ws[i].bands| < ws[j].weight + 5 * |ws[j].bands|)
  }

  /** What a caller of addDecoder may rely on. The decoder joins the first of the sub-bands with the fewest
      decoders, among those that reach its frequency and have fewer than four; if there are none, the first of
      those with the least burden; and if there are none of these, it gets a sub-band of its own. Other workers
      stay as they are. */
  ghost predicate Promised(ws: seq<Worker>, places: seq<Site>, ws': seq<Worker>, places': seq<Site>,
                           d: Dec, rate: real) {
    |ws'| == |ws| &&
    if exists i: nat, k: nat :: Free(ws, d.freq, i, k) then
      && places' == places
      && exists i: nat, k: nat ::
           FewestFree(ws, d.freq, i, k) && Joined(ws[i], ws'[i], k, d) && ws' == ws[i := ws'[i]]
    else if exists i: nat, k: nat :: Bearable(ws, d.freq, i, k) then
      && places' == places
      && exists i: nat, k: nat ::
           LeastBearable(ws, d.freq, i, k) && Joined(ws[i], ws'[i], k, d) && ws' == ws[i := ws'[i]]
    else
      && places' == places + [Site(d.freq, rate)]
      && exists i: nat ::
           && LeastWorker(ws, i) && ws' == ws[i := ws'[i]] && Charged(ws[i], ws'[i], d.baud)
           && ws'[i].bands == ws[i].bands + [Band(|places|, Site(d.freq, rate), [d])] && ws'[i].queue == ws[i].queue
  }

  lemma PlacedJoins(w: Worker, k: nat, d: Dec)
    requires k < |w.bands|
    ensures Joined(w, Placed(w, k, d), k, d)
  {
  }

  lemma CreatedCharges(w: Worker, b: Band, d: Dec)
    ensures Charged(w, Created(w, b, d), d.baud)
    ensures Created(w, b, d).bands == w.bands + [b.(decs := [d])] && Created(w, b, d).queue == w.queue
  {
  }

  lemma WeightsNotNegative(s: State)
    requires Invariant(s)
    ensures forall i :: 0 <= i < |s.workers| ==> s.workers[i].weight >= 0
  {
    forall i | 0 <= i < |s.workers| ensures s.workers[i].weight >= 0 {
      assert WorkerOk(s.workers[i], s.tallies[i]);
    }
  }

  lemma LightestIsLeast(ws: seq<Worker>)
    requires ws != []
    ensures LeastWorker(ws, Lightest(ws))
  {
    hide Lightest;
    assert forall j :: 0 <= j < |ws| ==> Effective(ws[j]) == ws[j].weight + 5 * |ws[j].bands|;
  }

  lemma PlacedAsPromised(s0: State, freq: real, baud: int, rate: real)
    requires Invariant(s0) && s0.workers != [] && rate > 0.0
    ensures var t := Execute(s0, Adding(s0.nextId, freq, baud, s0.workers, rate));
            Promised(s0.workers, s0.places, t.workers, t.places, Dec(s0.nextId, baud, freq, freq), rate)
  {
    hide Invariant, Execute, Adding, Lightest, Placed, Created, Joined, Charged, Candidate, Chosen, Free, Bearable,
         FewestFree, LeastBearable, LeastWorker;
    var ws, d := s0.workers, Dec(s0.nextId, baud, freq, freq);
    var t := Execute(s0, Adding(s0.nextId, freq, baud, ws, rate));
    AddingChooses(s0, freq, baud, rate);
    WeightsNotNegative(s0);
    forall i: nat, k: nat
      ensures Candidate(ws, freq, i, k) <==> Free(ws, freq, i, k) || Bearable(ws, freq, i, k)
    {
      CandidateMeans(ws, freq, i, k);
    }
    if exists i, k :: Candidate(ws, freq, i, k) {
      var i, k := WherePlaced(ws, s0.places, t.workers, t.places, d, rate);
      ChosenMeans(ws, freq, i, k);
      PlacedJoins(ws[i], k, d);
      assert t.workers == ws[i := t.workers[i]];
    } else {
      var i := Lightest(ws);
      LightestIsLeast(ws);
      CreatedCharges(ws[i], Band(|s0.places|, Site(freq, rate), []), d);
      assert t.workers == ws[i := t.workers[i]];
    }
  }

  lemma WherePlaced(ws: seq<Worker>, places: seq<Site>, ws': seq<Worker>, places': seq<Site>, d: Dec, rate: real)
    returns (i: nat, k: nat)
    requires ws != [] && WellPlaced(ws, places, ws', places', d, rate) && exists i, k :: Candidate(ws, d.freq, i, k)
    ensures i < |ws| && k < |ws[i].bands| && Candidate(ws, d.freq, i, k) && Chosen(ws, d.freq, |ws|, i, k)
    ensures ws' == ws[i := Placed(ws[i], k, d)]
  {
    i, k :| Chosen(ws, d.freq, |ws|, i, k) && ws' == ws[i := Placed(ws[i], k, d)];
  }

  lemma CandidateIs(ws: seq<Worker>, freq: real, i: nat, k: nat)
    ensures Candidate(ws, freq, i, k) ==> i < |ws| && k < |ws[i].bands|
  {
  }

  /** So a sub-band is made exactly if none of those that cover the frequency may be taken. */
  lemma NewBandIff(s0: State, freq: real, baud: int, rate: real)
    requires Invariant(s0) && s0.workers != [] && rate > 0.0
    ensures Execute(s0, Adding(s0.nextId, freq, baud, s0.workers, rate)).places == s0.places
       <==> exists i, k :: Candidate(s0.workers, freq, i, k)
  {
    hide Invariant, Execute, Adding;
    AddingChooses(s0, freq, baud, rate);
  }

  /** Afterwards a decoder has the new identifier. */
  lemma AddingHeld(s0: State, freq: real, baud: int, rate: real)
    requires Invariant(s0) && s0.workers != [] && rate > 0.0
    ensures var t := Execute(s0, Adding(s0.nextId, freq, baud, s0.workers, rate));
            Held(t, s0.nextId) == 1 && s0.nextId !in t.adders
  {
    var id, scan := s0.nextId, BeginScan(s0.nextId, freq, baud, |s0.workers|);
    var s, t := Execute(s0, scan), Execute(s0, scan + [Place(s0.nextId)]);
    hide Invariant, Execute, BeginScan, Held, Lightest, Next, Enabled, FindBand, Placed, Created;
    ScanKeeps(s0, freq, baud, |s0.workers|);
    InvariantKept(s0, scan);
    AdderKnown(s, id);
    var create := Create(id, Lightest(s0.workers), rate);
    ExecuteOne(s0, scan, Place(id));
    ExecuteOne(s0, scan + [Place(id)], create);
    PlaceIs(s, id);
    if Enabled(s, Place(id)) {
      HeldKept(s, Place(id), id);
    }
    CreateIs(t, id, Lightest(s0.workers), rate);
    if Enabled(t, create) {
      HeldKept(t, create, id);
    }
  }

  lemma ClearNone(s0: State)
    ensures Execute(s0, ClearingOne(0)) == s0
  {
  }

  lemma ClearStep(s0: State, i: nat)
    requires var s := Execute(s0, ClearingOne(i)); i < |s.workers| == |s.tallies|
    ensures var s, n := Execute(s0, ClearingOne(i)), Execute(s0, ClearingOne(i + 1));
            && n.workers == s.workers[i := s.workers[i].(bands := [], count := 0, queue := [])]
            && n.nextId == s.nextId && n.drops == s.drops && n.places == s.places && |n.tallies| == |n.workers|
  {
    ExecuteOne(s0, ClearingOne(i), ClearBands(i));
    ExecuteOne(s0, ClearingOne(i) + [ClearBands(i)], ClearQueue(i));
  }

  lemma FeedStart(s0: State)
    requires |s0.tallies| == |s0.workers| && s0.feeder.next == |s0.workers| && !s0.feeder.pushing
    ensures Execute(s0, FeedingOne(0)) == s0.(feeder := Feeder(s0.feeder.block + 1, 0, false))
  {
    ExecuteOne(s0, [], NextBlock);
    assert [] + [NextBlock] == [NextBlock];
  }

  function Fed(w: Worker, b: nat): Worker {
    if w.count == 0 then w else w.(queue := (if |w.queue| >= MAX_QUEUE then w.queue[1..] else w.queue) + [b])
  }

  lemma FeedStep(s0: State, i: nat)
    requires var s := Execute(s0, FeedingOne(i));
             i < |s.workers| == |s.tallies| && s.feeder.next == i && !s.feeder.pushing
    ensures var s, n := Execute(s0, FeedingOne(i)), Execute(s0, FeedingOne(i + 1));
            && n.workers == s.workers[i := Fed(s.workers[i], s.feeder.block)]
            && n.nextId == s.nextId && n.places == s.places && |n.tallies| == |n.workers|
            && n.drops == s.drops + (if s.workers[i].count != 0 && |s.workers[i].queue| >= MAX_QUEUE then 1 else 0)
            && n.feeder == Feeder(s.feeder.block, i + 1, false)
  {
    ExecuteOne(s0, FeedingOne(i), FeedCheck);
    ExecuteOne(s0, FeedingOne(i) + [FeedCheck], FeedPush);
  }

  lemma SameSizes(s: State)
    requires Invariant(s)
    ensures |s.tallies| == |s.workers|
  {
  }

  lemma RemoveNone(s0: State, id: nat)
    ensures Execute(s0, Removing(id, 0)) == s0
  {
  }

  lemma RemoveStep(s0: State, id: nat, i: nat)
    requires var s := Execute(s0, Removing(id, i)); i < |s.workers| == |s.tallies|
    ensures var s := Execute(s0, Removing(id, i));
            Execute(s0, Removing(id, i + 1)) == s.(workers := s.workers[i := Removed(s.workers[i], id)])
  {
    ExecuteOne(s0, Removing(id, i), Remove(i, id));
  }

  // ---------- a removed decoder is nowhere else ----------

  lemma {:induction false} SumAtLeast<T>(s: seq<T>, k: nat, f: T -> nat)
    requires k < |s|
    ensures Sum(s, f) >= f(s[k])
  {
    if k < |s| - 1 {
      SumAtLeast(s[..|s| - 1], k, f);
    }
  }

  lemma HomeHas(w: Worker, id: nat)
    requires FindHome(w.bands, id).Some?
    ensures WorkerHas(id)(w) > 0
  {
    var k := FindHome(w.bands, id).value;
    var j := FindDec(w.bands[k].decs, id).value;
    SumAtLeast(w.bands[k].decs, j, DecHas(id));
    SumAtLeast(w.bands, k, BandHas(id));
  }

  lemma NotHeldNoHome(s: State, id: nat, w: nat)
    requires Held(s, id) == 0 && w < |s.workers|
    ensures FindHome(s.workers[w].bands, id).None?
  {
    hide WorkerHas;
    SumAtLeast(s.workers, w, WorkerHas(id));
    if FindHome(s.workers[w].bands, id).Some? {
      HomeHas(s.workers[w], id);
    }
  }

  /** Once the decoder has been removed from worker i, the remaining workers have nothing to remove. */
  lemma RemovedElsewhere(s0: State, id: nat, i: nat, n: nat)
    requires Invariant(s0) && i < n == |s0.workers| && |Execute(s0, Removing(id, i)).workers| == n
    requires FindHome(Execute(s0, Removing(id, i)).workers[i].bands, id).Some?
    ensures Execute(s0, Removing(id, n)) == Execute(s0, Removing(id, i + 1))
  {
    hide Invariant, Execute, Removing, FindHome, Held;
    InvariantKept(s0, Removing(id, i));
    HeldOnce(s0, id, i);
    NothingMore(s0, id, i + 1, n);
  }

  lemma HeldOnce(s0: State, id: nat, i: nat)
    requires var t := Execute(s0, Removing(id, i));
             Invariant(t) && i < |t.workers| && FindHome(t.workers[i].bands, id).Some?
    ensures Held(Execute(s0, Removing(id, i + 1)), id) == 0
  {
    var t := Execute(s0, Removing(id, i));
    assert IdsOk(t) && |t.tallies| == |t.workers|;
    hide WorkersOk, AddressesOk, QueuesOk, WorkerHas, Held, Removed, IdsOk;
    HomeHas(t.workers[i], id);
    RemoveFrees(t, i, id);
    ExecuteOne(s0, Removing(id, i), Remove(i, id));
  }

  lemma RemoveIdle(s: State, w: nat, id: nat)
    requires Enabled(s, Remove(w, id)) && Held(s, id) == 0
    ensures Next(s, Remove(w, id)) == s
  {
    NotHeldNoHome(s, id, w);
  }

  lemma {:induction false} NothingMore(s0: State, id: nat, i: nat, n: nat)
    requires i <= n && Held(Execute(s0, Removing(id, i)), id) == 0
    ensures Execute(s0, Removing(id, n)) == Execute(s0, Removing(id, i))
  {
    if i < n {
      NothingMore(s0, id, i, n - 1);
      var t := Execute(s0, Removing(id, n - 1));
      ExecuteOne(s0, Removing(id, n - 1), Remove(n - 1, id));
      hide Held, Execute, Removing, Next, Enabled, FindHome;
      if Enabled(t, Remove(n - 1, id)) {
        RemoveIdle(t, n - 1, id);
      }
    }
  }

  lemma NoHomeNone(w: Worker, id: nat)
    requires FindHome(w.bands, id).None?
    ensures WorkerHas(id)(w) == 0
  {
    forall k | 0 <= k < |w.bands| ensures BandHas(id)(w.bands[k]) == 0 {
      SumZero(w.bands[k].decs, DecHas(id));
    }
    SumZero(w.bands, BandHas(id));
  }

  /** Up to worker i: either the decoder has been removed, or nothing has changed and no worker has it. */
  lemma {:induction false} RemovedOrNowhere(s0: State, id: nat, i: nat)
    requires Invariant(s0) && i <= |s0.workers|
    ensures var t := Execute(s0, Removing(id, i));
            Held(t, id) == 0 || (t == s0 && forall j :: 0 <= j < i ==> FindHome(s0.workers[j].bands, id).None?)
  {
    hide Invariant, Held, Execute, Removing, FindHome, Removed, Next, Enabled, Sum;
    if i == 0 {
      RemoveNone(s0, id);
    } else {
      RemovedOrNowhere(s0, id, i - 1);
      InvariantKept(s0, Removing(id, i - 1));
      var t := Execute(s0, Removing(id, i - 1));
      if Held(t, id) == 0 {
        NothingMore(s0, id, i - 1, i);
      } else if FindHome(s0.workers[i - 1].bands, id).Some? {
        HeldOnce(s0, id, i - 1);
      } else {
        SameSizes(s0);
        RemoveStep(s0, id, i - 1);
        NotRemoved(s0.workers[i - 1], id);
      }
    }
  }

  lemma NotRemoved(w: Worker, id: nat)
    requires FindHome(w.bands, id).None?
    ensures Removed(w, id) == w
  {
  }

  /** removeDecoder leaves no decoder with the identifier, unless one is still being added. */
  lemma RemovingFrees(s0: State, id: nat)
    requires Invariant(s0) && id !in s0.adders
    ensures Held(Execute(s0, Removing(id, |s0.workers|)), id) == 0
  {
    RemovedOrNowhere(s0, id, |s0.workers|);
    hide Invariant, Execute, Removing, WorkerHas;
    if Execute(s0, Removing(id, |s0.workers|)) == s0 && Held(s0, id) != 0 {
      forall j | 0 <= j < |s0.workers| ensures WorkerHas(id)(s0.workers[j]) == 0 {
        NoHomeNone(s0.workers[j], id);
      }
      SumZero(s0.workers, WorkerHas(id));
      assert false;
    }
  }
}
