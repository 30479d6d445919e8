/** What holds of the decoder manager however its threads interleave. */
module ManagerInvariant {
  import opened Options
  import opened ManagerSteps

  // ---------- one worker's decoders ----------

  /** A sub-band is never empty, and its decoders were placed within reach of its centre. */
  ghost predicate BandOk(b: Band) {
    b.decs != [] && forall j :: 0 <= j < |b.decs| ==> Covers(b.site, b.decs[j].placed)
  }

  /** `count` is the number of decoders held. `weight` is their weight and that of all decoders which
      removeAll ever took away. */
  ghost predicate WorkerOk(w: Worker, t: Tally) {
    && (forall k :: 0 <= k < |w.bands| ==> BandOk(w.bands[k]))
    && w.count == Sum(w.bands, BandSize)
    && w.weight == Sum(w.bands, BandWeight) + t.surplus
  }

  lemma PlacedOk(w: Worker, t: Tally, k: nat, d: Dec)
    requires WorkerOk(w, t) && k < |w.bands| && Covers(w.bands[k].site, d.placed)
    ensures WorkerOk(Placed(w, k, d), t)
  {
    var b := w.bands[k].(decs := w.bands[k].decs + [d]);
    SumAppend(w.bands[k].decs, d, Heaviness);
    SumUpdate(w.bands, k, b, BandSize);
    SumUpdate(w.bands, k, b, BandWeight);
  }

  lemma CreatedOk(w: Worker, t: Tally, b: Band, d: Dec)
    requires WorkerOk(w, t) && b.site.rate > 0.0 && d.placed == b.site.centre
    ensures WorkerOk(Created(w, b, d), t)
  {
    var c := b.(decs := [d]);
    SumAppend([], d, Heaviness);
    assert [] + [d] == [d];
    SumAppend(w.bands, c, BandSize);
    SumAppend(w.bands, c, BandWeight);
  }

  lemma RemovedOk(w: Worker, t: Tally, id: nat)
    requires WorkerOk(w, t)
    ensures WorkerOk(Removed(w, id), t)
  {
    var home := FindHome(w.bands, id);
    if home.Some? {
      var k := home.value;
      var j := FindDec(w.bands[k].decs, id).value;
      var rest := Without(w.bands[k].decs, j);
      var b := w.bands[k].(decs := rest);
      SumWithout(w.bands[k].decs, j, Heaviness);
      assert BandOk(w.bands[k]);
      if rest == [] {
        SumWithout(w.bands, k, BandSize);
        SumWithout(w.bands, k, BandWeight);
      } else {
        SumUpdate(w.bands, k, b, BandSize);
        SumUpdate(w.bands, k, b, BandWeight);
        assert BandOk(b);
      }
    }
  }

  lemma RetunedOk(w: Worker, t: Tally, id: nat, freq: real)
    requires WorkerOk(w, t)
    ensures WorkerOk(Retuned(w, id, freq), t)
  {
    var home := FindHome(w.bands, id);
    if home.Some? {
      var k := home.value;
      var decs := w.bands[k].decs;
      var j := FindDec(decs, id).value;
      var b := w.bands[k].(decs := decs[j := decs[j].(freq := freq)]);
      assert BandOk(w.bands[k]);
      SumUpdate(decs, j, decs[j].(freq := freq), Heaviness);
      SumUpdate(w.bands, k, b, BandSize);
      SumUpdate(w.bands, k, b, BandWeight);
      assert BandOk(b);
    }
  }

  ghost predicate WorkersOk(s: State) {
    |s.tallies| == |s.workers| && forall i :: 0 <= i < |s.workers| ==> WorkerOk(s.workers[i], s.tallies[i])
  }

  // ---------- sub-band addresses ----------

  /** What a thread in addDecoder remembers stays good: the sub-band it has chosen covers its frequency,
      whether or not it still exists. */
  ghost predicate AdderOk(s: State, a: Adder) {
    && a.next <= |s.workers|
    && (a.best.Some? ==>
          && a.best.value.worker < |s.workers| && a.best.value.key < |s.places|
          && Covers(s.places[a.best.value.key], a.freq))
  }

  /** Sub-bands are where they were made, and no two have the same address. */
  ghost predicate Registered(places: seq<Site>, bands: seq<Band>) {
    && (forall k :: 0 <= k < |bands| ==> bands[k].key < |places| && bands[k].site == places[bands[k].key])
    && forall j, k :: 0 <= j < k < |bands| ==> bands[j].key != bands[k].key
  }

  ghost predicate AddressesOk(s: State) {
    && (forall i :: 0 <= i < |s.workers| ==> Registered(s.places, s.workers[i].bands))
    && (forall id :: id in s.adders ==> AdderOk(s, s.adders[id]))
  }

  lemma {:induction false} ScanFinds(s: State, a: Adder, i: nat, w: Worker, n: nat)
    requires i < |s.workers| && n <= |w.bands| && Registered(s.places, w.bands) && AdderOk(s, a)
    ensures AdderOk(s, ScanBands(a, i, w, n)) && ScanBands(a, i, w, n).next == a.next
    ensures ScanBands(a, i, w, n).freq == a.freq && ScanBands(a, i, w, n).baud == a.baud
  {
    if n > 0 {
      ScanFinds(s, a, i, w, n - 1);
    }
  }

  /** Sub-band k of the first n is the first that covers the frequency with the least load. */
  ghost predicate FirstLeast(a: Adder, w: Worker, n: nat, k: nat)
    requires k < n <= |w.bands|
  {
    && Covers(w.bands[k].site, a.freq)
    && (forall j :: 0 <= j < n && Covers(w.bands[j].site, a.freq) ==> Load(w, w.bands[k]) <= Load(w, w.bands[j]))
    && (forall j :: 0 <= j < k && Covers(w.bands[j].site, a.freq) ==> Load(w, w.bands[k]) < Load(w, w.bands[j]))
  }

  /** The scan picks the first of the least loaded sub-bands that cover the frequency, if it is better
      than what was found on other workers; otherwise it changes nothing. */
  lemma {:induction false} ScanIsLeast(a: Adder, i: nat, w: Worker, n: nat) returns (k: nat)
    requires n <= |w.bands|
    ensures var r := ScanBands(a, i, w, n);
            if forall j :: 0 <= j < n && Covers(w.bands[j].site, a.freq) ==> Load(w, w.bands[j]) >= a.load then r == a
            else
              && k < n && FirstLeast(a, w, n, k)
              && r == a.(best := Some(Choice(i, w.bands[k].key)), load := Load(w, w.bands[k]))
  {
    k := 0;
    if n > 0 {
      k := ScanIsLeast(a, i, w, n - 1);
      var r := ScanBands(a, i, w, n - 1);
      if Covers(w.bands[n - 1].site, a.freq) && Load(w, w.bands[n - 1]) < r.load {
        k := n - 1;
      }
    }
  }

  lemma PlacedRegistered(places: seq<Site>, w: Worker, k: nat, d: Dec)
    requires Registered(places, w.bands) && k < |w.bands|
    ensures Registered(places, Placed(w, k, d).bands)
  {
  }

  lemma CreatedRegistered(places: seq<Site>, w: Worker, b: Band, d: Dec)
    requires Registered(places, w.bands) && b.key == |places|
    ensures Registered(places + [b.site], Created(w, b, d).bands)
  {
  }

  lemma RemovedRegistered(places: seq<Site>, w: Worker, id: nat)
    requires Registered(places, w.bands)
    ensures Registered(places, Removed(w, id).bands)
  {
    hide FindHome, FindDec;
  }

  lemma RetunedRegistered(places: seq<Site>, w: Worker, id: nat, freq: real)
    requires Registered(places, w.bands)
    ensures Registered(places, Retuned(w, id, freq).bands)
  {
    hide FindHome, FindDec;
  }

  /** A step that changes one worker, may make a sub-band, and may end a thread in addDecoder. */
  lemma WorkerStep(s: State, n: State, i: nat)
    requires AddressesOk(s) && i < |s.workers| == |n.workers| && n.workers == s.workers[i := n.workers[i]]
    requires |s.places| <= |n.places| && n.places[..|s.places|] == s.places
    requires Registered(n.places, n.workers[i].bands)
    requires forall id :: id in n.adders ==> id in s.adders && n.adders[id] == s.adders[id]
    ensures AddressesOk(n)
  {
    forall k | 0 <= k < |n.workers| ensures Registered(n.places, n.workers[k].bands) {
      assert Registered(s.places, s.workers[k].bands);
      assert forall j :: 0 <= j < |s.places| ==> n.places[j] == s.places[j];
    }
    forall id | id in n.adders ensures AdderOk(n, n.adders[id]) {
      assert AdderOk(s, s.adders[id]);
      assert forall j :: 0 <= j < |s.places| ==> n.places[j] == s.places[j];
    }
  }

  lemma AddressesKept(s: State, a: Action)
    requires AddressesOk(s) && Enabled(s, a)
    ensures AddressesOk(Next(s, a))
  {
    var n := Next(s, a);
    hide Registered, Placed, Created, Removed, Retuned, ScanBands, FindBand;
    match a
    case Begin(_, _) => AddersChanged(s, n);
    case Scan(id) =>
      var d := s.adders[id];
      ScanFinds(s, d, d.next, s.workers[d.next], |s.workers[d.next].bands|);
      AddersChanged(s, n);
    case Place(id) =>
      var d := s.adders[id];
      var i := d.best.value.worker;
      var found := FindBand(s.workers[i].bands, d.best.value.key);
      if found.Some? {
        PlacedRegistered(s.places, s.workers[i], found.value, Dec(id, d.baud, d.freq, d.freq));
        WorkerStep(s, n, i);
      } else {
        AddersChanged(s, n);
      }
    case Create(id, i, rate) =>
      var d := s.adders[id];
      var b := Band(|s.places|, Site(d.freq, rate), []);
      CreatedRegistered(s.places, s.workers[i], b, Dec(id, d.baud, d.freq, d.freq));
      WorkerStep(s, n, i);
    case Remove(i, id) =>
      RemovedRegistered(s.places, s.workers[i], id);
      WorkerStep(s, n, i);
    case Retune(i, id, freq) =>
      RetunedRegistered(s.places, s.workers[i], id, freq);
      WorkerStep(s, n, i);
    case ClearBands(i) =>
      NoneRegistered(s.places);
      WorkerStep(s, n, i);
    case ClearQueue(i) => WorkerStep(s, n, i);
    case Pop(i) => WorkerStep(s, n, i);
    case FeedPush => WorkerStep(s, n, s.feeder.next);
    case _ => AddersChanged(s, n);
  }

  lemma NoneRegistered(places: seq<Site>)
    ensures Registered(places, [])
  {
  }

  lemma AddersChanged(s: State, n: State)
    requires AddressesOk(s) && n.workers == s.workers && n.places == s.places
    requires forall id :: id in n.adders ==> AdderOk(s, n.adders[id])
    ensures AddressesOk(n)
  {
    hide Registered;
    forall id | id in n.adders ensures AdderOk(n, n.adders[id]) {
      assert AdderOk(s, n.adders[id]);
    }
  }

  // ---------- identifiers ----------

  /** How often a channel identifier is in use: by decoders, or by a thread about to place one. */
  ghost function Held(s: State, id: nat): nat {
    Sum(s.workers, WorkerHas(id)) + if id in s.adders then 1 else 0
  }

  /** Every identifier is used at most once, and only after it has been given out. */
  ghost predicate IdsOk(s: State) {
    forall id: nat :: Held(s, id) <= if id < s.nextId then 1 else 0
  }

  lemma PlacedHas(w: Worker, k: nat, d: Dec, id: nat)
    requires k < |w.bands|
    ensures WorkerHas(id)(Placed(w, k, d)) == WorkerHas(id)(w) + if d.id == id then 1 else 0
  {
    var b := w.bands[k].(decs := w.bands[k].decs + [d]);
    SumAppend(w.bands[k].decs, d, DecHas(id));
    SumUpdate(w.bands, k, b, BandHas(id));
  }

  lemma CreatedHas(w: Worker, b: Band, d: Dec, id: nat)
    ensures WorkerHas(id)(Created(w, b, d)) == WorkerHas(id)(w) + if d.id == id then 1 else 0
  {
    SumAppend([], d, DecHas(id));
    assert [] + [d] == [d];
    SumAppend(w.bands, b.(decs := [d]), BandHas(id));
  }

  lemma RemovedHas(w: Worker, gone: nat, id: nat)
    ensures WorkerHas(id)(Removed(w, gone)) <= WorkerHas(id)(w)
    ensures id == gone && WorkerHas(id)(w) > 0 ==> WorkerHas(id)(Removed(w, gone)) == WorkerHas(id)(w) - 1
    ensures id != gone ==> WorkerHas(id)(Removed(w, gone)) == WorkerHas(id)(w)
  {
    var home := FindHome(w.bands, gone);
    if home.Some? {
      var k := home.value;
      var j := FindDec(w.bands[k].decs, gone).value;
      var rest := Without(w.bands[k].decs, j);
      SumWithout(w.bands[k].decs, j, DecHas(id));
      if rest == [] {
        SumWithout(w.bands, k, BandHas(id));
      } else {
        SumUpdate(w.bands, k, w.bands[k].(decs := rest), BandHas(id));
      }
    } else {
      forall k | 0 <= k < |w.bands| ensures BandHas(gone)(w.bands[k]) == 0 {
        SumZero(w.bands[k].decs, DecHas(gone));
      }
      SumZero(w.bands, BandHas(gone));
    }
  }

  lemma RetunedHas(w: Worker, which: nat, freq: real, id: nat)
    ensures WorkerHas(id)(Retuned(w, which, freq)) == WorkerHas(id)(w)
  {
    var home := FindHome(w.bands, which);
    if home.Some? {
      var k := home.value;
      var decs := w.bands[k].decs;
      var j := FindDec(decs, which).value;
      SumUpdate(decs, j, decs[j].(freq := freq), DecHas(id));
      SumUpdate(w.bands, k, w.bands[k].(decs := decs[j := decs[j].(freq := freq)]), BandHas(id));
    }
  }

  /** A step that changes one worker, and what that does to an identifier. */
  lemma HeldAfter(s: State, n: State, i: nat, id: nat)
    requires i < |s.workers| == |n.workers| && n.workers == s.workers[i := n.workers[i]]
    ensures Sum(n.workers, WorkerHas(id)) + WorkerHas(id)(s.workers[i])
         == Sum(s.workers, WorkerHas(id)) + WorkerHas(id)(n.workers[i])
  {
    SumUpdate(s.workers, i, n.workers[i], WorkerHas(id));
  }

  lemma IdsKept(s: State, a: Action)
    requires IdsOk(s) && Enabled(s, a)
    ensures IdsOk(Next(s, a))
  {
    var n := Next(s, a);
    hide WorkerHas, Placed, Created, Removed, Retuned, ScanBands;
    forall id: nat ensures Held(n, id) <= if id < n.nextId then 1 else 0 {
      assert Held(s, id) <= if id < s.nextId then 1 else 0;
      HeldKept(s, a, id);
    }
  }

  /** Only addDecoder brings an identifier into use, a new one; only removal takes one out of use. */
  lemma HeldKept(s: State, a: Action, id: nat)
    requires Enabled(s, a)
    ensures a.Begin? && id == s.nextId && id !in s.adders ==> Held(Next(s, a), id) == Held(s, id) + 1
    ensures !(a.Begin? && id == s.nextId) ==> Held(Next(s, a), id) <= Held(s, id)
    ensures !a.Begin? && !a.Remove? && !a.ClearBands? ==> Held(Next(s, a), id) == Held(s, id)
  {
    var n := Next(s, a);
    hide WorkerHas, Placed, Created, Removed, Retuned, ScanBands;
    match a
    case Place(i) =>
      var d := s.adders[i];
      var w := d.best.value.worker;
      var found := FindBand(s.workers[w].bands, d.best.value.key);
      if found.Some? {
        PlacedHas(s.workers[w], found.value, Dec(i, d.baud, d.freq, d.freq), id);
        HeldAfter(s, n, w, id);
      }
    case Create(i, w, rate) =>
      var d := s.adders[i];
      CreatedHas(s.workers[w], Band(|s.places|, Site(d.freq, rate), []), Dec(i, d.baud, d.freq, d.freq), id);
      HeldAfter(s, n, w, id);
    case Remove(w, i) =>
      RemovedHas(s.workers[w], i, id);
      HeldAfter(s, n, w, id);
    case Retune(w, i, freq) =>
      RetunedHas(s.workers[w], i, freq, id);
      HeldAfter(s, n, w, id);
    case ClearBands(w) =>
      ClearedHas(n.workers[w], id);
      HeldAfter(s, n, w, id);
    case ClearQueue(w) =>
      QueueHas(s.workers[w], n.workers[w], id);
      HeldAfter(s, n, w, id);
    case Pop(w) =>
      QueueHas(s.workers[w], n.workers[w], id);
      HeldAfter(s, n, w, id);
    case FeedPush =>
      QueueHas(s.workers[s.feeder.next], n.workers[s.feeder.next], id);
      HeldAfter(s, n, s.feeder.next, id);
    case _ =>
  }

  lemma ClearedHas(w: Worker, id: nat)
    requires w.bands == []
    ensures WorkerHas(id)(w) == 0
  {
  }

  lemma QueueHas(w: Worker, v: Worker, id: nat)
    requires v.bands == w.bands
    ensures WorkerHas(id)(v) == WorkerHas(id)(w)
  {
  }

  /** Removing a decoder where it is takes its identifier out of use for good. */
  lemma RemoveFrees(s: State, w: nat, id: nat)
    requires IdsOk(s) && Enabled(s, Remove(w, id)) && WorkerHas(id)(s.workers[w]) > 0
    ensures Held(Next(s, Remove(w, id)), id) == 0
  {
    hide WorkerHas, Removed;
    assert Held(s, id) <= 1;
    RemovedHas(s.workers[w], id, id);
    HeldAfter(s, Next(s, Remove(w, id)), w, id);
  }

  // ---------- queues ----------

  ghost predicate Increasing(s: seq<nat>) {
    forall i, j :: 0 <= i < j < |s| ==> s[i] < s[j]
  }

  /** The queue is the end of what was accepted, in the order it was fed; every block is accepted and
      popped at most once, in that order; and nothing is lost without being counted. */
  ghost predicate QueueOk(q: seq<nat>, t: Tally, bound: nat) {
    && |q| <= MAX_QUEUE && |q| <= |t.accepted| && q == t.accepted[|t.accepted| - |q|..]
    && |t.accepted| == |t.popped| + |q| + t.dropped + t.cleared
    && Increasing(t.accepted) && Increasing(t.popped)
    && (forall k :: 0 <= k < |t.popped| ==> t.popped[k] in t.accepted[..|t.accepted| - |q|])
    && (forall k :: 0 <= k < |t.accepted| ==> t.accepted[k] < bound)
  }

  /** A worker that the feeder still has to visit has not yet got the current block. */
  function Bound(f: Feeder, i: nat): nat {
    if i < f.next then f.block + 1 else f.block
  }

  ghost predicate QueuesOk(s: State) {
    && |s.tallies| == |s.workers| && s.feeder.next <= |s.workers|
    && (forall i :: 0 <= i < |s.workers| ==> QueueOk(s.workers[i].queue, s.tallies[i], Bound(s.feeder, i)))
    && s.drops == Sum(s.tallies, Drops)
  }

  lemma QueueRaised(q: seq<nat>, t: Tally, bound: nat, more: nat)
    requires QueueOk(q, t, bound) && bound <= more
    ensures QueueOk(q, t, more)
  {
  }

  lemma Cleared(q: seq<nat>, t: Tally, bound: nat)
    requires QueueOk(q, t, bound)
    ensures QueueOk([], t.(cleared := t.cleared + |q|), bound)
  {
    assert forall k :: 0 <= k < |t.popped| ==> t.popped[k] in t.accepted[..|t.accepted| - |q|];
  }

  lemma Popped(q: seq<nat>, t: Tally, bound: nat)
    requires QueueOk(q, t, bound) && q != []
    ensures QueueOk(q[1..], t.(popped := t.popped + [q[0]]), bound)
  {
    var k := |t.accepted| - |q|;
    assert t.accepted[k] == q[0] && t.accepted[k + 1..] == q[1..];
    var popped := t.popped + [q[0]];
    forall i | 0 <= i < |popped| ensures popped[i] in t.accepted[..k + 1] {
      if i < |t.popped| {
        var j :| 0 <= j < k && t.accepted[..k][j] == t.popped[i];
        assert t.accepted[..k + 1][j] == popped[i];
      } else {
        assert t.accepted[..k + 1][k] == popped[i];
      }
    }
    forall i | 0 <= i < |t.popped| ensures t.popped[i] < q[0] {
      var j :| 0 <= j < k && t.accepted[..k][j] == t.popped[i];
    }
  }

  lemma Dequeued(q: seq<nat>, t: Tally, bound: nat)
    requires QueueOk(q, t, bound) && q != []
    ensures QueueOk(q[1..], t.(dropped := t.dropped + 1), bound)
  {
    var k := |t.accepted| - |q|;
    assert t.accepted[k + 1..] == q[1..];
    forall i | 0 <= i < |t.popped| ensures t.popped[i] in t.accepted[..k + 1] {
      var j :| 0 <= j < k && t.accepted[..k][j] == t.popped[i];
      assert t.accepted[..k + 1][j] == t.popped[i];
    }
  }

  lemma Enqueued(q: seq<nat>, t: Tally, b: nat)
    requires QueueOk(q, t, b) && |q| < MAX_QUEUE
    ensures QueueOk(q + [b], t.(accepted := t.accepted + [b]), b + 1)
  {
    var k := |t.accepted| - |q|;
    assert (t.accepted + [b])[k..] == q + [b];
    assert (t.accepted + [b])[..k] == t.accepted[..k];
  }

  lemma QueueStep(s: State, n: State, i: nat)
    requires QueuesOk(s) && i < |s.workers| == |n.workers| == |n.tallies| && n.feeder.next <= |n.workers|
    requires n.workers == s.workers[i := n.workers[i]] && n.tallies == s.tallies[i := n.tallies[i]]
    requires QueueOk(n.workers[i].queue, n.tallies[i], Bound(n.feeder, i))
    requires forall j :: 0 <= j < |s.workers| && j != i ==> Bound(s.feeder, j) <= Bound(n.feeder, j)
    requires n.drops + s.tallies[i].dropped == s.drops + n.tallies[i].dropped
    ensures QueuesOk(n)
  {
    hide QueueOk, Bound;
    forall j | 0 <= j < |n.workers| ensures QueueOk(n.workers[j].queue, n.tallies[j], Bound(n.feeder, j)) {
      if j != i {
        QueueRaised(s.workers[j].queue, s.tallies[j], Bound(s.feeder, j), Bound(n.feeder, j));
      }
    }
    SumUpdate(s.tallies, i, n.tallies[i], Drops);
  }

  lemma FeederMoved(s: State, n: State)
    requires QueuesOk(s) && n.workers == s.workers && n.tallies == s.tallies && n.drops == s.drops
    requires n.feeder == s.feeder || n.feeder.next <= |n.workers|
    requires forall j :: 0 <= j < |s.workers| ==> Bound(s.feeder, j) <= Bound(n.feeder, j)
    ensures QueuesOk(n)
  {
    hide QueueOk, Bound;
    forall j | 0 <= j < |n.workers| ensures QueueOk(n.workers[j].queue, n.tallies[j], Bound(n.feeder, j)) {
      QueueRaised(s.workers[j].queue, s.tallies[j], Bound(s.feeder, j), Bound(n.feeder, j));
    }
  }

  /** A step that changes only which decoders a worker has. */
  lemma BandsStep(s: State, n: State, i: nat)
    requires QueuesOk(s) && i < |s.workers| == |n.workers| && n.workers == s.workers[i := n.workers[i]]
    requires n.workers[i].queue == s.workers[i].queue
    requires n.tallies == s.tallies && n.drops == s.drops && n.feeder == s.feeder
    ensures QueuesOk(n)
  {
    hide QueueOk, Bound;
  }

  lemma PlacingKeepsQueues(s: State, a: Action)
    requires QueuesOk(s) && Enabled(s, a) && (a.Begin? || a.Scan? || a.Place? || a.Create? || a.Remove? || a.Retune?)
    ensures QueuesOk(Next(s, a))
  {
    var n := Next(s, a);
    hide QueuesOk, FindDec, FindHome, Without;
    match a
    case Begin(_, _) => FeederMoved(s, n);
    case Scan(_) => FeederMoved(s, n);
    case Place(id) =>
      var i := s.adders[id].best.value.worker;
      if FindBand(s.workers[i].bands, s.adders[id].best.value.key).Some? {
        BandsStep(s, n, i);
      } else {
        FeederMoved(s, n);
      }
    case Create(id, i, rate) => BandsStep(s, n, i);
    case Remove(i, id) => BandsStep(s, n, i);
    case Retune(i, id, freq) => BandsStep(s, n, i);
  }

  lemma QueuesKept(s: State, a: Action)
    requires QueuesOk(s) && Enabled(s, a)
    ensures QueuesOk(Next(s, a))
  {
    var n := Next(s, a);
    hide QueueOk, Placed, Created, Removed, Retuned, ScanBands, FindBand, Sum;
    match a
    case ClearBands(i) =>
      SameQueue(s.workers[i].queue, s.tallies[i], n.tallies[i], Bound(s.feeder, i));
      QueueStep(s, n, i);
    case ClearQueue(i) =>
      Cleared(s.workers[i].queue, s.tallies[i], Bound(s.feeder, i));
      QueueStep(s, n, i);
    case Pop(i) =>
      Popped(s.workers[i].queue, s.tallies[i], Bound(s.feeder, i));
      QueueStep(s, n, i);
    case FeedPush => PushKept(s);
    case FeedCheck => FeederMoved(s, n);
    case NextBlock => FeederMoved(s, n);
    case _ => PlacingKeepsQueues(s, a);
  }

  lemma SameQueue(q: seq<nat>, t: Tally, t': Tally, bound: nat)
    requires QueueOk(q, t, bound) && t' == t.(surplus := t'.surplus)
    ensures QueueOk(q, t', bound)
  {
  }

  lemma PushKept(s: State)
    requires QueuesOk(s) && Enabled(s, FeedPush)
    ensures QueuesOk(Next(s, FeedPush))
  {
    hide QueueOk;
    var n, i, b := Next(s, FeedPush), s.feeder.next, s.feeder.block;
    var q, t := s.workers[i].queue, s.tallies[i];
    if |q| >= MAX_QUEUE {
      Dequeued(q, t, b);
      AtMost(q, t, b);
      Enqueued(q[1..], t.(dropped := t.dropped + 1), b);
    } else {
      Enqueued(q, t, b);
    }
    QueueStep(s, n, i);
  }

  lemma AtMost(q: seq<nat>, t: Tally, bound: nat)
    requires QueueOk(q, t, bound)
    ensures |q| <= MAX_QUEUE
  {
  }

  // ---------- every interleaving ----------

  lemma SurplusAdded(w: Worker, t: Tally, v: Worker, t': Tally)
    requires WorkerOk(w, t) && v == w.(bands := [], count := 0, queue := v.queue)
    requires t' == t.(surplus := t.surplus + Sum(w.bands, BandWeight))
    ensures WorkerOk(v, t')
  {
  }

  /** Only bands, count, weight and surplus matter to a worker's decoders. */
  lemma QueueAside(w: Worker, t: Tally, v: Worker, t': Tally)
    requires WorkerOk(w, t) && v == w.(queue := v.queue) && t'.surplus == t.surplus
    ensures WorkerOk(v, t')
  {
  }

  lemma OneWorker(s: State, n: State, i: nat)
    requires WorkersOk(s) && i < |s.workers| == |n.workers| == |n.tallies|
    requires n.workers == s.workers[i := n.workers[i]] && n.tallies == s.tallies[i := n.tallies[i]]
    requires WorkerOk(n.workers[i], n.tallies[i])
    ensures WorkersOk(n)
  {
    hide WorkerOk;
  }

  lemma PlacingKeepsWorkers(s: State, a: Action)
    requires WorkersOk(s) && AddressesOk(s) && Enabled(s, a) && (a.Place? || a.Create? || a.Remove? || a.Retune?)
    ensures WorkersOk(Next(s, a))
  {
    var n := Next(s, a);
    hide WorkerOk, Placed, Created, Removed, Retuned, Covers;
    match a
    case Place(id) =>
      var d := s.adders[id];
      var i := d.best.value.worker;
      var found := FindBand(s.workers[i].bands, d.best.value.key);
      if found.Some? {
        assert AdderOk(s, d) && Registered(s.places, s.workers[i].bands);
        PlacedOk(s.workers[i], s.tallies[i], found.value, Dec(id, d.baud, d.freq, d.freq));
        OneWorker(s, n, i);
      }
    case Create(id, i, rate) =>
      var d := s.adders[id];
      CreatedOk(s.workers[i], s.tallies[i], Band(|s.places|, Site(d.freq, rate), []), Dec(id, d.baud, d.freq, d.freq));
      OneWorker(s, n, i);
    case Remove(i, id) =>
      RemovedOk(s.workers[i], s.tallies[i], id);
      OneWorker(s, n, i);
    case Retune(i, id, freq) =>
      RetunedOk(s.workers[i], s.tallies[i], id, freq);
      OneWorker(s, n, i);
  }

  lemma WorkersKept(s: State, a: Action)
    requires WorkersOk(s) && AddressesOk(s) && Enabled(s, a)
    ensures WorkersOk(Next(s, a))
  {
    var n := Next(s, a);
    hide WorkerOk, Placed, Created, Removed, Retuned, ScanBands, FindBand, Sum, Covers, AddressesOk;
    match a
    case Begin(_, _) =>
    case Scan(_) =>
    case ClearBands(i) =>
      SurplusAdded(s.workers[i], s.tallies[i], n.workers[i], n.tallies[i]);
      OneWorker(s, n, i);
    case ClearQueue(i) =>
      QueueAside(s.workers[i], s.tallies[i], n.workers[i], n.tallies[i]);
      OneWorker(s, n, i);
    case Pop(i) =>
      QueueAside(s.workers[i], s.tallies[i], n.workers[i], n.tallies[i]);
      OneWorker(s, n, i);
    case NextBlock =>
    case FeedCheck =>
    case FeedPush =>
      var i := s.feeder.next;
      QueueAside(s.workers[i], s.tallies[i], n.workers[i], n.tallies[i]);
      OneWorker(s, n, i);
    case _ => PlacingKeepsWorkers(s, a);
  }

  ghost predicate Invariant(s: State) {
    WorkersOk(s) && AddressesOk(s) && IdsOk(s) && QueuesOk(s)
  }

  const NOTHING_YET: Tally := Tally([], [], 0, 0, 0)

  const IDLE_WORKER: Worker := Worker([], 0, 0, [])

  /** n workers as they are started. */
  function Started(n: nat): State {
    State(seq(n, _ => IDLE_WORKER), seq(n, _ => NOTHING_YET), 1, [], 0, map[], Feeder(0, n, false))
  }

  lemma IdleOk()
    ensures WorkerOk(IDLE_WORKER, NOTHING_YET) && QueueOk(IDLE_WORKER.queue, NOTHING_YET, 0)
    ensures Registered([], IDLE_WORKER.bands)
  {
  }

  lemma NoneHeld(n: nat, id: nat)
    ensures Held(Started(n), id) == 0
  {
    var s := Started(n);
    forall k | 0 <= k < n ensures WorkerHas(id)(s.workers[k]) == 0 {
      ClearedHas(s.workers[k], id);
    }
    hide WorkerHas;
    SumZero(s.workers, WorkerHas(id));
  }

  lemma StartedOk(n: nat)
    ensures Invariant(Started(n))
  {
    var s := Started(n);
    IdleOk();
    SumZero(s.tallies, Drops);
    hide WorkerOk, QueueOk, Registered, Held;
    forall id: nat ensures Held(s, id) == 0 {
      NoneHeld(n, id);
    }
  }

  /** Any number of threads, taking steps in any order: each action is a step if some thread can take it,
      and is skipped if none can. */
  function Execute(s: State, actions: seq<Action>): State {
    if actions == [] then s
    else
      var n := |actions| - 1;
      var before := Execute(s, actions[..n]);
      if Enabled(before, actions[n]) then Next(before, actions[n]) else before
  }

  /** Whatever the interleaving: counts, weights, addresses, identifiers and queues are right. */
  lemma {:induction false} InvariantAlways(n: nat, actions: seq<Action>)
    ensures Invariant(Execute(Started(n), actions))
  {
    if actions == [] {
      StartedOk(n);
    } else {
      var k := |actions| - 1;
      InvariantAlways(n, actions[..k]);
      var s := Execute(Started(n), actions[..k]);
      hide WorkersOk, AddressesOk, IdsOk, QueuesOk, Next, Enabled, Started;
      if Enabled(s, actions[k]) {
        WorkersKept(s, actions[k]);
        AddressesKept(s, actions[k]);
        IdsKept(s, actions[k]);
        QueuesKept(s, actions[k]);
      }
    }
  }

  // ---------- when the weight is right ----------

  /** Step k is a removeAll that reaches worker i and finds a sub-band there. */
  ghost predicate FindsDecoders(n: nat, actions: seq<Action>, i: nat, k: nat)
    requires k < |actions|
  {
    var s := Execute(Started(n), actions[..k]);
    actions[k] == ClearBands(i) && i < |s.workers| && s.workers[i].bands != []
  }

  lemma {:induction false} SumPositive<T>(s: seq<T>, f: T -> nat)
    requires s != [] && forall k :: 0 <= k < |s| ==> f(s[k]) > 0
    ensures Sum(s, f) > 0
  {
    if |s| > 1 {
      SumPositive(s[..|s| - 1], f);
    }
  }

  /** Every sub-band has some weight, since none is empty. */
  lemma BandsWeigh(w: Worker, t: Tally)
    requires WorkerOk(w, t)
    ensures Sum(w.bands, BandWeight) > 0 <==> w.bands != []
  {
    forall k | 0 <= k < |w.bands| ensures BandWeight(w.bands[k]) > 0 {
      assert BandOk(w.bands[k]);
      SumPositive(w.bands[k].decs, Heaviness);
    }
    if w.bands != [] {
      SumPositive(w.bands, BandWeight);
    }
  }

  /** Only a removeAll that finds a decoder on worker i adds to its surplus, and it always does. */
  lemma SurplusStep(s: State, a: Action, i: nat)
    requires WorkersOk(s) && Enabled(s, a) && i < |s.workers|
    ensures var n := Next(s, a);
            && |n.workers| == |n.tallies| == |s.workers|
            && n.tallies[i].surplus >= s.tallies[i].surplus
            && (n.tallies[i].surplus > s.tallies[i].surplus <==> a == ClearBands(i) && s.workers[i].bands != [])
  {
    hide WorkerOk, ScanBands, FindBand, Placed, Created, Removed, Retuned, Sum;
    BandsWeigh(s.workers[i], s.tallies[i]);
  }

  lemma ClearEnabled(s: State, i: nat)
    requires i < |s.workers| == |s.tallies|
    ensures Enabled(s, ClearBands(i))
  {
  }

  lemma FindsEarlier(n: nat, actions: seq<Action>, i: nat, m: nat)
    requires m <= |actions|
    ensures forall k :: 0 <= k < m ==> FindsDecoders(n, actions[..m], i, k) == FindsDecoders(n, actions, i, k)
  {
    forall k | 0 <= k < m ensures FindsDecoders(n, actions[..m], i, k) == FindsDecoders(n, actions, i, k) {
      assert actions[..m][..k] == actions[..k];
    }
  }

  /** One more action: either nothing happens to the surplus, or worker i is cleared of decoders. */
  lemma SurplusGrows(n: nat, actions: seq<Action>, i: nat)
    requires i < n && actions != []
    ensures var m := |actions| - 1;
            var before, after := Execute(Started(n), actions[..m]), Execute(Started(n), actions);
            && |before.workers| == |before.tallies| == n ==>
            && |after.workers| == |after.tallies| == n
            && after.tallies[i].surplus >= before.tallies[i].surplus
            && (after.tallies[i].surplus > before.tallies[i].surplus <==> FindsDecoders(n, actions, i, m))
  {
    hide WorkersOk, AddressesOk, IdsOk, QueuesOk, Next, Enabled, Started;
    var m := |actions| - 1;
    var s := Execute(Started(n), actions[..m]);
    InvariantAlways(n, actions[..m]);
    if |s.workers| == |s.tallies| == n {
      ClearEnabled(s, i);
      if Enabled(s, actions[m]) {
        SurplusStep(s, actions[m], i);
      }
    }
  }

  lemma NothingAtFirst(n: nat)
    ensures var s := Execute(Started(n), []);
            |s.workers| == |s.tallies| == n && forall i :: 0 <= i < n ==> s.tallies[i].surplus == 0
  {
  }

  lemma {:induction false} SurplusExactly(n: nat, actions: seq<Action>, i: nat)
    requires i < n
    ensures var s := Execute(Started(n), actions);
            && |s.workers| == |s.tallies| == n
            && (s.tallies[i].surplus == 0 <==> forall k :: 0 <= k < |actions| ==> !FindsDecoders(n, actions, i, k))
  {
    hide FindsDecoders, Execute, Started;
    if actions == [] {
      NothingAtFirst(n);
    } else {
      var m := |actions| - 1;
      SurplusExactly(n, actions[..m], i);
      SurplusGrows(n, actions, i);
      FindsEarlier(n, actions, i, m);
    }
  }

  /** Over every interleaving a worker's `weight` is at least the weight of its decoders, and exactly that
      if and only if no removeAll has found a decoder on it. */
  lemma WeightExactly(n: nat, actions: seq<Action>, i: nat)
    requires i < n
    ensures var w := Execute(Started(n), actions).workers;
            && |w| == n && w[i].weight >= Sum(w[i].bands, BandWeight)
            && (w[i].weight == Sum(w[i].bands, BandWeight)
                <==> forall k :: 0 <= k < |actions| ==> !FindsDecoders(n, actions, i, k))
  {
    InvariantAlways(n, actions);
    SurplusExactly(n, actions, i);
    var s := Execute(Started(n), actions);
    hide Execute, Started, FindsDecoders;
    assert WorkerOk(s.workers[i], s.tallies[i]);
  }

  /** The shortest such history: after one decoder and a removeAll its weight is left on an empty worker. */
  lemma WeightStays(freq: real, baud: int, rate: real)
    requires rate > 0.0
    ensures var ws := Execute(Started(1), [Begin(freq, baud), Scan(1), Create(1, 0, rate), ClearBands(0)]).workers;
            |ws| == 1 && ws[0].bands == [] && ws[0].count == 0 && ws[0].weight == DecoderWeight(baud) > 0
  {
    var a, b, c, d := Begin(freq, baud), Scan(1), Create(1, 0, rate), ClearBands(0);
    var s0 := Started(1);
    var s1 := Next(s0, a);
    var s2 := Next(s1, b);
    var s3 := Next(s2, c);
    assert [a, b, c, d][..3] == [a, b, c] && [a, b, c][..2] == [a, b] && [a, b][..1] == [a] && [a][..0] == [];
    assert Execute(s0, [a]) == s1;
    assert Execute(s0, [a, b]) == s2;
    assert Execute(s0, [a, b, c]) == s3;
  }

  // ---------- what removing, retuning and reach mean ----------

  /** Decoder j of sub-band k is the first one of the worker with the identifier. */
  predicate FirstWith(w: Worker, id: nat, k: nat, j: nat) {
    && k < |w.bands| && j < |w.bands[k].decs| && w.bands[k].decs[j].id == id
    && (forall i :: 0 <= i < j ==> w.bands[k].decs[i].id != id)
    && forall l, i :: 0 <= l < k && 0 <= i < |w.bands[l].decs| ==> w.bands[l].decs[i].id != id
  }

  predicate NoneWith(w: Worker, id: nat) {
    forall l, i :: 0 <= l < |w.bands| && 0 <= i < |w.bands[l].decs| ==> w.bands[l].decs[i].id != id
  }

  lemma {:induction false} FindDecIsFirst(decs: seq<Dec>, id: nat)
    ensures var r := FindDec(decs, id); r.Some? ==> forall i :: 0 <= i < r.value ==> decs[i].id != id
  {
    if decs != [] {
      FindDecIsFirst(decs[..|decs| - 1], id);
    }
  }

  lemma {:induction false} FindHomeIsFirst(bands: seq<Band>, id: nat)
    ensures var r := FindHome(bands, id);
            r.Some? ==> forall l :: 0 <= l < r.value ==> FindDec(bands[l].decs, id).None?
  {
    if bands != [] {
      FindHomeIsFirst(bands[..|bands| - 1], id);
    }
  }

  lemma WhereFound(w: Worker, id: nat)
    ensures FindHome(w.bands, id).None? ==> NoneWith(w, id)
    ensures FindHome(w.bands, id).Some? ==>
              var k := FindHome(w.bands, id).value; FirstWith(w, id, k, FindDec(w.bands[k].decs, id).value)
  {
    FindHomeIsFirst(w.bands, id);
    if FindHome(w.bands, id).Some? {
      FindDecIsFirst(w.bands[FindHome(w.bands, id).value].decs, id);
    }
  }

  /** Retuning gives the decoder its new frequency, and changes nothing else. */
  lemma RetunedMeans(w: Worker, id: nat, freq: real) returns (k: nat, j: nat)
    ensures NoneWith(w, id) ==> Retuned(w, id, freq) == w
    ensures !NoneWith(w, id) ==> FirstWith(w, id, k, j)
    ensures FirstWith(w, id, k, j) ==>
              var d := w.bands[k].decs[j];
              var e := Dec(id, d.baud, d.placed, freq);
              Retuned(w, id, freq) == w.(bands := w.bands[k := w.bands[k].(decs := w.bands[k].decs[j := e])])
  {
    WhereFound(w, id);
    k, j := 0, 0;
    if FindHome(w.bands, id).Some? {
      k := FindHome(w.bands, id).value;
      j := FindDec(w.bands[k].decs, id).value;
    }
  }

  /** Removing takes the decoder out, its sub-band with it if it was the last, and its share of count and
      weight; it changes nothing else. */
  lemma RemovedMeans(w: Worker, id: nat) returns (k: nat, j: nat)
    ensures NoneWith(w, id) ==> Removed(w, id) == w
    ensures !NoneWith(w, id) ==> FirstWith(w, id, k, j)
    ensures FirstWith(w, id, k, j) ==>
              var b := w.bands[k];
              var baud := b.decs[j].baud;
              var share := if baud == 1 then 1 else if baud in {8400, 10500} then 2 else 3;
              Removed(w, id) == Worker(if |b.decs| == 1 then w.bands[..k] + w.bands[k + 1..]
                                       else w.bands[k := b.(decs := b.decs[..j] + b.decs[j + 1..])],
                                       w.count - 1, w.weight - share, w.queue)
  {
    WhereFound(w, id);
    k, j := 0, 0;
    if FindHome(w.bands, id).Some? {
      k := FindHome(w.bands, id).value;
      j := FindDec(w.bands[k].decs, id).value;
    }
  }

  /** After every interleaving, a decoder was placed within 0.40 of its sub-band's rate from the centre. */
  lemma PlacedWithinReach(n: nat, actions: seq<Action>, i: nat, k: nat, j: nat)
    requires var ws := Execute(Started(n), actions).workers;
             i < |ws| && k < |ws[i].bands| && j < |ws[i].bands[k].decs|
    ensures var b := Execute(Started(n), actions).workers[i].bands[k];
            -0.40 * b.site.rate < b.decs[j].placed - b.site.centre < 0.40 * b.site.rate
  {
    InvariantAlways(n, actions);
    var s := Execute(Started(n), actions);
    assert WorkerOk(s.workers[i], s.tallies[i]);
    assert BandOk(s.workers[i].bands[k]);
  }
}
