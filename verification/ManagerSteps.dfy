/** The decoder manager as a system of atomic steps.

    What each thread does while it holds a lock, or in one atomic operation, is one step. Threads may
    interleave in any way. */
module ManagerSteps {
  import opened Options

  const MAX_QUEUE: nat := 192

  /** A decoder, with the frequency it was placed for and the one it is tuned to. */
  datatype Dec = Dec(id: nat, baud: int, placed: real, freq: real)

  /** A sub-band. The key stands for its address. */
  datatype Band = Band(key: nat, site: Site, decs: seq<Dec>)

  datatype Worker = Worker(bands: seq<Band>, count: int, weight: int, queue: seq<nat>)

  /** What has gone through a worker: blocks accepted and popped, how many were dropped or cleared, and
      the weight of the decoders that removeAll took away. */
  datatype Tally = Tally(accepted: seq<nat>, popped: seq<nat>, dropped: nat, cleared: nat, surplus: nat)

  datatype Choice = Choice(worker: nat, key: nat)

  /** A thread in addDecoder: its request, the next worker to look at, and the best sub-band so far. */
  datatype Adder = Adder(freq: real, baud: int, next: nat, best: Option<Choice>, load: int)

  /** The feeding thread: the number of the block, the next worker, and whether that is to get it. */
  datatype Feeder = Feeder(block: nat, next: nat, pushing: bool)

  /** Centre and rate of a sub-band, which never change. */
  datatype Site = Site(centre: real, rate: real)

  /** All that the threads share, and where each of them is; `places` lists all sub-bands ever made. */
  datatype State = State(workers: seq<Worker>, tallies: seq<Tally>, nextId: nat, places: seq<Site>, drops: nat,
                         adders: map<nat, Adder>, feeder: Feeder)

  const NO_LOAD: int := 0x7FFF_FFFF

  function DecoderWeight(baud: int): nat {
    if baud == 1 then 1 else if baud == 8400 || baud == 10500 then 2 else 3
  }

  function Distance(a: real, b: real): real {
    if a < b then b - a else a - b
  }

  predicate Covers(p: Site, freq: real) {
    Distance(freq, p.centre) < 0.40 * p.rate
  }

  // ---------- sums ----------

  function Sum<T>(s: seq<T>, f: T -> nat): nat {
    if s == [] then 0 else Sum(s[..|s| - 1], f) + f(s[|s| - 1])
  }

  lemma SumAppend<T>(s: seq<T>, x: T, f: T -> nat)
    ensures Sum(s + [x], f) == Sum(s, f) + f(x)
  {
    assert (s + [x])[..|s|] == s;
  }

  lemma {:induction false} SumUpdate<T>(s: seq<T>, k: nat, x: T, f: T -> nat)
    requires k < |s|
    ensures Sum(s[k := x], f) + f(s[k]) == Sum(s, f) + f(x)
  {
    var n := |s| - 1;
    if k == n {
      assert s[k := x][..n] == s[..n];
    } else {
      assert s[k := x][..n] == s[..n][k := x];
      SumUpdate(s[..n], k, x, f);
    }
  }

  lemma {:induction false} SumWithout<T>(s: seq<T>, k: nat, f: T -> nat)
    requires k < |s|
    ensures Sum(Without(s, k), f) + f(s[k]) == Sum(s, f)
  {
    var n := |s| - 1;
    if k == n {
      assert Without(s, k) == s[..n];
    } else {
      assert Without(s, k) == Without(s[..n], k) + [s[n]];
      SumAppend(Without(s[..n], k), s[n], f);
      SumWithout(s[..n], k, f);
    }
  }

  lemma {:induction false} SumZero<T>(s: seq<T>, f: T -> nat)
    requires forall k :: 0 <= k < |s| ==> f(s[k]) == 0
    ensures Sum(s, f) == 0
  {
    if s != [] {
      SumZero(s[..|s| - 1], f);
    }
  }

  function Without<T>(s: seq<T>, k: nat): (r: seq<T>)
    requires k < |s|
    ensures |r| == |s| - 1
  {
    s[..k] + s[k + 1..]
  }

  function Heaviness(d: Dec): nat {
    DecoderWeight(d.baud)
  }

  function BandWeight(b: Band): nat {
    Sum(b.decs, Heaviness)
  }

  function BandSize(b: Band): nat {
    |b.decs|
  }

  /** How often an identifier is held by decoders, in sub-bands, by workers. */
  function DecHas(id: nat): Dec -> nat {
    (d: Dec) => if d.id == id then 1 else 0
  }

  function BandHas(id: nat): Band -> nat {
    (b: Band) => Sum(b.decs, DecHas(id))
  }

  function WorkerHas(id: nat): Worker -> nat {
    (w: Worker) => Sum(w.bands, BandHas(id))
  }

  function Drops(t: Tally): nat {
    t.dropped
  }

  // ---------- looking for a sub-band ----------

  /** How loaded a sub-band with its worker is; from four decoders on, the whole worker counts. */
  function Load(w: Worker, b: Band): int {
    if |b.decs| >= 4 then w.weight + |w.bands| * 10 + |b.decs| * 8 else |b.decs|
  }

  function ScanBand(a: Adder, i: nat, w: Worker, b: Band): Adder {
    if Covers(b.site, a.freq) && Load(w, b) < a.load then a.(best := Some(Choice(i, b.key)), load := Load(w, b)) else a
  }

  /** The first n sub-bands of worker i. */
  function ScanBands(a: Adder, i: nat, w: Worker, n: nat): Adder
    requires n <= |w.bands|
  {
    if n == 0 then a else ScanBand(ScanBands(a, i, w, n - 1), i, w, w.bands[n - 1])
  }

  /** The sub-band with a key, if the worker still has it. */
  function FindBand(bands: seq<Band>, key: nat): (r: Option<nat>)
    ensures r.Some? ==> r.value < |bands| && bands[r.value].key == key
    ensures r.None? ==> forall k :: 0 <= k < |bands| ==> bands[k].key != key
  {
    if bands == [] then None
    else
      var n := |bands| - 1;
      var r := FindBand(bands[..n], key);
      if r.Some? then r else if bands[n].key == key then Some(n) else None
  }

  // ---------- changing a worker ----------

  function Placed(w: Worker, k: nat, d: Dec): Worker
    requires k < |w.bands|
  {
    w.(bands := w.bands[k := w.bands[k].(decs := w.bands[k].decs + [d])],
       count := w.count + 1, weight := w.weight + DecoderWeight(d.baud))
  }

  function Created(w: Worker, b: Band, d: Dec): Worker {
    w.(bands := w.bands + [b.(decs := [d])], count := w.count + 1, weight := w.weight + DecoderWeight(d.baud))
  }

  function FindDec(decs: seq<Dec>, id: nat): (r: Option<nat>)
    ensures r.Some? ==> r.value < |decs| && decs[r.value].id == id
    ensures r.None? ==> forall k :: 0 <= k < |decs| ==> decs[k].id != id
  {
    if decs == [] then None
    else
      var n := |decs| - 1;
      var r := FindDec(decs[..n], id);
      if r.Some? then r else if decs[n].id == id then Some(n) else None
  }

  /** The first sub-band that has the decoder. */
  function FindHome(bands: seq<Band>, id: nat): (r: Option<nat>)
    ensures r.Some? ==> r.value < |bands| && FindDec(bands[r.value].decs, id).Some?
    ensures r.None? ==> forall k :: 0 <= k < |bands| ==> FindDec(bands[k].decs, id).None?
  {
    if bands == [] then None
    else
      var n := |bands| - 1;
      var r := FindHome(bands[..n], id);
      if r.Some? then r else if FindDec(bands[n].decs, id).Some? then Some(n) else None
  }

  /** The decoder is taken out, and its sub-band too if that is empty then. */
  function Removed(w: Worker, id: nat): Worker {
    var home := FindHome(w.bands, id);
    if home.None? then w
    else
      var k := home.value;
      var j := FindDec(w.bands[k].decs, id).value;
      var rest := Without(w.bands[k].decs, j);
      w.(bands := if rest == [] then Without(w.bands, k) else w.bands[k := w.bands[k].(decs := rest)],
         count := w.count - 1, weight := w.weight - DecoderWeight(w.bands[k].decs[j].baud))
  }

  function Retuned(w: Worker, id: nat, freq: real): Worker {
    var home := FindHome(w.bands, id);
    if home.None? then w
    else
      var k := home.value;
      var j := FindDec(w.bands[k].decs, id).value;
      var decs := w.bands[k].decs;
      w.(bands := w.bands[k := w.bands[k].(decs := decs[j := decs[j].(freq := freq)])])
  }

  // ---------- the steps ----------

  datatype Action =
    | Begin(freq: real, baud: int)
    | Scan(id: nat)
    | Place(id: nat)
    | Create(id: nat, worker: nat, rate: real)
    | Remove(worker: nat, id: nat)
    | Retune(worker: nat, id: nat, freq: real)
    | ClearBands(worker: nat)
    | ClearQueue(worker: nat)
    | NextBlock
    | FeedCheck
    | FeedPush
    | Pop(worker: nat)

  /** Whether a thread can take the step. */
  predicate Enabled(s: State, a: Action) {
    && |s.tallies| == |s.workers|
    && match a
       case Begin(_, _) => s.workers != []
       case Scan(id) => id in s.adders && s.adders[id].next < |s.workers|
       case Place(id) => id in s.adders && s.adders[id].next == |s.workers| && s.adders[id].best.Some?
                         && s.adders[id].best.value.worker < |s.workers|
       case Create(id, w, rate) => id in s.adders && s.adders[id].next == |s.workers| && s.adders[id].best.None?
                                   && w < |s.workers| && rate > 0.0
       case Remove(w, _) => w < |s.workers|
       case Retune(w, _, _) => w < |s.workers|
       case ClearBands(w) => w < |s.workers|
       case ClearQueue(w) => w < |s.workers|
       case NextBlock => s.feeder.next == |s.workers| && !s.feeder.pushing
       case FeedCheck => s.feeder.next < |s.workers| && !s.feeder.pushing
       case FeedPush => s.feeder.next < |s.workers| && s.feeder.pushing
       case Pop(w) => w < |s.workers| && s.workers[w].queue != []
  }

  function WithWorker(s: State, i: nat, w: Worker): State
    requires i < |s.workers|
  {
    s.(workers := s.workers[i := w])
  }

  function Next(s: State, a: Action): (n: State)
    requires Enabled(s, a)
  {
    match a
    case Begin(freq, baud) =>
      s.(nextId := s.nextId + 1, adders := s.adders[s.nextId := Adder(freq, baud, 0, None, NO_LOAD)])
    case Scan(id) =>
      var d := s.adders[id];
      var w := s.workers[d.next];
      s.(adders := s.adders[id := ScanBands(d, d.next, w, |w.bands|).(next := d.next + 1)])
    case Place(id) =>
      var d := s.adders[id];
      var i, found := d.best.value.worker, FindBand(s.workers[d.best.value.worker].bands, d.best.value.key);
      if found.Some? then
        WithWorker(s, i, Placed(s.workers[i], found.value, Dec(id, d.baud, d.freq, d.freq))).(adders := s.adders - {id})
      else
        s.(adders := s.adders[id := d.(best := None)])
    case Create(id, i, rate) =>
      var d := s.adders[id];
      WithWorker(s, i, Created(s.workers[i], Band(|s.places|, Site(d.freq, rate), []), Dec(id, d.baud, d.freq, d.freq)))
        .(adders := s.adders - {id}, places := s.places + [Site(d.freq, rate)])
    case Remove(i, id) => WithWorker(s, i, Removed(s.workers[i], id))
    case Retune(i, id, freq) => WithWorker(s, i, Retuned(s.workers[i], id, freq))
    case ClearBands(i) =>
      var t := s.tallies[i];
      WithWorker(s, i, s.workers[i].(bands := [], count := 0))
        .(tallies := s.tallies[i := t.(surplus := t.surplus + Sum(s.workers[i].bands, BandWeight))])
    case ClearQueue(i) =>
      var t := s.tallies[i];
      WithWorker(s, i, s.workers[i].(queue := []))
        .(tallies := s.tallies[i := t.(cleared := t.cleared + |s.workers[i].queue|)])
    case NextBlock => s.(feeder := Feeder(s.feeder.block + 1, 0, false))
    case FeedCheck =>
      if s.workers[s.feeder.next].count == 0 then s.(feeder := s.feeder.(next := s.feeder.next + 1))
      else s.(feeder := s.feeder.(pushing := true))
    case FeedPush =>
      var i, b := s.feeder.next, s.feeder.block;
      var q, t := s.workers[i].queue, s.tallies[i];
      var full := |q| >= MAX_QUEUE;
      WithWorker(s, i, s.workers[i].(queue := (if full then q[1..] else q) + [b]))
        .(tallies := s.tallies[i := t.(accepted := t.accepted + [b], dropped := t.dropped + if full then 1 else 0)],
          drops := s.drops + if full then 1 else 0,
          feeder := s.feeder.(next := i + 1, pushing := false))
    case Pop(i) =>
      var q, t := s.workers[i].queue, s.tallies[i];
      WithWorker(s, i, s.workers[i].(queue := q[1..])).(tallies := s.tallies[i := t.(popped := t.popped + [q[0]])])
  }
}
