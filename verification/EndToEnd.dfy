/** The receiver inverts the transmitter: over whole streams, in either polarity, and with errors. */
module EndToEnd {
  import opened Bits
  import opened Convolutional
  import opened FrameSync
  import opened Interleaver
  import opened EgcReceiver
  import opened ErrorEvents
  import opened Bursts
  import Scrambler
  import Viterbi
  import Optimality
  import Correction

  // ---------- the transmitter ----------

  predicate IsFrame(f: seq<int>) {
    |f| == 640 && forall k :: 0 <= k < 640 ==> 0 <= f[k] < 256
  }

  /** Whether the last byte, once scrambled, ends in the six zero bits that flush the encoder. */
  predicate Flushes(f: seq<int>)
    requires IsFrame(f)
  {
    Scrambler.Scrambled(f[639], 639) % 64 == 0
  }

  function Flatten(p: seq<Pair>): (s: seq<bit>)
    ensures |s| == 2 * |p|
    ensures forall i :: 0 <= i < |p| ==> s[2 * i] == p[i].a && s[2 * i + 1] == p[i].b
  {
    if p == [] then []
    else
      var n := |p| - 1;
      Flatten(p[..n]) + [p[n].a, p[n].b]
  }

  lemma PairsFlatten(p: seq<Pair>)
    ensures Pairs(Flatten(p)) == p
  {
  }

  /** Scramble, encode, interleave, and mark the rows with the unique word. */
  function Transmitted(q: Pattern, f: seq<int>): (tx: seq<bit>)
    requires q.Valid() && IsFrame(f)
    ensures |tx| == FRAME_LENGTH
  {
    Pack(q.word, Flatten(Encode(Scrambler.Message(f))))
  }

  /** What may arrive for a frame, in the right polarity: the unique word recognisable, and among the coded
      symbols no stretch with too many wrong ones. */
  ghost predicate Arrives(q: Pattern, f: seq<int>, rx: seq<bit>)
    requires q.Valid() && IsFrame(f)
  {
    |rx| == FRAME_LENGTH && CarriesWord(q, rx) && Scattered(Encode(Scrambler.Message(f)), Pairs(CodedOf(rx)))
  }

  // ---------- errors as distance ----------

  lemma {:induction false} DistanceIsErrors(a: seq<bit>, b: seq<bit>)
    requires |a| == |b| && |a| % 2 == 0
    ensures Distance(Pairs(a), Pairs(b)) == |Errors(a, b)|
  {
    if a == [] {
      assert Errors(a, b) == {};
    } else {
      var n := |a| - 2;
      var p, r := Pairs(a), Pairs(b);
      assert p[..|p| - 1] == Pairs(a[..n]) && r[..|r| - 1] == Pairs(b[..n]);
      DistanceIsErrors(a[..n], b[..n]);
      ErrorsSnoc(a, b);
      ErrorsSnoc(a[..n + 1], b[..n + 1]);
      assert a[..n + 1][..n] == a[..n] && b[..n + 1][..n] == b[..n];
    }
  }

  lemma ErrorsSnoc(a: seq<bit>, b: seq<bit>)
    requires |a| == |b| > 0
    ensures var n := |a| - 1; |Errors(a, b)| == |Errors(a[..n], b[..n])| + Xor(a[n], b[n])
  {
    var n := |a| - 1;
    var e := Errors(a[..n], b[..n]);
    assert Errors(a, b) == if a[n] != b[n] then e + {n} else e;
  }

  // ---------- one frame ----------

  lemma MessageTail(f: seq<int>)
    requires IsFrame(f)
    ensures |Scrambler.Message(f)| == 5120
    ensures Flushes(f) ==> Scrambler.Message(f)[5114..] == Zeros(6)
  {
    hide Scrambler.Scrambled, Scrambler.Message, Val, Pow2;
    var u := Scrambler.Message(f);
    Scrambler.MessageByte(f, 639);
    var last := u[5112..5120];
    Powers();
    Correction.SplitBy(last, 6, 64);
    assert last[2..] == u[5114..];
    if Flushes(f) {
      ValZeros(6);
      ValInjective(u[5114..], Zeros(6));
    }
  }

  /** One frame with scattered errors comes through the chain unchanged. */
  lemma FrameComesThrough(q: Pattern, g: Viterbi.Gains, f: seq<int>, rx: seq<bit>)
    requires q.Valid() && Optimality.IsCode(g) && g.Usable()
    requires IsFrame(f) && Flushes(f) && Arrives(q, f, rx)
    ensures Received(g, Reverse(rx)) == f
  {
    hide Viterbi.Decoded, Scrambler.Scrambled, Scrambler.Message, Scrambler.Descrambled, Flushes, CarriesWord,
         Encode, Scattered;
    var u := Scrambler.Message(f);
    MessageTail(f);
    assert Reverse(Reverse(rx)) == rx;
    var r := Pairs(CodedOf(rx));
    assert Correction.Near(u, r);
    Correction.CorrectsScatteredErrors(g, u, r);
    forall k | 0 <= k < 640 ensures Received(g, Reverse(rx))[k] == f[k] {
      Scrambler.MessageByte(f, k);
      Scrambler.DescrambleScramble(f[k], k);
    }
  }

  // ---------- what arrives ----------

  lemma SentPairs(q: Pattern, f: seq<int>)
    requires q.Valid() && IsFrame(f)
    ensures CodedOf(Transmitted(q, f)) == Flatten(Encode(Scrambler.Message(f)))
    ensures Pairs(CodedOf(Transmitted(q, f))) == Encode(Scrambler.Message(f))
  {
    var sent := Flatten(Encode(Scrambler.Message(f)));
    UnpackPack(q.word, sent);
    PairsFlatten(Encode(Scrambler.Message(f)));
  }

  /** Any four wrong symbols are few enough, wherever they are. */
  lemma FourErrorsArrive(q: Pattern, f: seq<int>, rx: seq<bit>)
    requires q.Valid() && IsFrame(f) && |rx| == FRAME_LENGTH && CarriesWord(q, rx)
    requires |DataErrors(Transmitted(q, f), rx)| <= 4
    ensures Arrives(q, f, rx)
  {
    hide Scrambler.Message, Encode, CarriesWord;
    var tx := Transmitted(q, f);
    hide Transmitted;
    SentPairs(q, f);
    UnpackedErrors(tx, rx);
    DistanceIsErrors(CodedOf(tx), CodedOf(rx));
    FourAreScattered(Encode(Scrambler.Message(f)), Pairs(CodedOf(rx)));
  }

  /** And so is a burst of two whole rows, 324 symbols in a row, wherever it strikes; six mismatches in the
      unique word have to be forgiven. */
  lemma BurstArrives(q: Pattern, f: seq<int>, rx: seq<bit>, start: nat)
    requires q.Valid() && q.tolerance >= 6 && IsFrame(f) && |rx| == FRAME_LENGTH
    requires forall k :: 0 <= k < FRAME_LENGTH && !InBurst(start, k) ==> Transmitted(q, f)[k] == rx[k]
    ensures Arrives(q, f, rx)
  {
    hide Scrambler.Message, Encode, Mismatch;
    var tx := Transmitted(q, f);
    PackedCarriesWord(q, Flatten(Encode(Scrambler.Message(f))));
    hide Transmitted;
    SentPairs(q, f);
    BurstIsScattered(start, tx, rx);
    BurstMismatch(start, q.word, tx, rx, (start + 160) / 162);
  }

  // ---------- whole streams ----------

  /** Once aligned, the receiver puts out exactly the frames that were sent back to back, in order, each
      in whatever polarity it came, with up to `tolerance` errors in its unique word and scattered ones in
      its data. */
  lemma StreamComesThrough(q: Pattern, g: Viterbi.Gains, s: State,
                           frames: seq<seq<int>>, rx: seq<seq<bit>>, reversed: seq<bool>)
    requires q.Unambiguous() && Optimality.IsCode(g) && g.Usable()
    requires s.Valid() && s.count == 0
    requires |frames| == |rx| == |reversed|
    requires forall i :: 0 <= i < |frames| ==> IsFrame(frames[i]) && Flushes(frames[i]) && Arrives(q, frames[i], rx[i])
    ensures var r := Run(q, s, Stream(rx, reversed));
            r.0.count == 0 && WellSized(r.1) && ReceivedAll(g, r.1) == frames
  {
    assert g.Valid();
    hide Run, Received, IsFrame, Flushes, Viterbi.Gains.Usable, Viterbi.Gains.Valid, Optimality.IsCode, Transmitted,
         CarriesWord;
    StaysAligned(q, s, rx, reversed);
    forall i | 0 <= i < |frames| ensures Received(g, Reverse(rx[i])) == frames[i] {
      FrameComesThrough(q, g, frames[i], rx[i]);
    }
  }

  lemma {:induction false} StreamHead(frames: seq<seq<bit>>, reversed: seq<bool>)
    requires |frames| == |reversed| > 0
    ensures Stream(frames, reversed) == InPolarity(frames[0], reversed[0]) + Stream(frames[1..], reversed[1..])
  {
    var n := |frames| - 1;
    if n == 0 {
      assert frames[..0] == [] && Stream(frames[..0], reversed[..0]) == [];
    } else {
      StreamHead(frames[..n], reversed[..n]);
      assert frames[..n][1..] == frames[1..][..n - 1] && reversed[..n][1..] == reversed[1..][..n - 1];
    }
  }

  /** From any state of the receiver whose counter counts: unless the word is seen while the first frame is
      still arriving, that frame is found and the whole stream comes through. */
  lemma StreamComesThroughFromAnywhere(q: Pattern, g: Viterbi.Gains, s: State,
                                       frames: seq<seq<int>>, rx: seq<seq<bit>>, reversed: seq<bool>)
    requires q.Unambiguous() && Optimality.IsCode(g) && g.Usable() && s.Valid()
    requires |frames| == |rx| == |reversed| > 0
    requires forall i :: 0 <= i < |frames| ==> IsFrame(frames[i]) && Flushes(frames[i]) && Arrives(q, frames[i], rx[i])
    requires |rx[0]| == FRAME_LENGTH && s.Listening()
    requires forall i :: 0 <= i < FRAME_LENGTH - 1 ==> !SeenAt(q, s, InPolarity(rx[0], reversed[0]), i)
    ensures var r := Run(q, s, Stream(rx, reversed));
            r.0.count == 0 && WellSized(r.1) && ReceivedAll(g, r.1) == frames
  {
    hide Run, Received, ReceivedAll, WellSized, Stream, Flushes, Arrives, IsFrame;
    FirstComesThrough(q, g, s, frames[0], rx[0], reversed[0]);
    var first, rest := InPolarity(rx[0], reversed[0]), Stream(rx[1..], reversed[1..]);
    var a := Run(q, s, first);
    StreamComesThrough(q, g, a.0, frames[1..], rx[1..], reversed[1..]);
    StreamHead(rx, reversed);
    RunConcat(q, s, first, rest);
    ReceivedHead(g, a.1, Run(q, a.0, rest).1);
    assert [frames[0]] + frames[1..] == frames;
  }

  lemma FirstComesThrough(q: Pattern, g: Viterbi.Gains, s: State, f: seq<int>, rx: seq<bit>, reversed: bool)
    requires q.Unambiguous() && Optimality.IsCode(g) && g.Usable() && s.Valid() && s.Listening()
    requires IsFrame(f) && Flushes(f) && Arrives(q, f, rx)
    requires forall i :: 0 <= i < FRAME_LENGTH - 1 ==> !SeenAt(q, s, InPolarity(rx, reversed), i)
    ensures var a := Run(q, s, InPolarity(rx, reversed));
            a.0.count == 0 && |a.1| == 1 && |a.1[0].symbols| == FRAME_LENGTH && Received(g, a.1[0].symbols) == f
  {
    FoundUnlessBusy(q, s, rx, reversed);
    FrameComesThrough(q, g, f, rx);
  }

  lemma ReceivedHead(g: Viterbi.Gains, a: seq<Frame>, b: seq<Frame>)
    requires g.Valid() && |a| == 1 && |a[0].symbols| == FRAME_LENGTH && WellSized(b)
    ensures WellSized(a + b) && ReceivedAll(g, a + b) == [Received(g, a[0].symbols)] + ReceivedAll(g, b)
  {
    hide Received;
    assert forall i :: 0 < i < |a + b| ==> (a + b)[i] == b[i - 1];
  }

  // ---------- exactly which frames survive ----------

  lemma ScrambleDescramble(y: nat, k: nat)
    requires y < 256
    ensures 0 <= Scrambler.Descrambled(y, k) < 256 && Scrambler.Scrambled(Scrambler.Descrambled(y, k), k) == y
  {
    assert Pow2(8) == 256;
    BitsOfVal(y, 8);
    Scrambler.BackwardsTwice(BitsOf(y, 8));
  }

  /** What arrives for a frame, right or with few errors, gives that frame exactly when it flushes the
      encoder. */
  lemma RoundTripIff(q: Pattern, g: Viterbi.Gains, f: seq<int>, rx: seq<bit>)
    requires q.Valid() && Optimality.IsCode(g) && g.Usable() && IsFrame(f) && Arrives(q, f, rx)
    ensures Received(g, Reverse(rx)) == f <==> Flushes(f)
  {
    hide Viterbi.Decoded, Scrambler.Scrambled, Scrambler.Descrambled, Transmitted;
    if Flushes(f) {
      FrameComesThrough(q, g, f, rx);
    }
    var r := Pairs(CodedOf(Reverse(Reverse(rx))));
    DecoderOutput(g, r);
    ScrambleDescramble(Viterbi.Decoded(g, r)[639], 639);
  }

  /** So a frame hit by such a burst comes through exactly when it flushes the encoder. */
  lemma BurstComesThrough(q: Pattern, g: Viterbi.Gains, f: seq<int>, rx: seq<bit>, start: nat)
    requires q.Valid() && q.tolerance >= 6 && Optimality.IsCode(g) && g.Usable() && IsFrame(f) && |rx| == FRAME_LENGTH
    requires forall k :: 0 <= k < FRAME_LENGTH && !InBurst(start, k) ==> Transmitted(q, f)[k] == rx[k]
    ensures CarriesWord(q, rx) && (Received(g, Reverse(rx)) == f <==> Flushes(f))
  {
    BurstArrives(q, f, rx, start);
    RoundTripIff(q, g, f, rx);
  }

  /** A frame may always arrive as it was sent. */
  lemma SentArrives(q: Pattern, f: seq<int>)
    requires q.Valid() && IsFrame(f)
    ensures Arrives(q, f, Transmitted(q, f))
  {
    hide Encode, Scrambler.Message;
    var tx := Transmitted(q, f);
    PackedCarriesWord(q, Flatten(Encode(Scrambler.Message(f))));
    assert DataErrors(tx, tx) == {};
    FourErrorsArrive(q, f, tx);
  }
}
