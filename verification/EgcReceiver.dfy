/** The whole Inmarsat-C chain, from hard symbols to frames, against a transmitter written as its
    specification. */
module EgcReceiver {
  import opened Bits
  import opened Convolutional
  import opened FrameSync
  import opened Interleaver
  import Scrambler
  import Viterbi

  // ---------- the chain for one frame ----------

  ghost function Received(g: Viterbi.Gains, symbols: seq<bit>): (frame: seq<int>)
    requires g.Valid() && |symbols| == FRAME_LENGTH
  {
    var vit := Viterbi.Decoded(g, Pairs(CodedOf(Reverse(symbols))));
    seq(|vit|, k requires 0 <= k < |vit| => Scrambler.Descrambled(vit[k], k))
  }

  predicate WellSized(frames: seq<Frame>) {
    forall i :: 0 <= i < |frames| ==> |frames[i].symbols| == FRAME_LENGTH
  }

  ghost function ReceivedAll(g: Viterbi.Gains, frames: seq<Frame>): (out: seq<seq<int>>)
    requires g.Valid() && WellSized(frames)
    ensures |out| == |frames|
  {
    seq(|frames|, i requires 0 <= i < |frames| => Received(g, frames[i].symbols))
  }

  class EgcDecoder {
    const uw: UwFinder
    const viterbi: Viterbi.Decoder
    var framesSynced: nat
    var lastBer: int
    /** The frames handed to the packet layer. */
    var frames: seq<seq<int>>

    ghost predicate Valid()
      reads this, uw, uw.reg
    {
      uw.Valid() && viterbi.g.Valid()
    }

    constructor (q: Pattern, g: Viterbi.Gains)
      requires q.Valid() && g.Valid()
      ensures Valid() && uw.q == q && viterbi.g == g && frames == [] && fresh(uw) && fresh(uw.reg)
      ensures uw.Model() == State(Zeros(REGISTER_LENGTH), FRAME_LENGTH - 1) && framesSynced == 0 && lastBer == -1
    {
      uw := new UwFinder(q);
      viterbi := new Viterbi.Decoder(g);
      framesSynced, lastBer := 0, -1;
      frames := [];
    }

    /** The bit loop: every symbol to the finder, every frame found through the chain. */
    method Process(bits: seq<bit>)
      requires Valid()
      modifies this, uw, uw.reg
      ensures Valid()
      ensures var r := Run(uw.q, old(uw.Model()), bits);
              && uw.Model() == r.0 && WellSized(r.1)
              && frames == old(frames) + ReceivedAll(viterbi.g, r.1)
              && framesSynced == old(framesSynced) + |r.1|
              && lastBer == if r.1 == [] then old(lastBer) else r.1[|r.1| - 1].ber
    {
      hide Run, Step, Received, ReceivedAll, WellSized;
      ghost var s := uw.Model();
      NothingYet(uw.q, viterbi.g, s);
      assert bits[..0] == [];
      for n := 0 to |bits|
        invariant Valid() && uw.Model() == Run(uw.q, s, bits[..n]).0 && WellSized(Run(uw.q, s, bits[..n]).1)
        invariant frames == old(frames) + ReceivedAll(viterbi.g, Run(uw.q, s, bits[..n]).1)
        invariant framesSynced == old(framesSynced) + |Run(uw.q, s, bits[..n]).1|
        invariant var r := Run(uw.q, s, bits[..n]).1; lastBer == if r == [] then old(lastBer) else r[|r| - 1].ber
      {
        RunStep(uw.q, s, bits, n);
        ghost var before := Run(uw.q, s, bits[..n]);
        var found := uw.Push(bits[n]);
        OneMore(uw.q, viterbi.g, before.0, bits[n], before.1);
        if found != [] {
          lastBer := found[0].ber;
          framesSynced := framesSynced + 1;
          var frame := Chain(found[0].symbols);
          frames := frames + [frame];
        }
      }
      assert bits[..|bits|] == bits;
    }

    method Chain(symbols: seq<bit>) returns (frame: seq<int>)
      requires viterbi.g.Valid() && |symbols| == FRAME_LENGTH
      ensures frame == Received(viterbi.g, symbols)
    {
      hide Viterbi.Decoded, Viterbi.Filled;
      var deint := Unpack(symbols);
      var vit := viterbi.Decode(deint);
      WholeFrame(viterbi.g, deint);
      DecoderOutput(viterbi.g, Pairs(deint));
      frame := Scrambler.Descramble(vit);
    }
  }

  /** A whole frame fills the output. */
  lemma WholeFrame(g: Viterbi.Gains, deint: seq<bit>)
    requires g.Valid() && |deint| == CODED_LENGTH
    ensures var d := Viterbi.Decoded(g, Pairs(deint)[..|deint| / 16 * 8]);
            d == Viterbi.Decoded(g, Pairs(deint)) && |d| == 640 && Viterbi.Filled(d) == d
  {
    hide Viterbi.Decoded;
    assert Pairs(deint)[..5120] == Pairs(deint);
    DecoderOutput(g, Pairs(deint));
  }

  lemma NothingYet(q: Pattern, g: Viterbi.Gains, s: State)
    requires q.Valid() && s.Valid() && g.Valid()
    ensures Run(q, s, []) == (s, []) && WellSized([]) && ReceivedAll(g, []) == []
  {
  }

  lemma RunStep(q: Pattern, s: State, bits: seq<bit>, n: nat)
    requires q.Valid() && s.Valid() && n < |bits|
    ensures var before := Run(q, s, bits[..n]);
            var step := Step(q, before.0, bits[n]);
            Run(q, s, bits[..n + 1]) == (step.0, before.1 + step.1)
  {
    assert bits[..n + 1][..n] == bits[..n];
  }

  /** One symbol finds at most one frame, and the chain runs on it. */
  lemma OneMore(q: Pattern, g: Viterbi.Gains, s: State, sym: bit, before: seq<Frame>)
    requires q.Valid() && s.Valid() && g.Valid() && WellSized(before)
    ensures var out := Step(q, s, sym).1;
            && WellSized(before + out) && |out| <= 1
            && (out != [] ==> |out[0].symbols| == FRAME_LENGTH)
            && ReceivedAll(g, before + out)
               == ReceivedAll(g, before) + if out == [] then [] else [Received(g, out[0].symbols)]
  {
    hide Received, Detects;
    var out := Step(q, s, sym).1;
    if out == [] {
      assert before + out == before;
    }
  }

  // ---------- the decoder's output is bytes ----------

  lemma {:induction false} RegistersFit(g: Viterbi.Gains, r: seq<Pair>, s: nat)
    requires g.Valid() && s < 64
    ensures Viterbi.States(g, r)[s].path < 0x1_0000_0000
  {
    hide Viterbi.PairGain;
    if r != [] {
      RegistersFit(g, r[..|r| - 1], s);
    }
  }

  lemma {:induction false} EmittedFit(g: Viterbi.Gains, r: seq<Pair>)
    requires g.Valid()
    ensures forall k :: 0 <= k < |Viterbi.Emitted(g, r)| ==> Viterbi.Emitted(g, r)[k] < 256
  {
    hide Viterbi.States;
    if r != [] {
      EmittedFit(g, r[..|r| - 1]);
      RegistersFit(g, r, Viterbi.ArgMax(Viterbi.States(g, r)));
    }
  }

  lemma TailFits(path: nat)
    ensures |Viterbi.TailBytes(path)| == 4
    ensures forall k :: 0 <= k < 4 ==> Viterbi.TailBytes(path)[k] < 256
    ensures Viterbi.TailBytes(path)[3] % 64 == 0
  {
    var w := Word(path * 64);
    WordIsMod(path * 64);
    assert w % 64 == 0 by {
      var q := path * 64 / 0x1_0000_0000;
      DivModUnique(w, 64, path - q * 0x400_0000, 0);
    }
    assert w % 256 % 64 == 0 by {
      DivModUnique(w % 256, 64, w / 64 - 4 * (w / 256), 0);
    }
  }

  /** For a frame's symbols the decoder puts out 640 bytes, the last of them ending in six zeros. */
  lemma DecoderOutput(g: Viterbi.Gains, r: seq<Pair>)
    requires g.Valid() && |r| == 5120
    ensures |Viterbi.Decoded(g, r)| == 640
    ensures forall k :: 0 <= k < 640 ==> Viterbi.Decoded(g, r)[k] < 256
    ensures Viterbi.Decoded(g, r)[639] % 64 == 0
  {
    hide Viterbi.Emitted, Viterbi.States, Viterbi.TailBytes;
    Viterbi.EmittedLength(g, r);
    EmittedFit(g, r);
    TailFits(Viterbi.States(g, r)[0].path);
  }
}
