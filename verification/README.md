# Signal and control cores: a Dafny model

This project models the parts of the receiver whose correctness is least visible from the code, and
proves what they are for. All values are exact: symbols and bytes are integers, samples are elements of
a commutative ring (complex numbers are one instance), frequencies are reals. Integer widths that matter
(32-bit path registers, 16-bit running sums, 64-bit ring positions) wrap explicitly. `Bits` and `Options`
hold what several parts share.

## What is modelled

**Inmarsat-C receive chain** (`src/decode/egc/egc_decoder.cpp`). A transmitter is written down as the
specification: scramble, convolve, interleave, insert the unique word. The receiver's classes and loops
are proved against functions of their state, and those functions are proved to invert the transmitter:
over any stream of back-to-back frames, in either polarity, with up to 25 mismatches in each unique word
and, in each frame's data, any wrong symbols that are scattered enough: in no n consecutive symbol pairs as
many as half of max(10, (n + 7) / 4). Any four wrong symbols are that (`EndToEnd.FourErrorsArrive`), and so
is a burst of 324 consecutive symbols anywhere in a frame, which is what the interleaver is for
(`EndToEnd.BurstArrives`).
`Convolutional`, `ErrorEvents`, `Viterbi`, `Optimality`, `Correction`, `FrameSync`, `Interleaver`, `Bursts`,
`Scrambler`, `EgcReceiver`, `EndToEnd`; the packet layer behind the chain is `Packets`.

- The soft table of the Viterbi decoder is floating point, but only its entries for the samples 28 and
  228 are read. The two integers found there are parameters `hit` and `miss`. The optimality results hold
  for all of them; error correction asks for `miss < hit` and `10240 * (hit - miss) < 999999`, so that a
  whole frame of misses does not outweigh the start penalty of -999999.
- The branch that penalises odd states near the end (line 270) is proved never to be taken, whatever the
  length: its condition compares a step number, less than half the length, with the length less seven. A
  frame therefore ends in state 0 only because the last byte says so, and a frame that arrives with its unique
  word recognisable and scattered errors comes through if and only if its scrambled last byte ends in six zeros
  (`EndToEnd.RoundTripIff`). Four is the limit for errors anywhere: some frame is lost to five
  (`Correction.FourIsTheLimit`).
- A frame is missed exactly if the unique word is seen before it has fully arrived, at least 10368 symbols
  after the last frame, or if the symbol counter is negative or too close to its end
  (`FrameSync.FoundUnlessBusy`). One lost symbol is enough for the first: the next frame is not put out
  (`FrameSync.LostSymbolLosesFrame`). The second takes 2^31 symbols without a frame; the counter, a signed
  32-bit integer that C++ does not promise to wrap, is taken to wrap, and then nothing is put out for another
  2^31 symbols (`FrameSync.OverflowDeafens`, `FrameSync.NothingInZeros`).

**FFT and fast FIR** (`src/dsp/jfft.cpp`, `src/dsp/jfft.h`). The in-place transform, its clear twin, the
sum by definition, the packed real transforms, and streaming overlap-add filtering. The values of
`std::exp` enter as towers of roots of unity: each the square of the next, the second being -1.
`Rings`, `Poly`, `Fourier`, `BitReversal`, `FftStages`, `InPlaceFft` (file `Jfft.dfy`), `Convolution`,
`FirStream`, `FastFir`, `RealFft`, `RealFir`. That complex numbers are such a ring, with such a conjugation,
is shown by `Rings.ComplexIsRing` and `RealFft.ComplexConjugation`, their roots only up to order four
(`RealFft.QuarterTurnsAreRoots`), since the others need square roots. A ring with roots of every order up to 2^30,
the largest that the program can ask for, is that of the Gaussian integers modulo 2^31 - 1, where all that
is assumed holds at once (`Gaussian.AssumptionsHold`).

- `SetKernel` keeps what the buffers hold (`src/dsp/jfft.cpp:354-366`). On a filter that has run, with the same
  sizes or a longer signal part, all that follows is right if and only if the buffers happen to be zero
  (`FirStream.FiltersIffZero`); the same kernel set again after one sample is enough to go wrong
  (`FirStream.SameKernelAgain`).
- The slow transform multiplies two indices as 32-bit integers, which fits exactly up to 46341 samples
  (`InPlaceFft.ProductsFit`).

**Decimation** (`src/dsp/ddc.h`, and the second decimator in `src/lte/lte_engine.cpp`). Ring buffers with
masked and with modulo positions against one specification, the cascade of stages as a streaming
refinement of nested decimated convolutions, and the choice of stage factors. `Decimation`, `Ddc`,
`DecimationPlan`.

**Voice-call detection** (`src/lte/lte_engine.cpp`). Unwrapped subframe time, the sliding window, the
cadence count, the start and end gates, and the log over all UEs. Scores and bit rates are compared as
fractions; rounding them changes no verdict unless the bit rate is exactly 2000 or 64000 bit/s
(`RoundedVerdict.RoundingAside`). `GrantWindow`, `CallGate`, `VoiceCalls`, `RoundedVerdict`.

- The code's own comment calls `voice_secs` a number of consecutive seconds. It is not reset by an idle
  pass (lines 624-625), so three matching passes start a call however far apart they are
  (`CallGate.ScatteredMatchesStartACall`). After any pass it is the number of consecutive matching passes
  if and only if there has been no lapse since a call last ended, a lapse being an idle pass that finds it
  above zero and does not end a call (`CallGate.ConsecutiveUntilLapse`).

**Decoder manager** (`src/decode/decoder_manager.cpp`). What each thread does while it holds a lock is
one atomic step; the invariants hold after every sequence of steps, hence under every interleaving. The
operations as one undisturbed thread runs them are methods of a class and are proved to be certain
sequences of these steps. `ManagerSteps`, `ManagerInvariant`, `BandChoice`, `DecoderManager`,
`OneFrequency`.

- `removeAll` clears `count` but leaves `weight` (lines 208-218), so `weight` equals the weight held if
  and only if no `removeAll` has ever found a decoder on that worker (`ManagerInvariant.WeightExactly`).
  One decoder and one `removeAll` are enough to leave its weight on an empty worker
  (`ManagerInvariant.WeightStays`).
- A comment in `addDecoder` speaks of a shadow sub-band for overloaded ones. An undisturbed `addDecoder` makes
  a sub-band if and only if none that covers the frequency has a load below 2^31 - 1
  (`DecoderManager.NewBandIff`); otherwise it takes the first of least load on any worker, overloaded or not
  (`DecoderManager.AddingChooses`). So decoders added one after the other at one frequency all share one
  sub-band, while other workers are idle (`OneFrequency.AllGoIntoOne`, `OneFrequency.FifthJoinsFour`). Another
  thread can bring about a second one, if it has looked before the first was made
  (`OneFrequency.LateThreadMakesSecond`).

**Band plan parser** (`src/decode/json_mini.cpp`, a subset of sections 4 to 7 of RFC 8259). The cursor
loops against recursive functions, and the round trip for every document with arbitrary white space.
Numbers are read by a function handed in, as the program leaves them to `strtod`; one that reads integers is
defined and proved to do what is asked of it, so that for documents with integers nothing is assumed. The
parser accepts exactly the documents of a grammar written down on its own (`JsonAcceptance.AcceptsIff`): strings
with a backslash before any character, words that mean nothing, no comma before a closing bracket.
`Json`, `JsonGrammar`, `JsonAcceptance`, `JsonRoundTrip`, `JsonIntegers`. The header says that there are no nested
arrays; the code reads them, and the round trip covers them.

## Model

| member | source | states |
|---|---|---|
| Convolutional.DistanceIsWeight | src/decode/egc/egc_decoder.cpp:257-268 | the code is linear: two paths differ in as many symbols as their difference path sends ones |
| Convolutional.Potentials | src/decode/egc/egc_decoder.cpp:316-318 | two potentials on the 64 states that no trellis step from a nonzero state beats |
| Convolutional.FreeDistance | src/decode/egc/egc_decoder.cpp:257-268 | two paths from one state that ever differ send symbols at least ten apart, if they meet again or have run 31 steps since |
| ErrorEvents.EventWeight | src/decode/egc/egc_decoder.cpp:257-268 | once an error event of n steps is over, or 31 steps old, it weighs at least ten and at least (n + 7) / 4 |
| ErrorEvents.EventLoses | src/decode/egc/egc_decoder.cpp:246-268 | if wrong symbols are scattered, a path that parts from the one sent and meets it again is further from what arrived |
| ErrorEvents.SameEnds | src/decode/egc/egc_decoder.cpp:246-268 | of two paths with the same ends, one no further from what arrived than the one sent is the one sent |
| Viterbi.Decoder.Decode | src/decode/egc/egc_decoder.cpp:238-286 | for every length that the output has room for, the bytes put out are those of the survivor recurrence: a best register's oldest byte every eighth step, then state 0's register pushed up by six, then zeros; the end-of-frame penalty is unreachable |
| Viterbi.Decoder.Samples | src/decode/egc/egc_decoder.cpp:242-243 | hard symbols become samples 28 and 228 |
| Viterbi.Decoder.ForwardStep | src/decode/egc/egc_decoder.cpp:251-269 | one pass of 32 butterflies gives the next survivor of every one of the 64 states |
| Viterbi.Decoder.PairGains | src/decode/egc/egc_decoder.cpp:251-255 | the gain of each of the four symbol pairs |
| Viterbi.Decoder.Butterfly | src/decode/egc/egc_decoder.cpp:259-267 | both targets take the better branch, the branch from the upper state on a tie |
| Viterbi.Decoder.PickBest | src/decode/egc/egc_decoder.cpp:274-275 | the first state of largest metric |
| Viterbi.Decoder.Output | src/decode/egc/egc_decoder.cpp:272-277 | when a byte is due, and which |
| Viterbi.Decoder.Flush | src/decode/egc/egc_decoder.cpp:279-284 | the last four bytes |
| Viterbi.EmittedLength | src/decode/egc/egc_decoder.cpp:272-277 | how many bytes have come out after any number of steps |
| Optimality.TableIsCode | src/decode/egc/egc_decoder.cpp:316-318 | the table of branch symbols is that of generators 0x6d and 0x4f |
| Optimality.NoPathIsBetter | src/decode/egc/egc_decoder.cpp:249-269 | after every step a state's metric is at least that of every path into it |
| Optimality.SurvivorMetric | src/decode/egc/egc_decoder.cpp:257-268 | and is attained by the path that the comparisons picked |
| Optimality.SurvivorRegister | src/decode/egc/egc_decoder.cpp:262-267 | the 32-bit register holds the last bits shifted out of that path |
| Correction.OldestByteIsBest | src/decode/egc/egc_decoder.cpp:272-277 | whatever arrives, a byte put out is the oldest in the register of a path that no other path beats |
| Correction.MetricIsDistance | src/decode/egc/egc_decoder.cpp:251-268 | a path's metric falls linearly with the number of symbols it gets wrong |
| Correction.NoWorseIsEqual | src/decode/egc/egc_decoder.cpp:246-268 | a path no worse than one sent with at most four errors starts in state 0 and agrees with it up to 31 bits back, and everywhere if it ends in the same state |
| Correction.BestIsSent | src/decode/egc/egc_decoder.cpp:272-277 | with scattered errors a path that no other beats agrees with the one sent up to 31 bits back |
| Correction.BestRegister | src/decode/egc/egc_decoder.cpp:272-277 | so the byte coming out is the byte sent |
| Correction.TailRegister | src/decode/egc/egc_decoder.cpp:279-284 | and so are the last four bytes, if the message ends in six zeros |
| Correction.EmittedBytes | src/decode/egc/egc_decoder.cpp:272-277 | all bytes before the flush are those sent |
| Correction.CorrectsScatteredErrors | src/decode/egc/egc_decoder.cpp:238-286 | a frame that flushes the encoder survives all wrong symbols that are scattered |
| Correction.CorrectsFourErrors | src/decode/egc/egc_decoder.cpp:238-286 | in particular any four |
| Correction.FourIsTheLimit | src/decode/egc/egc_decoder.cpp:238-286 | some message that flushes the encoder is not recovered from some five wrong symbols |
| FrameSync.UwFinder.constructor | src/decode/egc/egc_decoder.cpp:155-159 | an empty register that may find a frame with the first symbol |
| FrameSync.UwFinder.Push | src/decode/egc/egc_decoder.cpp:160-177 | one symbol takes the finder, with its 32-bit counter, to the next state of the step function and puts out its frame |
| FrameSync.UwFinder.ShiftIn | src/decode/egc/egc_decoder.cpp:162-163 | the register moves by one, newest symbol first |
| FrameSync.UwFinder.Detect | src/decode/egc/egc_decoder.cpp:179-192 | the counts are the mismatches of the word and of its complement at the two places of every row |
| FrameSync.MismatchesSum | src/decode/egc/egc_decoder.cpp:182-189 | the two counts always make up 128 |
| FrameSync.OnePolarity | src/decode/egc/egc_decoder.cpp:190-191 | so at a tolerance below 64 the polarity of a found frame is never in doubt |
| FrameSync.ProgramPattern | src/decode/egc/egc_decoder.cpp:193-199 | the 64 bits and the tolerance of the program are such a pattern |
| FrameSync.Quiet | src/decode/egc/egc_decoder.cpp:164-165 | nothing is put out before 10368 symbols have been counted |
| FrameSync.Spacing | src/decode/egc/egc_decoder.cpp:164-175 | any two frames are put out at least 10368 symbols apart |
| FrameSync.RegisterHolds | src/decode/egc/egc_decoder.cpp:162-163 | the register is what was pushed, newest first |
| FrameSync.MismatchIsErrors | src/decode/egc/egc_decoder.cpp:182-189 | the mismatches counted are the wrong places among those that carry the word |
| FrameSync.FrameInRegister | src/decode/egc/egc_decoder.cpp:169-174 | a frame in the register is recognised in either polarity and handed out with the polarity undone and the number of wrong places in its word |
| FrameSync.SilentIff | src/decode/egc/egc_decoder.cpp:164-175 | nothing is put out if and only if the word is never seen among what has arrived, 10368 or more symbols after the last frame |
| FrameSync.FoundUnlessBusy | src/decode/egc/egc_decoder.cpp:160-177 | an arriving frame is found if and only if the word was not seen while it arrived and the counter is from 0 to 2^31 - 10369 |
| FrameSync.OverflowDeafens | src/decode/egc/egc_decoder.cpp:164-165 | after 2^31 symbols without a frame nothing is put out for 2^31 + 10367 more, whatever arrives |
| FrameSync.NothingInZeros | src/decode/egc/egc_decoder.cpp:164-199 | on a line that is always zero that happens: nothing is found and the counter goes round |
| FrameSync.LostSymbolLosesFrame | src/decode/egc/egc_decoder.cpp:160-177 | a frame short of its last symbol is put out one symbol late, and the frame after it is not put out at all |
| FrameSync.StaysAligned | src/decode/egc/egc_decoder.cpp:160-177 | once aligned on back-to-back frames none is missed and none invented, and each comes with its polarity and its errors in the word |
| FrameSync.RunConcat | src/decode/egc/egc_decoder.cpp:1118-1121 | a stream may be cut anywhere |
| FrameSync.MirrorStep | src/decode/egc/egc_decoder.cpp:160-192 | complementing register and symbol complements the state and keeps the frame |
| FrameSync.MirrorRun | src/decode/egc/egc_decoder.cpp:160-192 | a complemented stream gives the same frames with the other polarity flag |
| Interleaver.Depermute | src/decode/egc/egc_decoder.cpp:202-210 | row i is the row that arrived at place 23 i modulo 64 |
| Interleaver.FillMatrix | src/decode/egc/egc_decoder.cpp:214-221 | every cell of the matrix is overwritten, with the row's symbols but the first two |
| Interleaver.Deinterleave | src/decode/egc/egc_decoder.cpp:212-232 | and read out column by column |
| Interleaver.Unpack | src/decode/egc/egc_decoder.cpp:1126-1127 | both buffers together pick the coded symbols of the arriving frame |
| Interleaver.RowsInverse | src/decode/egc/egc_decoder.cpp:207 | 39 undoes the row order of 23 |
| Interleaver.UnpackPack | src/decode/egc/egc_decoder.cpp:202-232 | the receiver's buffers undo the transmitter's |
| Interleaver.PackedCarriesWord | src/decode/egc/egc_decoder.cpp:182-189 | a sent frame carries the unique word where the finder looks |
| Interleaver.UnpackedErrors | src/decode/egc/egc_decoder.cpp:202-232 | deinterleaving makes no new errors |
| Bursts.FewHits | src/decode/egc/egc_decoder.cpp:202-232 | a burst of 324 symbols on the air hits, in no stretch of coded symbols, as many as an error event takes |
| Bursts.BurstIsScattered | src/decode/egc/egc_decoder.cpp:202-232 | so what the deinterleaver makes of it is scattered |
| Bursts.BurstMismatch | src/decode/egc/egc_decoder.cpp:182-189 | and the unique word has at most six more mismatches |
| Scrambler.Sequence | src/decode/egc/egc_decoder.cpp:326-333 | the shift register puts out the recurrence of its feedback taps |
| Scrambler.SequenceBegins | src/decode/egc/egc_decoder.cpp:326-333 | the first terms of that recurrence |
| Scrambler.Clock | src/decode/egc/egc_decoder.cpp:327-333 | at every clock the register holds the next eight bits of that recurrence |
| Scrambler.Invert | src/decode/egc/egc_decoder.cpp:323 | a byte with its bits in the opposite order |
| Scrambler.Descramble | src/decode/egc/egc_decoder.cpp:321-341 | every byte reversed, and complemented in the groups of four where the sequence has a one |
| Scrambler.DescrambleScramble | src/decode/egc/egc_decoder.cpp:321-341 | descrambling undoes scrambling for every byte in every place |
| Scrambler.MessageByte | src/decode/egc/egc_decoder.cpp:321-341 | the message bits of byte k spell its scrambled value |
| EgcReceiver.EgcDecoder.constructor | src/decode/egc/egc_decoder.cpp:1084-1095 | a decoder with an empty finder |
| EgcReceiver.EgcDecoder.Process | src/decode/egc/egc_decoder.cpp:1118-1132 | the frames handed on are those of the finder's run, each through the chain, and are counted; the last one's bit error count is kept |
| EgcReceiver.EgcDecoder.Chain | src/decode/egc/egc_decoder.cpp:1126-1129 | the chain for one frame |
| EgcReceiver.DecoderOutput | src/decode/egc/egc_decoder.cpp:247-285 | the decoder always gives 640 bytes, and the last always ends in six zeros |
| EndToEnd.FrameComesThrough | src/decode/egc/egc_decoder.cpp:1122-1131 | a frame that flushes the encoder comes through the chain despite scattered wrong symbols |
| EndToEnd.FourErrorsArrive | src/decode/egc/egc_decoder.cpp:1122-1131 | any four wrong symbols are scattered |
| EndToEnd.BurstArrives | src/decode/egc/egc_decoder.cpp:1122-1131 | so are those of a burst of 324 symbols anywhere in the frame, and its word is still recognised |
| EndToEnd.BurstComesThrough | src/decode/egc/egc_decoder.cpp:1122-1131 | a frame hit by such a burst comes through if and only if it flushes the encoder |
| EndToEnd.StreamComesThrough | src/decode/egc/egc_decoder.cpp:1118-1132 | from an aligned receiver, exactly the frames sent come out, in order, each in whatever polarity it came |
| EndToEnd.StreamComesThroughFromAnywhere | src/decode/egc/egc_decoder.cpp:1118-1132 | the same from any state of the receiver whose counter counts and in which the word is not seen while the first frame arrives |
| EndToEnd.RoundTripIff | src/decode/egc/egc_decoder.cpp:279-284 | a frame arriving with its word recognisable and scattered wrong symbols comes through if and only if its scrambled last byte ends in six zeros |
| EndToEnd.SentArrives | src/decode/egc/egc_decoder.cpp:179-192 | what is sent may arrive as it is |
| Packets.EgcCrc | src/decode/egc/egc_decoder.cpp:344-354 | the 16-bit running sums give the check field of the exact sums |
| Packets.CheckPacket | src/decode/egc/egc_decoder.cpp:362-367 | whether a packet is accepted |
| Packets.CrcOkIff | src/decode/egc/egc_decoder.cpp:344-367 | a packet with a nonzero check field is accepted if and only if both sums over all of it vanish modulo 256 |
| Packets.ChangeCaught | src/decode/egc/egc_decoder.cpp:362-367 | one changed byte is noticed, except exactly when it makes the check field zero |
| Packets.SwapCaught | src/decode/egc/egc_decoder.cpp:362-367 | and so are two different neighbours that change places |
| Packets.SealedAccepted | src/decode/egc/egc_decoder.cpp:344-367 | what a sender seals with the same sums is accepted |
| Packets.PacketLength | src/decode/egc/egc_decoder.cpp:355-361 | a length is at least one, so the walk always advances |
| Packets.DecodeFrame | src/decode/egc/egc_decoder.cpp:814-823 | the walk visits the packets, with the verdict on each, and ends |
| Packets.WalkVisits | src/decode/egc/egc_decoder.cpp:816-823 | over short and medium packets, and then a packet that takes all the rest, one that is broken off, a zero byte or nothing, it visits exactly the packets and the one that takes the rest |
| Packets.EveryFrame | src/decode/egc/egc_decoder.cpp:355-361 | every frame is of this form |
| Rings.ComplexIsRing | src/dsp/jfft.h:24 | complex numbers satisfy the ring laws that are used |
| Poly.EvalSplit | src/dsp/jfft.cpp:190-197 | a polynomial from its even and odd parts |
| Fourier.DftSplit | src/dsp/jfft.cpp:184-211 | a transform from two of half the size by butterflies |
| Fourier.InverseUndoes | src/dsp/jfft.cpp:213-218 | the scaled backward transform undoes the forward one, for every vector and every size |
| BitReversal.AndMask | src/dsp/ddc.h:54 | masking with one less than a power of two is the remainder |
| BitReversal.RevTwice | src/dsp/jfft.cpp:160-176 | bit reversal is an involution |
| BitReversal.SlowReverse | src/dsp/jfft.cpp:237-244 | the bit-by-bit loop reverses the low bits |
| BitReversal.FastReverse | src/dsp/jfft.cpp:163-168 | masks and shifts reverse the same bits, for every size up to 2^32 |
| FftStages.PermutedIsBlocks | src/dsp/jfft.cpp:160-176 | after the reversal the buffer is the transforms of single samples |
| FftStages.StageOnBlocks | src/dsp/jfft.cpp:184-211 | a stage doubles the size of the transforms standing in the buffer |
| InPlaceFft.Jfft.Init | src/dsp/jfft.cpp:20-36 | the least power of two not below the size asked for, which may be anything |
| InPlaceFft.Jfft.FillTable | src/dsp/jfft.cpp:45-59 | the packed table holds the powers of every root, one size after the other |
| InPlaceFft.Jfft.ReverseFast | src/dsp/jfft.cpp:160-176 | every pair is exchanged once: the buffer is permuted by the reversal |
| InPlaceFft.Jfft.ReverseClear | src/dsp/jfft.cpp:235-250 | the same with the slow reversal |
| InPlaceFft.Jfft.StageFast | src/dsp/jfft.cpp:186-208 | the pointer walk does each butterfly of a stage once, with the right twiddle |
| InPlaceFft.Jfft.StageClear | src/dsp/jfft.cpp:259-278 | so does the walk by remainders: both have the same effect on the buffer |
| InPlaceFft.Jfft.StagesFast | src/dsp/jfft.cpp:178-211 | all stages turn the permuted input into its transform |
| InPlaceFft.Jfft.StagesClear | src/dsp/jfft.cpp:257-279 | so do the clear ones |
| InPlaceFft.Jfft.Fft | src/dsp/jfft.cpp:123-220 | in place, for every power-of-two size and every input: the transform by definition, scaled if inverse |
| InPlaceFft.Jfft.FftEasyToUnderstand | src/dsp/jfft.cpp:223-288 | the same result |
| InPlaceFft.Jfft.FftVector | src/dsp/jfft.h:65-84 | the vector forms set up a new size when needed and pad with zeros |
| InPlaceFft.Jfft.InverseUndoesForward | src/dsp/jfft.cpp:213-218 | backward after forward gives back every vector |
| InPlaceFft.Jfft.ForwardUndoesInverse | src/dsp/jfft.cpp:213-218 | and forward after backward |
| InPlaceFft.ProductsFit | src/dsp/jfft.cpp:309-316 | the index product is a 32-bit integer for all indices if and only if there are at most 46341 samples |
| InPlaceFft.Sft | src/dsp/jfft.cpp:293-327 | the slow sum with its table of powers modulo the size is the transform by definition |
| Convolution.ConvConcat | src/dsp/jfft.cpp:473-484 | parts of a stream contribute separately to its convolution |
| Convolution.EvalConv | src/dsp/jfft.cpp:457-467 | a convolution with enough room is the product of polynomials |
| Convolution.SpectraMultiply | src/dsp/jfft.cpp:457-467 | the product of two padded spectra is the spectrum of the convolution |
| FirStream.FlushHolds | src/dsp/jfft.cpp:469-487 | overlap: the remainder carries exactly what the past still has to give |
| FirStream.PushHolds | src/dsp/jfft.cpp:449-498 | one sample keeps the invariant and puts out the filtered stream |
| FirStream.RunIsConvolution | src/dsp/jfft.cpp:449-498 | over every stream the output is the linear convolution with the kernel, delayed by exactly the signal part |
| FirStream.RunConcat | src/dsp/jfft.cpp:389-444 | a stream may be cut anywhere |
| FirStream.RunSome | src/dsp/jfft.cpp:434-441 | exchanging a chunk at once is the same as sample by sample |
| FirStream.ReloadedClean | src/dsp/jfft.cpp:354-366 | buffers kept under a new kernel are zero behind the signal part if that has not become shorter |
| FirStream.FiltersIffZero | src/dsp/jfft.cpp:354-366 | from the start of a block a filter is right for every stream if and only if its buffers are zero |
| FirStream.SameKernelAgain | src/dsp/jfft.cpp:354-366 | the same kernel set again after one sample: that sample comes out unfiltered |
| FastFir.JFastFir.constructor | src/dsp/jfft.cpp:331-334 | a filter that passes samples through |
| FastFir.JFastFir.SetKernel | src/dsp/jfft.cpp:336-378 | the kernel's spectrum, and buffers at their new sizes: zeros in a new filter, what they held in one that has run, which is sound if its signal part has not become shorter |
| FastFir.JFastFir.ChooseSize | src/dsp/jfft.cpp:344-349 | the buffer size: a power of two, four times the kernel unless told otherwise |
| FastFir.BufferIsLeast | src/dsp/jfft.cpp:344-349 | half of that size would be less than was asked for |
| FastFir.JFastFir.Convolve | src/dsp/jfft.cpp:457-467 | transform, product and inverse transform convolve the block |
| FastFir.OverlapFast | src/dsp/jfft.cpp:469-484 | the combined loop adds the old tail, keeps the new one and clears |
| FastFir.OverlapClear | src/dsp/jfft.cpp:524-531 | the three loops do the same when the tail fits in the signal part |
| FastFir.JFastFir.FlushBlock | src/dsp/jfft.cpp:452-489 | a full block is flushed as the state machine says |
| FastFir.JFastFir.Update | src/dsp/jfft.cpp:449-498 | one sample is one step of the state machine; without a kernel it passes through |
| FastFir.JFastFir.UpdateEasyToUnderstand | src/dsp/jfft.cpp:500-544 | the same step |
| FastFir.JFastFir.UpdateBlock | src/dsp/jfft.cpp:381-446 | a block gives the outputs and the final state of the same samples one by one |
| RealFft.ConjTurn | src/dsp/jfft.cpp:92-93 | the conjugate of a mirrored power is the power |
| RealFft.Recombine | src/dsp/jfft.cpp:86-94 | the two factors take a spectrum apart into even and odd halves and join them again |
| RealFft.LowHalf | src/dsp/jfft.cpp:86-94 | an element of the real spectrum from two elements of the half-size one |
| RealFft.MirrorHalf | src/dsp/jfft.cpp:93 | the upper half is the conjugate mirror image |
| RealFft.Separate | src/dsp/jfft.cpp:106-109 | and back: an element of the half-size spectrum from two of the real one |
| RealFft.Parts | src/dsp/jfft.cpp:115-119 | real and imaginary part give back the two packed samples |
| RealFft.RealTransforms.constructor | src/dsp/jfft.cpp:61-69 | the factors for real transforms |
| RealFft.RealTransforms.FftReal | src/dsp/jfft.cpp:74-95 | the transform of twice the size of a real signal |
| RealFft.RealTransforms.PackAndTransform | src/dsp/jfft.cpp:78-87 | two real samples packed as one and transformed |
| RealFft.RealTransforms.Diddle | src/dsp/jfft.cpp:88-94 | the recombination, filled in from both ends |
| RealFft.RealTransforms.IfftReal | src/dsp/jfft.cpp:98-121 | what is made of any spectrum |
| RealFft.RealTransforms.RealInverse | src/dsp/jfft.cpp:74-121 | the inverse gives back every real signal |
| RealFft.QuarterTurnsAreRoots | src/dsp/jfft.cpp:46-59 | an imaginary unit and a half give roots of unity and their conjugates |
| RealFft.ComplexConjugation | src/dsp/jfft.cpp:92-93 | conjugation of complex numbers is as assumed |
| Gaussian.GaussIsRing | src/dsp/jfft.h:24 | Gaussian integers modulo 2^31 - 1 satisfy the ring laws that are used |
| Gaussian.AssumptionsHold | src/dsp/jfft.cpp:46-59 | and have roots of unity of every order up to 2^30, with a conjugation that turns them round |
| RealFir.FlushReal | src/dsp/jfft.cpp:569-574 | real samples stay real |
| RealFir.RealFastFir.HalfProduct | src/dsp/jfft.cpp:556-558 | half of the product of the spectra is enough for the inverse |
| RealFir.RealFastFir.Convolve | src/dsp/jfft.cpp:556-558 | half-size transforms convolve the block |
| RealFir.RealFastFir.Update | src/dsp/jfft.cpp:547-587 | one real sample is one step of the same state machine |
| Decimation.DecimatedIsConvolution | src/dsp/ddc.h:52-67 | n inputs give floor(n / factor) outputs, and output m is the convolution at input (m + 1) factor - 1 |
| Decimation.HoldsNext | src/dsp/ddc.h:54-55 | one write keeps the newest samples in the ring |
| Decimation.MaskedIndex | src/dsp/ddc.h:62-64 | counting back under the mask finds the right cell, even where the 64-bit position wraps below zero |
| Decimation.RingSize | src/dsp/ddc.h:42-45 | the ring is the least power of two that holds the filter |
| Decimation.FirDecimator.constructor | src/dsp/ddc.h:18-49 | an empty delay line |
| Decimation.FirDecimator.Push | src/dsp/ddc.h:52-67 | at every factor-th sample the convolution of all samples so far, otherwise nothing |
| Decimation.FirDecimator.MultiplyAccumulate | src/dsp/ddc.h:60-65 | the sum over the ring is the convolution |
| Decimation.BackIndex | src/lte/lte_engine.cpp:131-135 | the truncating remainder with its correction finds the right cell |
| Decimation.DecimFir.Process | src/lte/lte_engine.cpp:120-140 | a block appends what the same specification has to add for it |
| Decimation.DecimFir.Take | src/lte/lte_engine.cpp:124-138 | one sample |
| Decimation.DecimFir.MultiplyAccumulate | src/lte/lte_engine.cpp:129-137 | the sum over the ring of the filter's length is the convolution |
| Ddc.ThroughLength | src/dsp/ddc.h:204-215 | the cascade gives floor(n / product of factors) outputs |
| Ddc.ThroughGrows | src/dsp/ddc.h:204-215 | more input only appends outputs |
| Ddc.EveryThousandth | src/dsp/ddc.h:194-198 | the oscillator is renormalised at every 1024th sample, also across the wrap of the counter |
| Ddc.MixIsRotation | src/dsp/ddc.h:192-198 | sample t is turned by the t-th power of the step, if renormalising leaves the oscillator alone |
| Ddc.ComplexMixIsRotation | src/dsp/ddc.h:194-198 | on complex numbers a step on the unit circle keeps the oscillator there, so that dividing by its modulus changes nothing and sample t is turned by the t-th power of the step |
| Ddc.MixConcat | src/dsp/ddc.h:190-202 | mixing may be cut into blocks anywhere |
| Ddc.Ddc.constructor | src/dsp/ddc.h:147-162 | the stages of a plan, all empty |
| Ddc.Ddc.FeedStages | src/dsp/ddc.h:204-215 | a sample keeps every stage fed with all that the stage before it has put out |
| Ddc.Ddc.TotalIsThrough | src/dsp/ddc.h:204-215 | all outputs so far are the nested decimated convolutions of all mixed inputs so far |
| Ddc.Ddc.MixIn | src/dsp/ddc.h:194-198 | one step of the oscillator |
| Ddc.Ddc.Process | src/dsp/ddc.h:189-202 | whatever the blocks, the outputs appended are those the cascade adds for the mixed block |
| Ddc.Ddc.SetOffset | src/dsp/ddc.h:169-173 | retuning changes the step and not the phase reached |
| DecimationPlan.SmallFactors | src/dsp/ddc.h:98-103 | whether a number is a product of 2, 3, 5 and 7 |
| DecimationPlan.SmoothDivides | src/dsp/ddc.h:98-103 | such a number stays one when divided by any of its prime factors |
| DecimationPlan.NearestSmooth | src/dsp/ddc.h:104-119 | the search always ends, on the nearest such number, the smaller of two |
| DecimationPlan.LargestFactor | src/dsp/ddc.h:126-132 | the largest divisor from 8 down to 2 |
| DecimationPlan.Factor | src/dsp/ddc.h:122-145 | the factors are 2 to 8, or the single factor 1, and multiply up to the number; each is the largest from 8 down that divides what is left; the branch for a leftover prime is unreachable |
| DecimationPlan.GreedyIsUnique | src/dsp/ddc.h:122-145 | which leaves no choice: the number determines the factors and their order |
| DecimationPlan.Plan | src/dsp/ddc.h:90-145 | for every ratio, factors of at most 8, each as large as can be, whose product is the nearest 7-smooth number |
| DecimationPlan.PlannedRatio | src/dsp/ddc.h:147-162 | a cascade with planned factors decimates by their product |
| GrantWindow.UnwrappedLifts | src/lte/lte_engine.cpp:441-451 | unwrapped time stays congruent to the counter modulo 10240 and never goes back, so the history is sorted |
| GrantWindow.LiftIsUnique | src/lte/lte_engine.cpp:446-448 | no other times have these properties |
| GrantWindow.CounterCounts | src/lte/lte_engine.cpp:441 | the counter is one more with every subframe, over the ends of frames and of the 1024 frames, modulo 10240 |
| GrantWindow.UnwrappedIsOnAir | src/lte/lte_engine.cpp:441-451 | so unwrapped times are the milliseconds on the air, if less than 10240 pass between grants |
| GrantWindow.Record | src/lte/lte_engine.cpp:440-454 | after every grant the window is exactly the grants of the last 3000 ms among the newest 400; a grant d subframes after the last one, fewer than 10240, is recorded d ms later |
| GrantWindow.Trim | src/lte/lte_engine.cpp:452-454 | the loop drops only what has to go |
| GrantWindow.WindowIsSorted | src/lte/lte_engine.cpp:452-454 | the window is sorted and within 3000 ms of now |
| GrantWindow.NothingDropped | src/lte/lte_engine.cpp:581-583 | so the second trimming before each analysis finds nothing to drop |
| GrantWindow.LowerBound | src/lte/lte_engine.cpp:601 | the first time not before a bound |
| GrantWindow.MatchCount | src/lte/lte_engine.cpp:597-605 | the binary search counts the same grants as comparing all pairs |
| CallGate.CountersMean | src/lte/lte_engine.cpp:624-653 | without a call `voice_secs` is the matching passes since the last event, during a call `idle_secs` is the idle passes in a row; neither passes two |
| CallGate.EventsExactly | src/lte/lte_engine.cpp:627-653 | a call starts exactly at the third matching pass since the last event and ends exactly at the third idle pass in a row |
| CallGate.EventsAlternate | src/lte/lte_engine.cpp:627-653 | events alternate, beginning with a start |
| CallGate.ConsecutiveUntilLapse | src/lte/lte_engine.cpp:624-653 | after any pass `voice_secs` is the number of consecutive matching passes if and only if there has been no lapse since a call last ended |
| CallGate.ScatteredMatchesStartACall | src/lte/lte_engine.cpp:624-639 | three matching passes with any gaps between them start a call |
| VoiceCalls.NthSize | src/lte/lte_engine.cpp:607-608 | the element of middle rank |
| VoiceCalls.Analyzed | src/lte/lte_engine.cpp:584-621 | the verdict is that of the brute-force cadence, the median and the bit rate |
| VoiceCalls.MedianBounds | src/lte/lte_engine.cpp:608-611 | the median test as a count of small grants |
| VoiceCalls.JudgeTrack | src/lte/lte_engine.cpp:580-621 | the verdict on the window as it was recorded |
| VoiceCalls.Sustain | src/lte/lte_engine.cpp:623-655 | the gates step, and what is logged carries the right start time and kind |
| RoundedVerdict.RoundingAside | src/lte/lte_engine.cpp:584-621 | with all operations rounded the verdict is the same, unless the bit rate is exactly one of its bounds |
| VoiceCalls.Detector.constructor | src/lte/lte_engine.cpp:195-230 | nothing known |
| VoiceCalls.Detector.OnDlDci | src/lte/lte_engine.cpp:429-455 | a grant is recorded for its UE and changes nothing else |
| VoiceCalls.Detector.OnIdentity | src/lte/lte_engine.cpp:467-476 | a UE may be known without a track |
| VoiceCalls.Detector.AnalyzeOne | src/lte/lte_engine.cpp:571-656 | one more verdict for the UE, one event at most, at this time, and nothing else changes |
| VoiceCalls.Detector.LogEvents | src/lte/lte_engine.cpp:638-639 | the log is the newest 200 events |
| VoiceCalls.Detector.Analyze | src/lte/lte_engine.cpp:569-663 | every tracked UE is judged exactly once, on its window; the log grows by what the verdicts start or end, in the order of the UEs, all at the time of the pass; no track is without its UE |
| VoiceCalls.Detector.DropStale | src/lte/lte_engine.cpp:658-663 | as every track has its UE, the sweep at the end of a pass drops nothing |
| VoiceCalls.LogAlternates | src/lte/lte_engine.cpp:569-663 | per UE the logged events alternate, and `voice` holds exactly between start and end |
| VoiceCalls.TimedNext | src/lte/lte_engine.cpp:627-653 | a verdict keeps a track and its log entries in agreement about start time and kind |
| VoiceCalls.LogTells | src/lte/lte_engine.cpp:627-653 | over any log, an end has the kind of the start before it in its UE's entries, and lasted since that start |
| ManagerSteps.FindBand | src/decode/decoder_manager.cpp:136-147 | the sub-band chosen, if it is still there |
| ManagerSteps.FindHome | src/decode/decoder_manager.cpp:175-189 | the first sub-band with the decoder |
| ManagerInvariant.PlacedOk | src/decode/decoder_manager.cpp:141-145 | placing keeps count, weight and coverage of a worker right |
| ManagerInvariant.CreatedOk | src/decode/decoder_manager.cpp:160-167 | so does making a sub-band |
| ManagerInvariant.RemovedOk | src/decode/decoder_manager.cpp:174-188 | so does removing, and no sub-band stays empty |
| ManagerInvariant.RetunedOk | src/decode/decoder_manager.cpp:193-206 | so does retuning |
| ManagerInvariant.RemovedMeans | src/decode/decoder_manager.cpp:174-188 | removing takes out the first decoder with the identifier, its share of count and weight, and its sub-band if it was the last, and nothing else |
| ManagerInvariant.RetunedMeans | src/decode/decoder_manager.cpp:197-203 | retuning changes the frequency of that decoder and nothing else |
| ManagerInvariant.ScanFinds | src/decode/decoder_manager.cpp:100-132 | a sub-band remembered by a thread covers its frequency |
| ManagerInvariant.ScanIsLeast | src/decode/decoder_manager.cpp:103-131 | on one worker the scan takes the first of the least loaded sub-bands that cover the frequency, if it beats what was found before |
| ManagerInvariant.AddressesKept | src/decode/decoder_manager.cpp:83-168 | what a thread remembers stays good under every step of every thread |
| ManagerInvariant.HeldKept | src/decode/decoder_manager.cpp:88-206 | only addDecoder brings an identifier into use, and only removal takes one out |
| ManagerInvariant.IdsKept | src/decode/decoder_manager.cpp:88-92 | live identifiers are distinct and below the next one |
| ManagerInvariant.RemoveFrees | src/decode/decoder_manager.cpp:170-191 | a decoder removed where it is, is nowhere any more |
| ManagerInvariant.Popped | src/decode/decoder_manager.cpp:287-288 | popping keeps the order of blocks and the balance of the queue |
| ManagerInvariant.PushKept | src/decode/decoder_manager.cpp:71-77 | pushing, with or without a drop, keeps them and the limit of 192 |
| ManagerInvariant.QueuesKept | src/decode/decoder_manager.cpp:60-81 | accepted = popped + queued + dropped + cleared on every worker, and `drops_` is the total dropped |
| ManagerInvariant.WorkersKept | src/decode/decoder_manager.cpp:83-218 | `count` is the decoders held, and `weight` their weight and that of those removeAll took |
| ManagerInvariant.StartedOk | src/decode/decoder_manager.cpp:41-44 | the invariant holds at the start |
| ManagerInvariant.InvariantAlways | src/decode/decoder_manager.cpp:60-289 | and after every interleaving of the locked steps |
| ManagerInvariant.PlacedWithinReach | src/decode/decoder_manager.cpp:105 | after every interleaving a decoder was placed within 0.40 of its sub-band's rate from the centre |
| ManagerInvariant.SurplusExactly | src/decode/decoder_manager.cpp:208-218 | over every interleaving, weight without a decoder arises exactly where removeAll finds a sub-band |
| ManagerInvariant.WeightExactly | src/decode/decoder_manager.cpp:208-218 | over every interleaving `weight` is at least the weight held, and equal if and only if no removeAll so far has found a decoder on the worker |
| ManagerInvariant.WeightStays | src/decode/decoder_manager.cpp:208-218 | adding one decoder and removing all leaves its weight on a worker without decoders |
| BandChoice.ScanChooses | src/decode/decoder_manager.cpp:97-132 | the look at all workers ends with the first sub-band of least load among all that cover the frequency, or with none if no load is below 2^31 - 1 |
| BandChoice.ChosenMeans | src/decode/decoder_manager.cpp:108-129 | that is the first with the fewest decoders among those with fewer than four, or else the first with the least sum of worker weight, ten per sub-band and eight per decoder |
| DecoderManager.ScanWorker | src/decode/decoder_manager.cpp:103-131 | the loop over a worker's sub-bands |
| DecoderManager.PlaceIn | src/decode/decoder_manager.cpp:136-147 | the re-lookup under the lock |
| DecoderManager.RemoveFrom | src/decode/decoder_manager.cpp:174-189 | the nested search on one worker |
| DecoderManager.Lightest | src/decode/decoder_manager.cpp:152-158 | the first worker of least effective weight |
| DecoderManager.Manager.constructor | src/decode/decoder_manager.cpp:41-44 | idle workers |
| DecoderManager.Manager.LightestWorker | src/decode/decoder_manager.cpp:152-158 | the loop finds that worker |
| DecoderManager.Manager.AddDecoder | src/decode/decoder_manager.cpp:83-168 | undisturbed: the steps of addDecoder in order; afterwards exactly one decoder has the new identifier, in the first sub-band of least load on any worker or, if and only if none may be taken, in a new one on the lightest worker |
| DecoderManager.Manager.RemoveDecoder | src/decode/decoder_manager.cpp:170-191 | stopping at the first find is as good as asking every worker; only the first worker that has the decoder changes, and afterwards none has it |
| DecoderManager.Manager.SetDecoderFreq | src/decode/decoder_manager.cpp:193-206 | afterwards every decoder with the identifier has the frequency, and all else is as it was |
| DecoderManager.Manager.RemoveAll | src/decode/decoder_manager.cpp:208-218 | every worker is without sub-bands and blocks |
| DecoderManager.Manager.Feed | src/decode/decoder_manager.cpp:60-81 | a block for every worker with decoders, the oldest dropped from a queue of 192; nothing else changes |
| DecoderManager.Manager.PopBlock | src/decode/decoder_manager.cpp:287-288 | the oldest block |
| DecoderManager.InvariantKept | src/decode/decoder_manager.cpp:60-289 | from any sound state, every interleaving keeps the invariant |
| DecoderManager.AddingChooses | src/decode/decoder_manager.cpp:97-168 | where an undisturbed addDecoder puts the decoder |
| DecoderManager.PlacedAsPromised | src/decode/decoder_manager.cpp:97-168 | the same in terms of what the workers hold: number of decoders, weight, sub-bands, centre and rate |
| DecoderManager.NewBandIff | src/decode/decoder_manager.cpp:134-167 | it makes a sub-band if and only if none that covers the frequency may be taken |
| OneFrequency.AllGoIntoOne | src/decode/decoder_manager.cpp:94-132 | decoders added one after the other at one frequency all go into one sub-band, whatever its load, and leave the other workers idle |
| OneFrequency.FifthJoinsFour | src/decode/decoder_manager.cpp:94-132 | a fifth decoder joins an overloaded sub-band beside an idle worker |
| OneFrequency.LateThreadMakesSecond | src/decode/decoder_manager.cpp:97-168 | a thread that looked before the others began makes a second sub-band for the frequency |
| DecoderManager.RemovedElsewhere | src/decode/decoder_manager.cpp:187 | after the first find the other workers have nothing to remove |
| DecoderManager.RemovingFrees | src/decode/decoder_manager.cpp:170-191 | removeDecoder leaves the identifier unused, unless it is still being placed |
| Json.SkipEnds | src/decode/json_mini.cpp:8-11 | white space ends at the first character that is not a space, tab, line feed or carriage return |
| Json.SkipWS | src/decode/json_mini.cpp:8-11 | the loop ends there |
| Json.ParseString | src/decode/json_mini.cpp:13-22 | the loop reads the characters up to the closing quote, with escapes resolved |
| Json.ParseArr | src/decode/json_mini.cpp:56-71 | the loop over elements |
| Json.ParseObj | src/decode/json_mini.cpp:32-54 | the loop over members; a repeated key takes the last value |
| Json.ParseMember | src/decode/json_mini.cpp:38-48 | a key, a colon and a value |
| Json.ParseValue | src/decode/json_mini.cpp:73-86 | every success advances the cursor, so the descent ends |
| JsonAcceptance.CharsRead | src/decode/json_mini.cpp:16-19 | a string is read in every spelling, whatever characters have a backslash before them |
| JsonAcceptance.CharsParsed | src/decode/json_mini.cpp:13-22 | and whatever is accepted as a string is such a spelling |
| JsonAcceptance.DocRead | src/decode/json_mini.cpp:73-86 | a document that stands at a position is read up to its end |
| JsonAcceptance.DocParsed | src/decode/json_mini.cpp:73-86 | whatever is accepted as a value is a document that stands there |
| JsonAcceptance.AcceptsIff | src/decode/json_mini.cpp:32-86 | the parser takes a value at a position if and only if, behind white space, a document of the grammar stands there, and gives its meaning and its end |
| JsonRoundTrip.CharsRoundTrip | src/decode/json_mini.cpp:16-19 | every text without a zero character is read back from its escaped form |
| JsonRoundTrip.DocRoundTrip | src/decode/json_mini.cpp:73-86 | a document standing anywhere in a text is read back up to its end |
| JsonRoundTrip.ArrayRoundTrip | src/decode/json_mini.cpp:56-71 | arrays of any nesting |
| JsonRoundTrip.ObjectRoundTrip | src/decode/json_mini.cpp:32-54 | objects of any nesting |
| JsonRoundTrip.ParseWritten | src/decode/json_mini.cpp:90-95 | the round trip for every document, with any white space of RFC 8259 in it and before it |
| JsonIntegers.IntegerRead | src/decode/json_mini.cpp:24-28 | a reader of an optional sign and the longest run of digits reads every integer wherever it stands, with or without sign and leading zeros |
| JsonIntegers.DecimalRead | src/decode/json_mini.cpp:24-28 | and so reads every integer back from its decimal writing |
| JsonIntegers.ReaderReads | src/decode/json_mini.cpp:24-28 | so a function exists that reads integers as strtod does |
| JsonIntegers.IntegersAreNumerals | src/decode/json_mini.cpp:24-28 | integers up to 2^53 may stand in a document, for every such function |
| JsonIntegers.ParseIntegers | src/decode/json_mini.cpp:73-95 | the round trip of documents whose numbers are integers, with nothing assumed |

## Left out

- Viterbi.Decoder.Decode: not for 10256 symbols or more, whose bytes would not fit in the output.
- FastFir.JFastFir.SetKernel: the size asserted at `src/dsp/jfft.cpp:373` is required of the caller.
- FastFir.JFastFir.Update: not after a second kernel that made the signal part shorter while old samples stood behind it.
- InPlaceFft.Jfft.Fft: not for a size of one, for which the bit reversal would shift a 32-bit integer by 32.
- RealFir.RealFastFir.WithKernel: takes the transform set up for half the size and the kernel's spectrum, which the program makes on the first sample and in `SetKernel`.
- Ddc.Ddc.Process: interleaved real and imaginary parts are single samples; the renormalising division is a function handed in, and `std::abs` in `Ddc.ComplexMixIsRotation` is any function that gives the modulus on the unit circle.
- Decimation.FirDecimator.constructor: filter taps and windows are floating-point trigonometry and are given.
- DecimationPlan.NearestSmooth: sums beyond 32 bits do not wrap.
- VoiceCalls.Analyzed: the bit rate is compared as a fraction. The program divides doubles (`src/lte/lte_engine.cpp:609-612`), so exactly at 2000 or 64000 bit/s, and only there, its verdict can differ: 67 bytes over 268 ms fall just short of 2000, 1632 bytes over 204 ms go just beyond 64000.
- GrantWindow.Record: frame number and subframe are in the ranges the air interface gives them.
- JsonRoundTrip.ParseWritten: `strtod` is any function that reads the numerals of the document wherever they stand; that it reads numerals other than integers is not shown of any function.
- The part built so far, which `parse` returns for a text that does not parse.
- The BPSK demodulator, the up-mix to 2 kHz and the computation of the soft table (`genMet`): floating point. Hard symbols are taken as given.
- The handlers of single packets, the assembly of multiframes and the recursive walk over an assembled one, which has no decreasing measure.
- The matrix of `deinterleave` as memory shared between threads; the model has one thread.
- Counts, weights and loads of the decoder manager are unbounded integers; the program's have 32 bits.
- Starting and joining threads, the snapshot of decoders and the demodulation in the worker loop, `status`, `getConstellation`, and the range of a frequency set by `setDecoderFreq`. Reads made without a lock while a new sub-band is placed are covered by letting the step choose any worker.
- The identity text in call events, the traffic log, bit rates and history in `src/lte/lte_engine.cpp`, and the clearing of all tables when a session restarts.
- SDR sources, network, recorder, GUI, message tables, configuration and the programs under `tools/`: lookups, formatting and buffers that would only add easy members.
