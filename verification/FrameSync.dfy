/** Frame synchronisation: a shift register of symbols, searched for the unique word in either polarity. */
module FrameSync {
  import opened Bits

  const FRAME_LENGTH: nat := 10368
  const REGISTER_LENGTH: nat := 20736

  const UNIQUE_WORD: seq<bit> :=
    [0, 0, 0, 0, 0, 1, 1, 1, 1, 1, 1, 0, 1, 0, 1, 0] + [1, 1, 0, 0, 1, 1, 0, 1, 1, 1, 0, 1, 1, 0, 1, 0] +
    [0, 1, 0, 0, 1, 1, 1, 0, 0, 0, 1, 0, 1, 1, 1, 1] + [0, 0, 1, 0, 1, 0, 0, 0, 1, 1, 0, 0, 0, 0, 1, 0]

  /** A frame as it stands in the register, newest symbol first, with its polarity put right. */
  datatype Frame = Frame(symbols: seq<bit>, reversed: bool, ber: nat)

  /** What the finder looks for: 64 bits and the number of mismatches it forgives out of 128. */
  datatype Pattern = Pattern(word: seq<bit>, tolerance: nat)
  {
    predicate Valid() {
      |word| == 64
    }

    /** A tolerance below 64 cannot be met in both polarities at once. */
    predicate Unambiguous() {
      |word| == 64 && tolerance < 64
    }
  }

  /** The pattern that the program looks for can be met in one polarity only. */
  lemma ProgramPattern()
    ensures Pattern(UNIQUE_WORD, 25).Unambiguous()
  {
  }

  function Complement(s: seq<bit>): (c: seq<bit>)
    ensures |c| == |s| && forall i :: 0 <= i < |s| ==> c[i] == 1 - s[i]
  {
    seq(|s|, i requires 0 <= i < |s| => 1 - s[i])
  }

  /** Bit p of the word against the two register cells where row p starts. */
  function RowMismatch(reg: seq<bit>, p: nat, b: bit): nat
    requires p < 64 && |reg| >= FRAME_LENGTH
  {
    Xor(b, reg[10367 - 162 * p]) + Xor(b, reg[10366 - 162 * p])
  }

  function Mismatch(word: seq<bit>, reg: seq<bit>): nat
    requires |word| <= 64 && |reg| >= FRAME_LENGTH
  {
    if word == [] then 0
    else
      var p := |word| - 1;
      Mismatch(word[..p], reg) + RowMismatch(reg, p, word[p])
  }

  lemma MismatchNone(reg: seq<bit>)
    requires |reg| >= FRAME_LENGTH
    ensures Mismatch([], reg) == 0
  {
  }

  lemma MismatchStep(word: seq<bit>, reg: seq<bit>, p: nat)
    requires p < |word| <= 64 && |reg| >= FRAME_LENGTH
    ensures Mismatch(word[..p + 1], reg)
         == Mismatch(word[..p], reg) + Xor(word[p], reg[10367 - 162 * p]) + Xor(word[p], reg[10366 - 162 * p])
  {
    assert word[..p + 1][..p] == word[..p];
  }

  // ---------- the finder as a function of its state ----------

  type int32 = x: int | -0x8000_0000 <= x < 0x8000_0000

  /** The counter is a 32-bit integer, taken to wrap around. */
  function Increment(c: int32): int32 {
    if c == 0x7FFF_FFFF then -0x8000_0000 else c + 1
  }

  function Wrapped(n: int): int32 {
    (n + 0x8000_0000) % 0x1_0000_0000 - 0x8000_0000
  }

  datatype State = State(reg: seq<bit>, count: int32)
  {
    predicate Valid() {
      |reg| == REGISTER_LENGTH
    }

    /** The counter can count a whole frame and will then be large enough. */
    predicate Listening() {
      0 <= count < 0x8000_0000 - FRAME_LENGTH
    }
  }

  function Shift(reg: seq<bit>, sym: bit): (r: seq<bit>)
    requires reg != []
    ensures |r| == |reg|
  {
    [sym] + reg[..|reg| - 1]
  }

  predicate Detects(q: Pattern, reg: seq<bit>)
    requires q.Valid() && |reg| == REGISTER_LENGTH
  {
    Mismatch(q.word, reg) <= q.tolerance || Mismatch(Complement(q.word), reg) <= q.tolerance
  }

  function Found(q: Pattern, reg: seq<bit>): Frame
    requires q.Valid() && |reg| == REGISTER_LENGTH
  {
    var n, r := Mismatch(q.word, reg), Mismatch(Complement(q.word), reg);
    var rev := r <= q.tolerance;
    Frame(if rev then Complement(reg[..FRAME_LENGTH]) else reg[..FRAME_LENGTH], rev, if n < r then n else r)
  }

  /** One symbol in: the next state, and the frame put out, if any. */
  function Step(q: Pattern, s: State, sym: bit): (r: (State, seq<Frame>))
    requires q.Valid() && s.Valid()
    ensures r.0.Valid()
  {
    var reg := Shift(s.reg, sym);
    if Increment(s.count) >= FRAME_LENGTH && Detects(q, reg) then (State(reg, 0), [Found(q, reg)])
    else (State(reg, Increment(s.count)), [])
  }

  function Run(q: Pattern, s: State, syms: seq<bit>): (r: (State, seq<Frame>))
    requires q.Valid() && s.Valid()
    ensures r.0.Valid()
  {
    if syms == [] then (s, [])
    else
      var n := |syms| - 1;
      var before := Run(q, s, syms[..n]);
      var step := Step(q, before.0, syms[n]);
      (step.0, before.1 + step.1)
  }

  // ---------- the finder's register and loops ----------

  class UwFinder {
    const q: Pattern
    const revPol: seq<bit>
    const reg: array<bit>
    var symbolCount: int32

    ghost predicate Valid()
      reads this, reg
    {
      q.Valid() && revPol == Complement(q.word) && reg.Length == REGISTER_LENGTH
    }

    ghost function Model(): (s: State)
      reads this, reg
      requires Valid()
      ensures s.Valid()
    {
      State(reg[..], symbolCount)
    }

    constructor (q: Pattern)
      requires q.Valid()
      ensures Valid() && this.q == q && fresh(reg)
      ensures Model() == State(Zeros(REGISTER_LENGTH), FRAME_LENGTH - 1)
    {
      this.q := q;
      revPol := Complement(q.word);
      reg := new bit[REGISTER_LENGTH](_ => 0);
      symbolCount := FRAME_LENGTH - 1;
      new;
      assert reg[..] == Zeros(REGISTER_LENGTH);
    }

    method Push(sym: bit) returns (out: seq<Frame>)
      requires Valid()
      modifies this, reg
      ensures Valid()
      ensures (Model(), out) == Step(q, old(Model()), sym)
    {
      hide Mismatch;
      ShiftIn(sym);
      symbolCount := Increment(symbolCount);
      out := [];
      if symbolCount >= FRAME_LENGTH {
        var found, nUW, rUW, rev := Detect();
        if found {
          var frame := reg[..FRAME_LENGTH];
          if rev {
            frame := Complement(frame);
          }
          out := [Frame(frame, rev, if nUW < rUW then nUW else rUW)];
          symbolCount := 0;
        }
      }
    }

    /** The memmove by one, and the new symbol. */
    method ShiftIn(sym: bit)
      requires Valid()
      modifies reg
      ensures reg[..] == Shift(old(reg[..]), sym)
    {
      forall i | 1 <= i < reg.Length {
        reg[i] := reg[i - 1];
      }
      reg[0] := sym;
    }

    method Detect() returns (found: bool, nUW: nat, rUW: nat, rev: bool)
      requires Valid()
      ensures nUW == Mismatch(q.word, reg[..]) && rUW == Mismatch(Complement(q.word), reg[..])
      ensures found == Detects(q, reg[..]) && rev == (rUW <= q.tolerance)
    {
      hide Mismatch;
      nUW, rUW := 0, 0;
      assert Mismatch([], reg[..]) == 0 by { MismatchNone(reg[..]); }
      var pp, sp := 0, FRAME_LENGTH - 1;
      while sp >= 0
        invariant 0 <= pp <= 64 && sp == 10367 - 162 * pp
        invariant nUW == Mismatch(q.word[..pp], reg[..]) && rUW == Mismatch(revPol[..pp], reg[..])
        decreases 64 - pp
      {
        MismatchStep(q.word, reg[..], pp);
        MismatchStep(revPol, reg[..], pp);
        nUW := nUW + Xor(q.word[pp], reg[sp]) + Xor(q.word[pp], reg[sp - 1]);
        rUW := rUW + Xor(revPol[pp], reg[sp]) + Xor(revPol[pp], reg[sp - 1]);
        pp, sp := pp + 1, sp - 162;
      }
      assert q.word[..64] == q.word && revPol[..64] == revPol;
      rev := rUW <= q.tolerance;
      found := nUW <= q.tolerance || rUW <= q.tolerance;
    }
  }

  // ---------- properties of whole runs ----------

  lemma {:induction false} RunConcat(q: Pattern, s: State, a: seq<bit>, b: seq<bit>)
    requires q.Valid() && s.Valid()
    ensures var first := Run(q, s, a);
            var second := Run(q, first.0, b);
            Run(q, s, a + b) == (second.0, first.1 + second.1)
  {
    hide Step;
    if b == [] {
      assert a + b == a;
      assert Run(q, s, a).1 + [] == Run(q, s, a).1;
    } else {
      var n := |b| - 1;
      RunConcat(q, s, a, b[..n]);
      assert (a + b)[..|a + b| - 1] == a + b[..n];
      var out, mid := Run(q, s, a).1, Run(q, Run(q, s, a).0, b[..n]);
      var last := Step(q, mid.0, b[n]).1;
      assert (out + mid.1) + last == out + (mid.1 + last);
    }
  }

  /** The mismatches in the two polarities always make up all 128 positions. */
  lemma {:induction false} MismatchesSum(word: seq<bit>, reg: seq<bit>)
    requires |word| <= 64 && |reg| >= FRAME_LENGTH
    ensures Mismatch(word, reg) + Mismatch(Complement(word), reg) == 2 * |word|
  {
    if word != [] {
      var n := |word| - 1;
      MismatchesSum(word[..n], reg);
      assert Complement(word)[..n] == Complement(word[..n]);
    }
  }

  /** So a found frame is found in one polarity only, and `reversed` says which. */
  lemma OnePolarity(q: Pattern, reg: seq<bit>)
    requires q.Unambiguous() && |reg| == REGISTER_LENGTH && Detects(q, reg)
    ensures Found(q, reg).reversed <==> !(Mismatch(q.word, reg) <= q.tolerance)
    ensures Found(q, reg).ber <= q.tolerance
  {
    MismatchesSum(q.word, reg);
  }

  predicate EmitsAt(q: Pattern, s: State, syms: seq<bit>, i: nat)
    requires q.Valid() && s.Valid() && i < |syms|
  {
    Step(q, Run(q, s, syms[..i]).0, syms[i]).1 != []
  }

  /** While fewer than 10368 symbols have come since the last frame, nothing is put out. */
  lemma {:induction false} Quiet(q: Pattern, s: State, syms: seq<bit>)
    requires q.Valid() && s.Valid() && s.count + |syms| < FRAME_LENGTH
    ensures Run(q, s, syms).1 == [] && Run(q, s, syms).0.count == s.count + |syms|
  {
    if syms != [] {
      Quiet(q, s, syms[..|syms| - 1]);
    }
  }

  /** Frames are put out at least 10368 symbols apart. */
  lemma Spacing(q: Pattern, s: State, syms: seq<bit>, i: nat, j: nat)
    requires q.Valid() && s.Valid() && i < j < |syms|
    requires EmitsAt(q, s, syms, i) && EmitsAt(q, s, syms, j)
    ensures j >= i + FRAME_LENGTH
  {
    hide Detects, Found, Shift;
    if j < i + FRAME_LENGTH {
      var a, b := syms[..i + 1], syms[i + 1..j];
      assert a[..i] == syms[..i] && syms[..j] == a + b;
      RunConcat(q, s, a, b);
      Quiet(q, Run(q, s, a).0, b);
    }
  }

  /** What was pushed stands in the register, newest first. */
  lemma {:induction false} RegisterHolds(q: Pattern, s: State, syms: seq<bit>)
    requires q.Valid() && s.Valid() && |syms| <= REGISTER_LENGTH
    ensures Run(q, s, syms).0.reg == Reverse(syms) + s.reg[..REGISTER_LENGTH - |syms|]
  {
    hide Step;
    if syms == [] {
      assert Reverse(syms) + s.reg[..REGISTER_LENGTH] == s.reg;
    } else {
      var n := |syms| - 1;
      RegisterHolds(q, s, syms[..n]);
      StepShifts(q, Run(q, s, syms[..n]).0, syms[n]);
      ShiftReversed(syms, s.reg);
    }
  }

  lemma ShiftReversed(syms: seq<bit>, reg: seq<bit>)
    requires 0 < |syms| <= |reg| == REGISTER_LENGTH
    ensures var n := |syms| - 1;
            var after := Reverse(syms) + reg[..REGISTER_LENGTH - |syms|];
            Shift(Reverse(syms[..n]) + reg[..REGISTER_LENGTH - n], syms[n]) == after
  {
    var n := |syms| - 1;
    var r := Reverse(syms[..n]);
    assert [syms[n]] + r == Reverse(syms);
    var all := r + reg[..REGISTER_LENGTH - n];
    assert all[..REGISTER_LENGTH - 1] == r + reg[..REGISTER_LENGTH - n - 1];
  }

  // ---------- alignment ----------

  /** Symbols of a frame in the order they arrive, sent in the given polarity. */
  function InPolarity(symbols: seq<bit>, reversed: bool): seq<bit> {
    if reversed then Complement(symbols) else symbols
  }

  /** Mismatches of the unique word with the places in an arriving frame that carry it. */
  predicate CarriesWord(q: Pattern, frame: seq<bit>)
    requires q.Valid() && |frame| == FRAME_LENGTH
  {
    Mismatch(q.word, Reverse(frame)) <= q.tolerance
  }

  /** Only the newest 10368 cells count. */
  lemma {:induction false} MismatchPrefix(word: seq<bit>, reg: seq<bit>, other: seq<bit>)
    requires |word| <= 64 && |reg| == FRAME_LENGTH
    ensures Mismatch(word, reg + other) == Mismatch(word, reg)
  {
    if word != [] {
      MismatchPrefix(word[..|word| - 1], reg, other);
    }
  }

  /** Complementing the register swaps the two counts. */
  lemma {:induction false} MismatchMirror(word: seq<bit>, reg: seq<bit>)
    requires |word| <= 64 && |reg| >= FRAME_LENGTH
    ensures Mismatch(word, Complement(reg)) == Mismatch(Complement(word), reg)
  {
    if word != [] {
      var n := |word| - 1;
      MismatchMirror(word[..n], reg);
      assert Complement(word)[..n] == Complement(word[..n]);
    }
  }

  /** The places of an arriving frame that carry the word, two at the start of every row, and are wrong. */
  function WordErrors(word: seq<bit>, frame: seq<bit>): set<nat>
    requires |word| <= 64 && |frame| == FRAME_LENGTH
  {
    set k: nat | k < 162 * |word| && k % 162 < 2 && frame[k] != word[k / 162]
  }

  /** The mismatches counted are the wrong places. */
  lemma {:induction false} MismatchIsErrors(word: seq<bit>, frame: seq<bit>)
    requires |word| <= 64 && |frame| == FRAME_LENGTH
    ensures Mismatch(word, Reverse(frame)) == |WordErrors(word, frame)|
  {
    if word == [] {
      assert WordErrors(word, frame) == {};
    } else {
      var n := |word| - 1;
      MismatchIsErrors(word[..n], frame);
      ErrorsOfRow(word, frame);
      assert Reverse(frame)[10367 - 162 * n] == frame[162 * n] && Reverse(frame)[10366 - 162 * n] == frame[162 * n + 1];
    }
  }

  lemma ErrorsOfRow(word: seq<bit>, frame: seq<bit>)
    requires 0 < |word| <= 64 && |frame| == FRAME_LENGTH
    ensures var n := |word| - 1;
            var e := |WordErrors(word[..n], frame)|;
            |WordErrors(word, frame)| == e + Xor(word[n], frame[162 * n]) + Xor(word[n], frame[162 * n + 1])
  {
    var n := |word| - 1;
    var a := 162 * n;
    var e := WordErrors(word[..n], frame);
    var one := if frame[a] != word[n] then {a} else {};
    var two := if frame[a + 1] != word[n] then {a + 1} else {};
    forall k: nat ensures k in WordErrors(word, frame) <==> k in e + one + two {
      RowOf(k, n);
    }
    assert WordErrors(word, frame) == e + one + two;
  }

  lemma RowOf(k: nat, n: nat)
    ensures k < 162 * (n + 1) <==> k < 162 * n || 0 <= k - 162 * n < 162
    ensures 162 * n <= k < 162 * (n + 1) ==> k / 162 == n && k % 162 == k - 162 * n
    ensures k < 162 * n ==> k / 162 < n
  {
    if 162 * n <= k < 162 * (n + 1) {
      DivModUnique(k, 162, n, k - 162 * n);
    }
  }

  /** A register whose newest part is a frame in some polarity is recognised, and gives the frame. */
  lemma FrameInRegister(q: Pattern, frame: seq<bit>, reversed: bool, rest: seq<bit>)
    requires q.Unambiguous() && |frame| == FRAME_LENGTH && CarriesWord(q, frame)
    requires |rest| == REGISTER_LENGTH - FRAME_LENGTH
    ensures var reg := Reverse(InPolarity(frame, reversed)) + rest;
            && Detects(q, reg)
            && Found(q, reg).symbols == Reverse(frame) && Found(q, reg).reversed == reversed
            && Found(q, reg).ber == |WordErrors(q.word, frame)|
  {
    var top := Reverse(InPolarity(frame, reversed));
    var reg := top + rest;
    MismatchIsErrors(q.word, frame);
    assert reg[..FRAME_LENGTH] == top;
    MismatchPrefix(q.word, top, rest);
    MismatchPrefix(Complement(q.word), top, rest);
    MismatchesSum(q.word, reg);
    if reversed {
      assert top == Complement(Reverse(frame));
      MismatchMirror(q.word, Reverse(frame));
      MismatchesSum(q.word, Reverse(frame));
      assert Complement(top) == Reverse(frame);
    }
  }

  /** Whether, with nothing put out before, the finder sees the word after symbol i of those arriving. */
  predicate SeenAt(q: Pattern, s: State, syms: seq<bit>, i: nat)
    requires q.Valid() && s.Valid() && i < |syms| <= REGISTER_LENGTH
  {
    Wrapped(s.count + i + 1) >= FRAME_LENGTH && Detects(q, Reverse(syms[..i + 1]) + s.reg[..REGISTER_LENGTH - i - 1])
  }

  /** Nothing is put out exactly if the word is never seen. */
  lemma {:induction false} SilentIff(q: Pattern, s: State, syms: seq<bit>, n: nat)
    requires q.Valid() && s.Valid() && n <= |syms| <= REGISTER_LENGTH
    ensures Run(q, s, syms[..n]).1 == [] <==> forall i :: 0 <= i < n ==> !SeenAt(q, s, syms, i)
  {
    hide SeenAt;
    if n > 0 {
      SilentIff(q, s, syms, n - 1);
      SeenNext(q, s, syms, n - 1);
      hide Run;
    }
  }

  lemma SeenNext(q: Pattern, s: State, syms: seq<bit>, i: nat)
    requires q.Valid() && s.Valid() && i < |syms| <= REGISTER_LENGTH
    ensures Run(q, s, syms[..i + 1]).1 == [] <==> Run(q, s, syms[..i]).1 == [] && !SeenAt(q, s, syms, i)
  {
    hide Detects, Found, Step;
    var t := Run(q, s, syms[..i]).0;
    assert syms[..i + 1][..i] == syms[..i];
    CountOrBusy(q, s, syms[..i]);
    WrapSteps(s.count + i);
    RegisterHolds(q, s, syms[..i + 1]);
    StepShifts(q, t, syms[i]);
  }

  lemma StepShifts(q: Pattern, s: State, sym: bit)
    requires q.Valid() && s.Valid()
    ensures Step(q, s, sym).1 == [] <==> !(Increment(s.count) >= FRAME_LENGTH && Detects(q, Step(q, s, sym).0.reg))
    ensures Step(q, s, sym).0.reg == Shift(s.reg, sym)
  {
  }

  /** Exactly when a frame is missed: the finder puts out a frame that has just arrived if and only if the
      word was not seen while it was arriving, and the counter is neither negative nor about to be. */
  lemma FoundUnlessBusy(q: Pattern, s: State, frame: seq<bit>, reversed: bool)
    requires q.Unambiguous() && s.Valid() && |frame| == FRAME_LENGTH && CarriesWord(q, frame)
    ensures var syms := InPolarity(frame, reversed);
            var n := FRAME_LENGTH - 1;
            && (EmitsAt(q, s, syms, n) <==> s.Listening() && forall i :: 0 <= i < n ==> !SeenAt(q, s, syms, i))
            && (EmitsAt(q, s, syms, n) ==>
                && Run(q, s, syms).0.count == 0 && |Run(q, s, syms).1| == 1
                && Run(q, s, syms).1[0].symbols == Reverse(frame) && Run(q, s, syms).1[0].reversed == reversed
                && Run(q, s, syms).1[0].ber == |WordErrors(q.word, frame)|)
  {
    hide Detects, Found, SeenAt;
    var syms := InPolarity(frame, reversed);
    var n := FRAME_LENGTH - 1;
    RegisterHolds(q, s, syms);
    FrameInRegister(q, frame, reversed, s.reg[..REGISTER_LENGTH - FRAME_LENGTH]);
    CountOrBusy(q, s, syms[..n]);
    WrapSteps(s.count + n);
    SilentIff(q, s, syms, n);
  }

  lemma WrapSteps(n: int)
    ensures Wrapped(n + 1) == Increment(Wrapped(n))
    ensures -0x8000_0000 <= n < 0x8000_0000 ==> Wrapped(n) == n
    ensures 0x8000_0000 <= n < 0x1_8000_0000 ==> Wrapped(n) == n - 0x1_0000_0000
  {
  }

  /** Either a frame was put out on the way, or all symbols have been counted. */
  lemma {:induction false} CountOrBusy(q: Pattern, s: State, syms: seq<bit>)
    requires q.Valid() && s.Valid()
    ensures Run(q, s, syms).1 == [] ==> Run(q, s, syms).0.count == Wrapped(s.count + |syms|)
    ensures Run(q, s, syms).1 != [] ==> Run(q, s, syms).0.count < |syms|
  {
    hide Detects, Found, Wrapped;
    WrapSteps(s.count);
    if syms != [] {
      CountOrBusy(q, s, syms[..|syms| - 1]);
      WrapSteps(s.count + |syms| - 1);
    }
  }

  function Ones(word: seq<bit>): nat {
    if word == [] then 0 else Ones(word[..|word| - 1]) + word[|word| - 1]
  }

  lemma {:induction false} MismatchOfZeros(word: seq<bit>, reg: seq<bit>)
    requires |word| <= 64 && |reg| >= FRAME_LENGTH && forall i :: 0 <= i < |reg| ==> reg[i] == 0
    ensures Mismatch(word, reg) == 2 * Ones(word)
  {
    if word != [] {
      MismatchOfZeros(word[..|word| - 1], reg);
    }
  }

  lemma {:induction false} OnesConcat(a: seq<bit>, b: seq<bit>)
    ensures Ones(a + b) == Ones(a) + Ones(b)
  {
    if b == [] {
      assert a + b == a;
    } else {
      OnesConcat(a, b[..|b| - 1]);
      assert (a + b)[..|a + b| - 1] == a + b[..|b| - 1];
    }
  }

  lemma OnesOfSixteen(w: seq<bit>)
    requires |w| == 16
    ensures Ones(w) == (w[0] as int) + w[1] + w[2] + w[3] + w[4] + w[5] + w[6] + w[7]
                       + w[8] + w[9] + w[10] + w[11] + w[12] + w[13] + w[14] + w[15]
  {
    assert Ones(w[..0]) == 0;
    forall n | 0 <= n < 16 ensures Ones(w[..n + 1]) == Ones(w[..n]) + w[n] {
      assert w[..n + 1][..n] == w[..n];
    }
    assert w[..16] == w;
  }

  /** Half of the unique word is ones, so a line that is always zero is far from it in either polarity. */
  lemma HalfOnes()
    ensures Ones(UNIQUE_WORD) == 32
  {
    hide Ones;
    var a, b := UNIQUE_WORD[..16], UNIQUE_WORD[16..32];
    var c, d := UNIQUE_WORD[32..48], UNIQUE_WORD[48..];
    OnesOfSixteen(a);
    OnesOfSixteen(b);
    OnesOfSixteen(c);
    OnesOfSixteen(d);
    OnesConcat(a, b);
    OnesConcat(a + b, c);
    OnesConcat(a + b + c, d);
    assert a + b + c + d == UNIQUE_WORD;
  }

  /** What the guard on the counter means: 2^31 symbols without a frame make it negative, and then nothing is
      put out for another 2^31 symbols and almost a frame, whatever arrives. */
  lemma OverflowDeafens(q: Pattern, s: State, silent: seq<bit>, more: seq<bit>)
    requires q.Valid() && s.Valid() && s.count == 0 && |silent| == 0x8000_0000 && Run(q, s, silent).1 == []
    requires |more| < 0x8000_0000 + FRAME_LENGTH
    ensures Run(q, s, silent).0.count == -0x8000_0000 && Run(q, s, silent + more).1 == []
  {
    hide Run, Wrapped;
    CountOrBusy(q, s, silent);
    WrapSteps(0x8000_0000);
    Quiet(q, Run(q, s, silent).0, more);
    RunConcat(q, s, silent, more);
  }

  /** Such a run: on a line that is always zero nothing is found, and the counter goes round. */
  lemma {:induction false} NothingInZeros(q: Pattern, s: State, n: nat)
    requires q == Pattern(UNIQUE_WORD, 25) && s.Valid() && s.reg == Zeros(REGISTER_LENGTH)
    ensures Run(q, s, Zeros(n)) == (State(s.reg, Wrapped(s.count + n)), [])
  {
    hide Wrapped, Step;
    WrapSteps(s.count);
    if n > 0 {
      NothingInZeros(q, s, n - 1);
      assert Zeros(n)[..n - 1] == Zeros(n - 1);
      WrapSteps(s.count + n - 1);
      ZeroIn(q, Wrapped(s.count + n - 1));
      assert Run(q, s, Zeros(n)).1 == [] + [];
    }
  }

  lemma ZeroIn(q: Pattern, c: int32)
    requires q == Pattern(UNIQUE_WORD, 25)
    ensures Step(q, State(Zeros(REGISTER_LENGTH), c), 0) == (State(Zeros(REGISTER_LENGTH), Increment(c)), [])
  {
    hide Detects;
    ZerosUndetected();
    assert Shift(Zeros(REGISTER_LENGTH), 0) == Zeros(REGISTER_LENGTH);
  }

  lemma ZerosUndetected()
    ensures !Detects(Pattern(UNIQUE_WORD, 25), Zeros(REGISTER_LENGTH))
  {
    hide Ones, Mismatch;
    HalfOnes();
    MismatchOfZeros(UNIQUE_WORD, Zeros(REGISTER_LENGTH));
    MismatchesSum(UNIQUE_WORD, Zeros(REGISTER_LENGTH));
  }

  lemma FoundWhenAligned(q: Pattern, s: State, frame: seq<bit>, reversed: bool)
    requires q.Unambiguous() && s.Valid() && s.count == 0 && |frame| == FRAME_LENGTH && CarriesWord(q, frame)
    ensures var r := Run(q, s, InPolarity(frame, reversed));
            && r.0.count == 0 && |r.1| == 1
            && r.1[0].symbols == Reverse(frame) && r.1[0].reversed == reversed
            && r.1[0].ber == |WordErrors(q.word, frame)|
  {
    hide Run, SeenAt, EmitsAt, CarriesWord;
    var syms := InPolarity(frame, reversed);
    Quiet(q, s, syms[..FRAME_LENGTH - 1]);
    SilentIff(q, s, syms, FRAME_LENGTH - 1);
    FoundUnlessBusy(q, s, frame, reversed);
  }

  /** Frames sent back to back, each in its own polarity. */
  function Stream(frames: seq<seq<bit>>, reversed: seq<bool>): seq<bit>
    requires |frames| == |reversed|
  {
    if frames == [] then []
    else
      var n := |frames| - 1;
      Stream(frames[..n], reversed[..n]) + InPolarity(frames[n], reversed[n])
  }

  lemma RunNothing(q: Pattern, s: State)
    requires q.Valid() && s.Valid()
    ensures Run(q, s, []) == (s, [])
  {
  }

  /** Once aligned, no frame is missed and none is invented. */
  lemma {:induction false} StaysAligned(q: Pattern, s: State, frames: seq<seq<bit>>, reversed: seq<bool>)
    requires q.Unambiguous() && s.Valid() && s.count == 0 && |frames| == |reversed|
    requires forall i :: 0 <= i < |frames| ==> |frames[i]| == FRAME_LENGTH && CarriesWord(q, frames[i])
    ensures var r := Run(q, s, Stream(frames, reversed));
            && r.0.count == 0 && |r.1| == |frames|
            && forall i :: 0 <= i < |frames| ==>
                 && r.1[i].symbols == Reverse(frames[i]) && r.1[i].reversed == reversed[i]
                 && r.1[i].ber == |WordErrors(q.word, frames[i])|
  {
    hide CarriesWord, Run;
    if frames == [] {
      RunNothing(q, s);
    } else {
      var n := |frames| - 1;
      var a, b := Stream(frames[..n], reversed[..n]), InPolarity(frames[n], reversed[n]);
      StaysAligned(q, s, frames[..n], reversed[..n]);
      RunConcat(q, s, a, b);
      var t := Run(q, s, a).0;
      FoundWhenAligned(q, t, frames[n], reversed[n]);
    }
  }

  /** The newest symbol of a frame is none of those that carry the word. */
  lemma {:induction false} MismatchNewest(word: seq<bit>, reg: seq<bit>, x: bit)
    requires |word| <= 64 && |reg| >= FRAME_LENGTH
    ensures Mismatch(word, [x] + reg[1..]) == Mismatch(word, reg)
  {
    if word != [] {
      MismatchNewest(word[..|word| - 1], reg, x);
    }
  }

  lemma NewestIsFree(q: Pattern, a: seq<bit>, x: bit)
    requires q.Valid() && |a| == FRAME_LENGTH && CarriesWord(q, a)
    ensures CarriesWord(q, a[..FRAME_LENGTH - 1] + [x])
    ensures Reverse(a[..FRAME_LENGTH - 1] + [x]) == [x] + Reverse(a)[1..]
  {
    hide Mismatch;
    assert Reverse(a[..FRAME_LENGTH - 1] + [x]) == [x] + Reverse(a)[1..];
    MismatchNewest(q.word, Reverse(a), x);
  }

  /** How a frame is lost: if the last symbol of one frame goes missing, the first symbol of the next takes
      its place, and the next frame, however well it arrives, is not put out. */
  lemma LostSymbolLosesFrame(q: Pattern, s: State, a: seq<bit>, b: seq<bit>)
    requires q.Unambiguous() && s.Valid() && s.count == 0
    requires |a| == |b| == FRAME_LENGTH && CarriesWord(q, a) && CarriesWord(q, b)
    ensures var r := Run(q, s, a[..FRAME_LENGTH - 1] + b);
            && r.0.count == FRAME_LENGTH - 1 && r.0.reg[..FRAME_LENGTH] == Reverse(b)
            && |r.1| == 1 && r.1[0].symbols == [b[0]] + Reverse(a)[1..]
  {
    hide Run, Step, CarriesWord, SeenAt;
    var most := a[..FRAME_LENGTH - 1];
    var joined := most + [b[0]];
    NewestIsFree(q, a, b[0]);
    FoundWhenAligned(q, s, joined, false);
    var t := Run(q, s, joined).0;
    Quiet(q, t, b[1..]);
    RunConcat(q, s, joined, b[1..]);
    assert joined + b[1..] == most + b;
    RegisterHolds(q, s, joined);
    RegisterHolds(q, t, b[1..]);
    RegisterTop(b, t.reg, Reverse(joined), s.reg[..REGISTER_LENGTH - FRAME_LENGTH]);
  }

  lemma RegisterTop(b: seq<bit>, reg: seq<bit>, top: seq<bit>, rest: seq<bit>)
    requires |b| == |top| == FRAME_LENGTH && |reg| == REGISTER_LENGTH && reg == top + rest && top[0] == b[0]
    ensures (Reverse(b[1..]) + reg[..REGISTER_LENGTH - |b[1..]|])[..FRAME_LENGTH] == Reverse(b)
  {
  }

  // ---------- polarity ----------

  function Mirror(s: State): State {
    State(Complement(s.reg), s.count)
  }

  predicate SameButReversed(a: seq<Frame>, b: seq<Frame>) {
    |a| == |b| && forall i :: 0 <= i < |a| ==>
      b[i].symbols == a[i].symbols && b[i].ber == a[i].ber && b[i].reversed == !a[i].reversed
  }

  lemma MirrorStep(q: Pattern, s: State, sym: bit)
    requires q.Unambiguous() && s.Valid()
    ensures Step(q, Mirror(s), 1 - sym).0 == Mirror(Step(q, s, sym).0)
    ensures SameButReversed(Step(q, s, sym).1, Step(q, Mirror(s), 1 - sym).1)
  {
    hide Mismatch;
    var reg, mir := Shift(s.reg, sym), Shift(Complement(s.reg), 1 - sym);
    assert mir == Complement(reg);
    MismatchMirror(q.word, reg);
    MismatchMirror(Complement(q.word), reg);
    assert Complement(Complement(q.word)) == q.word;
    MismatchesSum(q.word, reg);
    assert mir[..FRAME_LENGTH] == Complement(reg[..FRAME_LENGTH]);
    assert Complement(mir[..FRAME_LENGTH]) == reg[..FRAME_LENGTH];
  }

  /** A complemented stream gives the same frames, each with the other polarity flag. */
  lemma {:induction false} MirrorRun(q: Pattern, s: State, syms: seq<bit>)
    requires q.Unambiguous() && s.Valid()
    ensures var r, m := Run(q, s, syms), Run(q, Mirror(s), Complement(syms));
            m.0 == Mirror(r.0) && SameButReversed(r.1, m.1)
  {
    hide Step;
    if syms != [] {
      var n := |syms| - 1;
      MirrorRun(q, s, syms[..n]);
      assert Complement(syms)[..n] == Complement(syms[..n]);
      MirrorStep(q, Run(q, s, syms[..n]).0, syms[n]);
    }
  }
}
