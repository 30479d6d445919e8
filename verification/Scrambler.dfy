/** The descrambler: every byte is read backwards, and groups of four bytes are complemented where a
    shift-register sequence has a one. */
module Scrambler {
  import opened Bits

  // ---------- the sequence ----------

  /** The recurrence that the feedback taps stand for: d(n) = d(n-8) + d(n-6) + d(n-5) + d(n-4) mod 2,
      from the seed 0x80 read low bit first. */
  function Keystream(n: nat): bit {
    if n < 7 then 0
    else if n == 7 then 1
    else Xor(Xor(Xor(Keystream(n - 8), Keystream(n - 6)), Keystream(n - 5)), Keystream(n - 4))
  }

  /** How the sequence begins. */
  lemma SequenceBegins()
    ensures Keystream(8) == 0 && Keystream(9) == 0 && Keystream(10) == 0 && Keystream(11) == 1
    ensures Keystream(12) == 1 && Keystream(13) == 1 && Keystream(14) == 0 && Keystream(15) == 0
    ensures Keystream(16) == 0 && Keystream(17) == 1 && Keystream(18) == 0 && Keystream(19) == 0
    ensures Keystream(20) == 1 && Keystream(21) == 0 && Keystream(22) == 1 && Keystream(23) == 1
  {
  }

  function Register(k0: bit, k1: bit, k2: bit, k3: bit, k4: bit, k5: bit, k6: bit, k7: bit): nat {
    k0 + 2 * k1 + 4 * k2 + 8 * k3 + 16 * k4 + 32 * k5 + 64 * k6 + 128 * k7
  }

  /** The register before output n: the next eight terms, the nearest in the low bit. */
  function RegisterAt(n: nat): nat {
    Register(Keystream(n), Keystream(n + 1), Keystream(n + 2), Keystream(n + 3),
             Keystream(n + 4), Keystream(n + 5), Keystream(n + 6), Keystream(n + 7))
  }

  lemma RegisterTaps(k0: bit, k1: bit, k2: bit, k3: bit, k4: bit, k5: bit, k6: bit, k7: bit)
    ensures var reg := Register(k0, k1, k2, k3, k4, k5, k6, k7);
            reg % 2 == k0 && reg / 4 % 2 == k2 && reg / 8 % 2 == k3 && reg / 16 % 2 == k4
            && reg / 2 == Register(k1, k2, k3, k4, k5, k6, k7, 0)
  {
    var reg := Register(k0, k1, k2, k3, k4, k5, k6, k7);
    DivModUnique(reg, 2, Register(k1, k2, k3, k4, k5, k6, k7, 0), k0);
    DivModUnique(reg, 4, Register(k2, k3, k4, k5, k6, k7, 0, 0), k0 + 2 * k1);
    DivModUnique(reg / 4, 2, Register(k3, k4, k5, k6, k7, 0, 0, 0), k2);
    DivModUnique(reg, 8, Register(k3, k4, k5, k6, k7, 0, 0, 0), k0 + 2 * k1 + 4 * k2);
    DivModUnique(reg / 8, 2, Register(k4, k5, k6, k7, 0, 0, 0, 0), k3);
    DivModUnique(reg, 16, Register(k4, k5, k6, k7, 0, 0, 0, 0), k0 + 2 * k1 + 4 * k2 + 8 * k3);
    DivModUnique(reg / 16, 2, Register(k5, k6, k7, 0, 0, 0, 0, 0), k4);
  }

  method Sequence() returns (ds: seq<bit>)
    ensures |ds| == 160 && forall i :: 0 <= i < 160 ==> ds[i] == Keystream(i)
  {
    hide RegisterAt, Keystream, Xor;
    ds := [];
    var reg: nat := 0x80;
    Seed();
    for i := 0 to 160
      invariant |ds| == i && reg == RegisterAt(i)
      invariant forall k :: 0 <= k < i ==> ds[k] == Keystream(k)
    {
      Clock(i);
      var x7: bit := reg % 2;
      ds := ds + [x7];
      var x5: bit, x4: bit, x3: bit := reg / 4 % 2, reg / 8 % 2, reg / 16 % 2;
      var nb: nat := Xor(Xor(Xor(x7, x5), x4), x3);
      reg := reg / 2 + 128 * nb;
    }
  }

  lemma Clock(n: nat)
    ensures var reg := RegisterAt(n);
            var fed: nat := Xor(Xor(Xor(reg % 2, reg / 4 % 2), reg / 8 % 2), reg / 16 % 2);
            reg % 2 == Keystream(n) && RegisterAt(n + 1) == reg / 2 + 128 * fed
  {
    hide Register;
    RegisterTaps(Keystream(n), Keystream(n + 1), Keystream(n + 2), Keystream(n + 3),
                 Keystream(n + 4), Keystream(n + 5), Keystream(n + 6), Keystream(n + 7));
    Feedback(n);
  }

  lemma Seed()
    ensures RegisterAt(0) == 0x80
  {
  }

  lemma Feedback(n: nat)
    ensures RegisterAt(n + 1)
         == Register(Keystream(n + 1), Keystream(n + 2), Keystream(n + 3), Keystream(n + 4), Keystream(n + 5),
                     Keystream(n + 6), Keystream(n + 7), 0)
            + 128 * (Xor(Xor(Xor(Keystream(n), Keystream(n + 2)), Keystream(n + 3)), Keystream(n + 4)) as int)
  {
  }

  // ---------- bytes ----------

  /** A byte with its bits in the opposite order. */
  function Backwards(x: nat): (y: nat)
    ensures y < 256
  {
    ValBound(Reverse(BitsOf(x, 8)));
    assert Pow2(8) == 256;
    Val(Reverse(BitsOf(x, 8)))
  }

  method Invert(x: nat) returns (r: nat)
    requires x < 256
    ensures r == Backwards(x)
  {
    hide Val, Pow2;
    ghost var back := Reverse(BitsOf(x, 8));
    InvertEnds(back);
    r := 0;
    for b := 0 to 8
      invariant r == Val(back[..b]) * Pow2(8 - b)
    {
      var v := (x / Pow2(b)) % 2;
      BitOfByte(x, b);
      InvertStep(back, b);
      r := r + v * Pow2(7 - b);
    }
  }

  lemma InvertEnds(back: seq<bit>)
    requires |back| == 8
    ensures Val(back[..0]) * Pow2(8) == 0 && Val(back[..8]) * Pow2(0) == Val(back)
  {
    assert back[..0] == [] && back[..8] == back;
  }

  lemma InvertStep(back: seq<bit>, b: nat)
    requires |back| == 8 && b < 8
    ensures Val(back[..b]) * Pow2(8 - b) + back[b] * Pow2(7 - b) == Val(back[..b + 1]) * Pow2(7 - b)
  {
    hide Val, Pow2;
    assert back[..b + 1] == back[..b] + [back[b]];
    ValAppend(back[..b], back[b]);
    assert Pow2(8 - b) == 2 * Pow2(7 - b) by { PowStep(7 - b); }
    Twice(Val(back[..b]), Pow2(7 - b));
    Distribute(2 * Val(back[..b]), back[b], Pow2(7 - b));
  }

  lemma Distribute(a: int, b: int, c: int)
    ensures (a + b) * c == a * c + b * c
  {
  }

  lemma BitOfByte(x: nat, b: nat)
    requires x < 256 && b < 8
    ensures x / Pow2(b) % 2 == BitsOf(x, 8)[7 - b]
  {
    assert Pow2(8) == 256;
    hide Val, BitsOf, Pow2;
    BitsOfVal(x, 8);
    ValDivMod(BitsOf(x, 8), 8 - b);
    LowBit(BitsOf(x, 8)[..8 - b]);
  }

  lemma LowBit(bs: seq<bit>)
    requires bs != []
    ensures Val(bs) % 2 == bs[|bs| - 1]
  {
  }

  lemma BackwardsTwice(bs: seq<bit>)
    requires |bs| == 8
    ensures Backwards(Val(bs)) == Val(Reverse(bs)) && Backwards(Backwards(Val(bs))) == Val(bs)
  {
    var back := Reverse(bs);
    ValBitsOf(bs);
    ValBitsOf(back);
    assert Reverse(back) == bs;
  }

  // ---------- a frame ----------

  const FRAME_BYTES: nat := 640

  /** A byte under the sequence: complemented in the groups where it has a one. */
  function Masked(x: nat, k: nat): nat
    requires x < 256
  {
    if Keystream(k / 4) == 1 then 255 - x else x
  }

  /** The receiver's side: byte k of the frame from byte k of the decoder. */
  function Descrambled(x: nat, k: nat): nat {
    var y := Backwards(x);
    if Keystream(k / 4) == 1 then 255 - y else y
  }

  method Descramble(vit: seq<nat>) returns (dst: seq<int>)
    requires |vit| == FRAME_BYTES && forall k :: 0 <= k < FRAME_BYTES ==> vit[k] < 256
    ensures |dst| == FRAME_BYTES && forall k :: 0 <= k < FRAME_BYTES ==> dst[k] == Descrambled(vit[k], k)
  {
    hide Keystream, Backwards;
    dst := [];
    for i := 0 to FRAME_BYTES
      invariant |dst| == i && forall k :: 0 <= k < i ==> dst[k] == Backwards(vit[k])
    {
      var b := Invert(vit[i]);
      dst := dst + [b];
    }
    var ds := Sequence();
    var jj := 0;
    for i := 0 to 160
      invariant jj == 4 * i && |dst| == FRAME_BYTES
      invariant forall k :: 0 <= k < jj ==> dst[k] == Descrambled(vit[k], k)
      invariant forall k :: jj <= k < FRAME_BYTES ==> dst[k] == Backwards(vit[k])
    {
      if ds[i] == 1 {
        dst := dst[jj := 255 - dst[jj]][jj + 1 := 255 - dst[jj + 1]]
                  [jj + 2 := 255 - dst[jj + 2]][jj + 3 := 255 - dst[jj + 3]];
      }
      jj := jj + 4;
    }
  }

  /** The transmitter's side: mask, then send the low bit first. */
  function Scrambled(x: nat, k: nat): nat
    requires x < 256
  {
    Backwards(Masked(x, k))
  }

  lemma DescrambleScramble(x: nat, k: nat)
    requires x < 256
    ensures Scrambled(x, k) < 256 && Descrambled(Scrambled(x, k), k) == x
  {
    assert Pow2(8) == 256;
    var y := Masked(x, k);
    BitsOfVal(y, 8);
    BackwardsTwice(BitsOf(y, 8));
    ValBound(Reverse(BitsOf(y, 8)));
  }

  /** The message bits of a frame: every scrambled byte, high bit first. */
  function Message(frame: seq<nat>): (u: seq<bit>)
    requires forall k :: 0 <= k < |frame| ==> frame[k] < 256
    ensures |u| == 8 * |frame|
  {
    if frame == [] then []
    else
      var n := |frame| - 1;
      Message(frame[..n]) + BitsOf(Scrambled(frame[n], n), 8)
  }

  lemma {:induction false} MessageByte(frame: seq<nat>, k: nat)
    requires forall i :: 0 <= i < |frame| ==> frame[i] < 256
    requires k < |frame|
    ensures Val(Message(frame)[8 * k..8 * k + 8]) == Scrambled(frame[k], k)
  {
    hide Scrambled, BitsOf, Val;
    var n := |frame| - 1;
    var u, last := Message(frame[..n]), BitsOf(Scrambled(frame[n], n), 8);
    if k == n {
      assert Message(frame)[8 * k..8 * k + 8] == last;
      assert Pow2(8) == 256;
      DescrambleScramble(frame[n], n);
      BitsOfVal(Scrambled(frame[n], n), 8);
    } else {
      MessageByte(frame[..n], k);
      assert Message(frame)[8 * k..8 * k + 8] == u[8 * k..8 * k + 8];
    }
  }
}
