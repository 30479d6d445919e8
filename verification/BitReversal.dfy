/** The two bit reversals of the FFT: bit by bit, and by exchanging ever larger groups of bits under
    masks.

    Unsigned 32-bit integers are naturals that wrap with `Word`. */
module BitReversal {
  import opened Bits

  // ---------- bitwise operators ----------

  function And(a: nat, b: nat): nat
    decreases a
  {
    if a == 0 then 0 else 2 * And(a / 2, b / 2) + a % 2 * (b % 2)
  }

  function Or(a: nat, b: nat): nat
    decreases a + b
  {
    if a + b == 0 then 0 else 2 * Or(a / 2, b / 2) + (if a % 2 == 1 || b % 2 == 1 then 1 else 0)
  }

  lemma {:induction false} AndBits(a: nat, b: nat, n: nat)
    ensures forall i :: 0 <= i < n ==> BitsOf(And(a, b), n)[i] == BitsOf(a, n)[i] * BitsOf(b, n)[i]
  {
    if n > 0 {
      AndBits(a / 2, b / 2, n - 1);
      BitsOfStep(a, n);
      BitsOfStep(b, n);
      BitsOfStep(And(a, b), n);
      AndLow(a, b);
    }
  }

  lemma AndLow(a: nat, b: nat)
    ensures And(a, b) % 2 == a % 2 * (b % 2) && And(a, b) / 2 == And(a / 2, b / 2)
  {
    var p := a % 2 * (b % 2);
    assert p <= 1;
    if a > 0 {
      DivModUnique(And(a, b), 2, And(a / 2, b / 2), p);
    }
  }

  lemma {:induction false} OrBits(a: nat, b: nat, n: nat)
    ensures forall i :: 0 <= i < n ==>
              BitsOf(Or(a, b), n)[i] == if BitsOf(a, n)[i] == 1 || BitsOf(b, n)[i] == 1 then 1 else 0
  {
    if n > 0 {
      OrBits(a / 2, b / 2, n - 1);
      BitsOfStep(a, n);
      BitsOfStep(b, n);
      BitsOfStep(Or(a, b), n);
      OrLow(a, b);
    }
  }

  lemma OrLow(a: nat, b: nat)
    ensures Or(a, b) % 2 == (if a % 2 == 1 || b % 2 == 1 then 1 else 0) && Or(a, b) / 2 == Or(a / 2, b / 2)
  {
    if a + b > 0 {
      DivModUnique(Or(a, b), 2, Or(a / 2, b / 2), if a % 2 == 1 || b % 2 == 1 then 1 else 0);
    }
  }

  /** x & (2^j - 1) is x modulo 2^j. */
  lemma {:induction false} AndMask(x: nat, j: nat)
    ensures And(x, Pow2(j) - 1) == x % Pow2(j)
  {
    if j > 0 {
      var m := Pow2(j - 1);
      AndMask(x / 2, j - 1);
      AndLow(x, 2 * m - 1);
      OddHalf(m);
      HalfMod(x, m);
    } else {
      AndZero(x);
    }
  }

  lemma OddHalf(m: nat)
    requires m > 0
    ensures (2 * m - 1) / 2 == m - 1 && (2 * m - 1) % 2 == 1
  {
  }

  lemma HalfMod(x: nat, m: nat)
    requires m > 0
    ensures x % (2 * m) == 2 * (x / 2 % m) + x % 2
  {
    var q, r := x / 2 / m, x / 2 % m;
    assert x / 2 == q * m + r;
    assert q * (2 * m) == 2 * (q * m);
    DivModUnique(x, 2 * m, q, 2 * r + x % 2);
  }

  lemma {:induction false} AndZero(x: nat)
    ensures And(x, 0) == 0
  {
    if x > 0 {
      AndZero(x / 2);
    }
  }

  // ---------- reversal ----------

  /** The p low bits of i in the opposite order. */
  function Rev(p: nat, i: nat): (r: nat)
    ensures r < Pow2(p)
  {
    ValBound(Reverse(BitsOf(i, p)));
    Val(Reverse(BitsOf(i, p)))
  }

  lemma RevTwice(p: nat, i: nat)
    requires i < Pow2(p)
    ensures Rev(p, Rev(p, i)) == i
  {
    var b := BitsOf(i, p);
    ValBitsOf(Reverse(b));
    assert Reverse(Reverse(b)) == b;
    BitsOfVal(i, p);
  }

  /** The lowest bit goes to the top, the rest is reversed below it. */
  lemma RevStep(p: nat, i: nat)
    requires p > 0
    ensures Rev(p, i) == i % 2 * Pow2(p - 1) + Rev(p - 1, i / 2)
  {
    var b := BitsOf(i / 2, p - 1);
    var low: bit := i % 2;
    BitsOfStep(i, p);
    assert Reverse(b + [low]) == [low] + Reverse(b);
    ValConcat([low], Reverse(b));
    assert [low] == [] + [low];
    ValAppend([], low);
  }

  /** The clear version: shift bits out of one integer into another. */
  method SlowReverse(i: nat, p: nat) returns (ti2: nat)
    ensures ti2 == Rev(p, i)
  {
    hide Rev, Pow2;
    var ti := i;
    ti2 := 0;
    PowStart(p, i);
    for j := 0 to p
      invariant ti2 * Pow2(p - j) + Rev(p - j, ti) == Rev(p, i)
    {
      RevStep(p - j, ti);
      Push(ti2, ti % 2, Pow2(p - j - 1));
      PowStep(p - j - 1);
      ti2 := 2 * ti2 + ti % 2;
      ti := ti / 2;
    }
    PowEnd(ti2, ti);
  }

  lemma PowStart(p: nat, i: nat)
    ensures 0 * Pow2(p) + Rev(p, i) == Rev(p, i)
  {
  }

  lemma PowEnd(x: nat, i: nat)
    ensures x * Pow2(0) + Rev(0, i) == x
  {
  }

  lemma Push(x: nat, b: nat, m: nat)
    ensures x * (2 * m) + b * m == (2 * x + b) * m
  {
  }

  // ---------- the masked version ----------

  /** Shifts, on bit strings. */
  lemma ShiftRight(x: nat, k: nat, d: nat, q: nat)
    requires k <= 32 && x < 0x1_0000_0000 && d == Pow2(k) && q == x / d
    ensures BitsOf(q, 32) == Zeros(k) + BitsOf(x, 32)[..32 - k]
  {
    Powers();
    hide Pow2, Val, BitsOf;
    var b := BitsOf(x, 32);
    BitsOfVal(x, 32);
    ValDivMod(b, 32 - k);
    ValConcat(Zeros(k), b[..32 - k]);
    ValZeros(k);
    ValBitsOf(Zeros(k) + b[..32 - k]);
  }

  lemma ShiftLeft(x: nat, k: nat, d: nat)
    requires k <= 32 && x < 0x1_0000_0000 && d == Pow2(k)
    ensures BitsOf(Word(x * d), 32) == BitsOf(x, 32)[k..] + Zeros(k)
  {
    Powers();
    hide Pow2, Val, BitsOf, Word;
    var b := BitsOf(x, 32);
    BitsOfVal(x, 32);
    ValConcat(b, Zeros(k));
    ValZeros(k);
    var c := b + Zeros(k);
    ValDivMod(c, k);
    WordIsMod(Val(c));
    assert c[k..] == b[k..] + Zeros(k);
    ValBitsOf(c[k..]);
  }

  lemma SmallBits(x: nat, y: nat)
    requires x < 0x1_0000_0000 && y < 0x1_0000_0000
    ensures And(x, y) < 0x1_0000_0000
    ensures Or(x, y) < 0x1_0000_0000
  {
    Powers();
    AndBound(x, y, 32);
    OrBound(x, y, 32);
  }

  lemma {:induction false} AndBound(a: nat, b: nat, n: nat)
    requires a < Pow2(n)
    ensures And(a, b) < Pow2(n)
  {
    if n > 0 {
      AndBound(a / 2, b / 2, n - 1);
      AndLow(a, b);
    }
  }

  lemma {:induction false} OrBound(a: nat, b: nat, n: nat)
    requires a < Pow2(n) && b < Pow2(n)
    ensures Or(a, b) < Pow2(n)
  {
    if n > 0 {
      OrBound(a / 2, b / 2, n - 1);
      OrLow(a, b);
    }
  }

  /** A mask that keeps every other group of k bits, from the top or after the first group. */
  predicate Keeps(mask: nat, k: nat, first: bool)
    requires k > 0
  {
    forall i :: 0 <= i < 32 ==> BitsOf(mask, 32)[i] == if (i / k % 2 == 0) == first then 1 else 0
  }

  /** Where a bit comes from when neighbouring groups of k bits change places. */
  function Partner(i: nat, k: nat): int
    requires k > 0
  {
    if i / k % 2 == 0 then i + k else i - k
  }

  /** One round: neighbouring groups of k bits change places. */
  lemma Exchange(y: nat, hi: nat, lo: nat, k: nat, d: nat) returns (z: nat)
    requires y < 0x1_0000_0000 && hi < 0x1_0000_0000 && lo < 0x1_0000_0000
    requires k in {1, 2, 4, 8} && d == Pow2(k) && Keeps(hi, k, true) && Keeps(lo, k, false)
    ensures z == Or(And(y, hi) / d, Word(And(y, lo) * d)) && z < 0x1_0000_0000
    ensures forall i :: 0 <= i < 32 ==> 0 <= Partner(i, k) < 32 && BitsOf(z, 32)[i] == BitsOf(y, 32)[Partner(i, k)]
  {
    hide And, Or, Word, BitsOf, Pow2;
    var a, b := And(y, hi), And(y, lo);
    SmallBits(y, hi);
    SmallBits(y, lo);
    AndBits(y, hi, 32);
    AndBits(y, lo, 32);
    ShiftRight(a, k, d, a / d);
    ShiftLeft(b, k, d);
    z := Or(a / d, Word(b * d));
    SmallBits(a / d, Word(b * d));
    OrBits(a / d, Word(b * d), 32);
    forall i | 0 <= i < 32
      ensures 0 <= Partner(i, k) < 32 && BitsOf(z, 32)[i] == BitsOf(y, 32)[Partner(i, k)]
    {
      GroupNeighbours(i, k);
    }
  }

  lemma GroupNeighbours(i: nat, k: nat)
    requires i < 32 && k in {1, 2, 4, 8}
    ensures if i / k % 2 == 0 then i + k < 32 && (i + k) / k % 2 == 1 else i >= k && (i - k) / k % 2 == 0
    ensures i / k % 2 == 0 && i >= k ==> (i - k) / k % 2 == 1
    ensures i / k % 2 == 1 && i + k < 32 ==> (i + k) / k % 2 == 0
  {
    if k == 1 {
    } else if k == 2 {
    } else if k == 4 {
    } else {
    }
  }

  // ---------- five rounds ----------

  lemma ByteBits(x: nat, b0: bit, b1: bit, b2: bit, b3: bit, b4: bit, b5: bit, b6: bit, b7: bit)
    requires x == 128 * b0 + 64 * b1 + 32 * b2 + 16 * b3 + 8 * b4 + 4 * b5 + 2 * b6 + b7
    ensures BitsOf(x, 8) == [b0, b1, b2, b3, b4, b5, b6, b7]
  {
    var s := [b0, b1, b2, b3, b4, b5, b6, b7];
    assert s == [] + [b0] + [b1] + [b2] + [b3] + [b4] + [b5] + [b6] + [b7];
    ValAppend([], b0);
    ValAppend([] + [b0], b1);
    ValAppend([] + [b0] + [b1], b2);
    ValAppend([] + [b0] + [b1] + [b2], b3);
    ValAppend([] + [b0] + [b1] + [b2] + [b3], b4);
    ValAppend([] + [b0] + [b1] + [b2] + [b3] + [b4], b5);
    ValAppend([] + [b0] + [b1] + [b2] + [b3] + [b4] + [b5], b6);
    ValAppend([] + [b0] + [b1] + [b2] + [b3] + [b4] + [b5] + [b6], b7);
    ValBitsOf(s);
  }

  /** Four bytes side by side. */
  lemma WordBits(a: nat, b: nat, c: nat, d: nat)
    requires a < 256 && b < 256 && c < 256 && d < 256
    ensures BitsOf(0x100_0000 * a + 0x1_0000 * b + 0x100 * c + d, 32)
         == BitsOf(a, 8) + BitsOf(b, 8) + BitsOf(c, 8) + BitsOf(d, 8)
  {
    Powers();
    hide Pow2, Val, BitsOf;
    var s, t, u, v := BitsOf(a, 8), BitsOf(b, 8), BitsOf(c, 8), BitsOf(d, 8);
    BitsOfVal(a, 8);
    BitsOfVal(b, 8);
    BitsOfVal(c, 8);
    BitsOfVal(d, 8);
    ValConcat(s, t);
    ValConcat(s + t, u);
    ValConcat(s + t + u, v);
    ValBitsOf(s + t + u + v);
  }

  /** The same for one byte, and for a word of four such bytes. */
  predicate KeepsByte(s: seq<bit>, k: nat, first: bool)
    requires |s| == 8 && k > 0
  {
    forall j :: 0 <= j < 8 ==> s[j] == if (j / k % 2 == 0) == first then 1 else 0
  }

  lemma Phase(i: nat, k: nat)
    requires i < 32 && k in {1, 2, 4}
    ensures i / k % 2 == i % 8 / k % 2
  {
    var q, j := i / 8, i % 8;
    if k == 1 {
      EvenAside(4 * q, j);
    } else if k == 2 {
      DivModUnique(i, 2, 4 * q + j / 2, j % 2);
      EvenAside(2 * q, j / 2);
    } else {
      DivModUnique(i, 4, 2 * q + j / 4, j % 4);
      EvenAside(q, j / 4);
    }
  }

  lemma EvenAside(a: nat, b: nat)
    ensures (2 * a + b) % 2 == b % 2
  {
  }

  lemma FourTimes(s: seq<bit>, i: nat)
    requires |s| == 8 && i < 32
    ensures (s + s + s + s)[i] == s[i % 8]
  {
    var t := s + s + s + s;
    if i < 8 {
      DivModUnique(i, 8, 0, i);
    } else if i < 16 {
      DivModUnique(i, 8, 1, i - 8);
    } else if i < 24 {
      DivModUnique(i, 8, 2, i - 16);
    } else {
      DivModUnique(i, 8, 3, i - 24);
    }
  }

  lemma FourBytes(b: nat, k: nat, first: bool, mask: nat)
    requires b < 256 && k in {1, 2, 4} && KeepsByte(BitsOf(b, 8), k, first) && mask == 0x101_0101 * b
    ensures Keeps(mask, k, first)
  {
    hide BitsOf;
    var s := BitsOf(b, 8);
    WordBits(b, b, b, b);
    forall i | 0 <= i < 32 ensures BitsOf(mask, 32)[i] == if (i / k % 2 == 0) == first then 1 else 0 {
      Phase(i, k);
      FourTimes(s, i);
    }
  }

  lemma MaskAAAA()
    ensures Keeps(0xaaaaaaaa, 1, true)
  {
    hide BitsOf, Keeps;
    ByteBits(0xaa, 1, 0, 1, 0, 1, 0, 1, 0);
    FourBytes(0xaa, 1, true, 0xaaaaaaaa);
  }

  lemma Mask5555()
    ensures Keeps(0x55555555, 1, false)
  {
    hide BitsOf, Keeps;
    ByteBits(0x55, 0, 1, 0, 1, 0, 1, 0, 1);
    FourBytes(0x55, 1, false, 0x55555555);
  }

  lemma MaskCCCC()
    ensures Keeps(0xcccccccc, 2, true)
  {
    hide BitsOf, Keeps;
    ByteBits(0xcc, 1, 1, 0, 0, 1, 1, 0, 0);
    FourBytes(0xcc, 2, true, 0xcccccccc);
  }

  lemma Mask3333()
    ensures Keeps(0x33333333, 2, false)
  {
    hide BitsOf, Keeps;
    ByteBits(0x33, 0, 0, 1, 1, 0, 0, 1, 1);
    FourBytes(0x33, 2, false, 0x33333333);
  }

  lemma MaskF0F0()
    ensures Keeps(0xf0f0f0f0, 4, true)
  {
    hide BitsOf, Keeps;
    ByteBits(0xf0, 1, 1, 1, 1, 0, 0, 0, 0);
    FourBytes(0xf0, 4, true, 0xf0f0f0f0);
  }

  lemma Mask0F0F()
    ensures Keeps(0x0f0f0f0f, 4, false)
  {
    hide BitsOf, Keeps;
    ByteBits(0x0f, 0, 0, 0, 0, 1, 1, 1, 1);
    FourBytes(0x0f, 4, false, 0x0f0f0f0f);
  }

  lemma MaskFF00()
    ensures Keeps(0xff00ff00, 8, true)
  {
    hide BitsOf;
    WordBits(0xff, 0x00, 0xff, 0x00);
    ByteBits(0x00, 0, 0, 0, 0, 0, 0, 0, 0);
    ByteBits(0xff, 1, 1, 1, 1, 1, 1, 1, 1);
    forall i | 0 <= i < 32 ensures i / 8 % 2 == 0 <==> i < 8 || 16 <= i < 24 {
    }
  }

  lemma Mask00FF()
    ensures Keeps(0x00ff00ff, 8, false)
  {
    hide BitsOf;
    WordBits(0x00, 0xff, 0x00, 0xff);
    ByteBits(0x00, 0, 0, 0, 0, 0, 0, 0, 0);
    ByteBits(0xff, 1, 1, 1, 1, 1, 1, 1, 1);
    forall i | 0 <= i < 32 ensures i / 8 % 2 == 0 <==> i < 8 || 16 <= i < 24 {
    }
  }

  /** The last round swaps the halves. */
  lemma SwapHalves(y: nat) returns (z: nat)
    requires y < 0x1_0000_0000
    ensures z == Or(y / 0x1_0000, Word(y * 0x1_0000)) && z < 0x1_0000_0000
    ensures BitsOf(z, 32) == BitsOf(y, 32)[16..] + BitsOf(y, 32)[..16]
  {
    Powers();
    hide And, Or, Word, BitsOf, Pow2;
    ShiftRight(y, 16, 0x1_0000, y / 0x1_0000);
    ShiftLeft(y, 16, 0x1_0000);
    z := Or(y / 0x1_0000, Word(y * 0x1_0000));
    SmallBits(y / 0x1_0000, Word(y * 0x1_0000));
    OrBits(y / 0x1_0000, Word(y * 0x1_0000), 32);
  }

  function Index(a: bit, b: bit, c: bit, d: bit, e: bit): (i: nat)
    ensures i < 32
  {
    16 * a + 8 * b + 4 * c + 2 * d + e
  }

  lemma Partners(a: bit, b: bit, c: bit, d: bit, e: bit)
    ensures Partner(Index(a, b, c, d, e), 8) == Index(a, 1 - b, c, d, e)
    ensures Partner(Index(a, b, c, d, e), 4) == Index(a, b, 1 - c, d, e)
    ensures Partner(Index(a, b, c, d, e), 2) == Index(a, b, c, 1 - d, e)
    ensures Partner(Index(a, b, c, d, e), 1) == Index(a, b, c, d, 1 - e)
  {
    var i := Index(a, b, c, d, e);
    Group(i, 8, a, b, 4 * c + 2 * d + e);
    Group(i, 4, 2 * a + b, c, 2 * d + e);
    Group(i, 2, 4 * a + 2 * b + c, d, e);
    Group(i, 1, 8 * a + 4 * b + 2 * c + d, e, 0);
  }

  lemma Group(i: nat, k: nat, g: nat, odd: bit, r: nat)
    requires 0 < k && r < k && i == (2 * g + odd) * k + r
    ensures i / k % 2 == odd
  {
    DivModUnique(i, k, 2 * g + odd, r);
    DivModUnique(2 * g + odd, 2, g, odd);
  }

  /** Where bit i of the result of all five rounds comes from. */
  lemma FivePartners(i: nat)
    requires i < 32
    ensures var a := if i < 16 then i + 16 else i - 16;
            var b := Partner(a, 8);
            && 0 <= b < 32 && 0 <= Partner(b, 4) < 32 && 0 <= Partner(Partner(b, 4), 2) < 32
            && Partner(Partner(Partner(b, 4), 2), 1) == 31 - i
  {
    hide Partner, Index;
    var a, b, c, d, e := FiveBits(i);
    Opposite(i, a, b, c, d, e);
    Partners(1 - a, b, c, d, e);
    Partners(1 - a, 1 - b, c, d, e);
    Partners(1 - a, 1 - b, 1 - c, d, e);
    Partners(1 - a, 1 - b, 1 - c, 1 - d, e);
  }

  lemma Opposite(i: nat, a: bit, b: bit, c: bit, d: bit, e: bit)
    requires i == Index(a, b, c, d, e)
    ensures Index(1 - a, b, c, d, e) == if i < 16 then i + 16 else i - 16
    ensures Index(1 - a, 1 - b, 1 - c, 1 - d, 1 - e) == 31 - i
  {
  }

  lemma FiveBits(i: nat) returns (a: bit, b: bit, c: bit, d: bit, e: bit)
    requires i < 32
    ensures i == Index(a, b, c, d, e)
  {
    a := if i >= 16 then 1 else 0;
    var i1 := i - 16 * a;
    b := if i1 >= 8 then 1 else 0;
    var i2 := i1 - 8 * b;
    c := if i2 >= 4 then 1 else 0;
    var i3 := i2 - 4 * c;
    d := if i3 >= 2 then 1 else 0;
    e := i3 - 2 * d;
  }

  /** The fast version: five rounds over 32 bits, then a shift down to the p that count. */
  method FastReverse(i: nat, p: nat) returns (y: nat)
    requires 1 <= p <= 32 && i < Pow2(p)
    ensures y == Rev(p, i)
  {
    hide And, Or, Word, BitsOf, Partner, Keeps, Rev;
    SmallPower(p);
    ghost var b := BitsOf(i, 32);
    y := i;
    MaskAAAA(); Mask5555(); MaskCCCC(); Mask3333(); MaskF0F0(); Mask0F0F(); MaskFF00(); Mask00FF(); Powers();
    ghost var y1 := Exchange(y, 0xaaaaaaaa, 0x55555555, 1, 2);
    y := Or(And(y, 0xaaaaaaaa) / 2, Word(And(y, 0x55555555) * 2));
    ghost var y2 := Exchange(y, 0xcccccccc, 0x33333333, 2, 4);
    y := Or(And(y, 0xcccccccc) / 4, Word(And(y, 0x33333333) * 4));
    ghost var y3 := Exchange(y, 0xf0f0f0f0, 0x0f0f0f0f, 4, 16);
    y := Or(And(y, 0xf0f0f0f0) / 16, Word(And(y, 0x0f0f0f0f) * 16));
    ghost var y4 := Exchange(y, 0xff00ff00, 0x00ff00ff, 8, 256);
    y := Or(And(y, 0xff00ff00) / 256, Word(And(y, 0x00ff00ff) * 256));
    ghost var y5 := SwapHalves(y);
    y := Or(y / 0x1_0000, Word(y * 0x1_0000));
    forall j | 0 <= j < 32 ensures BitsOf(y5, 32)[j] == b[31 - j] {
      FivePartners(j);
    }
    TopBits(i, p, y5);
    y := y / Pow2(32 - p);
  }

  lemma SmallPower(p: nat)
    requires p <= 32
    ensures Pow2(p) <= 0x1_0000_0000
    decreases 32 - p
  {
    Powers();
    if p < 32 {
      SmallPower(p + 1);
    }
  }

  /** The p top bits of the reversed word are the p low bits reversed. */
  lemma TopBits(i: nat, p: nat, y: nat)
    requires 1 <= p <= 32 && i < Pow2(p) && y < 0x1_0000_0000
    requires forall j :: 0 <= j < 32 ==> BitsOf(y, 32)[j] == BitsOf(i, 32)[31 - j]
    ensures y / Pow2(32 - p) == Rev(p, i)
  {
    Powers();
    hide Val, Pow2, BitsOf;
    BitsOfVal(y, 32);
    ValDivMod(BitsOf(y, 32), p);
    PaddedBits(i, p);
    assert BitsOf(y, 32)[..p] == Reverse(BitsOf(i, p));
  }

  lemma PaddedBits(i: nat, p: nat)
    requires p <= 32 && i < Pow2(p)
    ensures BitsOf(i, 32) == Zeros(32 - p) + BitsOf(i, p)
  {
    hide Val, BitsOf;
    BitsOfVal(i, p);
    ValConcat(Zeros(32 - p), BitsOf(i, p));
    ValZeros(32 - p);
    ValBitsOf(Zeros(32 - p) + BitsOf(i, p));
  }
}
