/** One ring in which everything that the transforms assume is true, for every size they can have.

    These are the Gaussian integers modulo the prime 2^31 - 1. Their numbers of norm one form a cyclic
    group of order 2^31, and conjugation inverts them. */
module Gaussian {
  import opened Rings
  import opened Fourier
  import opened RealFft

  const P: nat := 0x7fff_ffff

  type Residue = x: int | 0 <= x < P

  datatype Gauss = Gauss(re: Residue, im: Residue)

  function Mod(x: int): Residue {
    x % P
  }

  function Reduced(x: int, y: int): Gauss {
    Gauss(Mod(x), Mod(y))
  }

  function Sum(a: Gauss, b: Gauss): Gauss {
    Reduced(a.re + b.re, a.im + b.im)
  }

  function Negative(a: Gauss): Gauss {
    Reduced(0 - a.re, 0 - a.im)
  }

  function Product(a: Gauss, b: Gauss): Gauss {
    Reduced(a.re * b.re - a.im * b.im, a.re * b.im + a.im * b.re)
  }

  const GAUSS: Ring<Gauss> := Ring(Gauss(0, 0), Gauss(1, 0), Sum, Negative, Product)

  function Mirrored(a: Gauss): Gauss {
    Reduced(a.re, 0 - a.im)
  }

  const MIRROR: Conjugation<Gauss> := Conjugation(Mirrored, Gauss(0, 1))

  // ---------- the laws ----------

  lemma SameResidue(x: int, y: int, k: int)
    requires x == y + k * P
    ensures Mod(x) == Mod(y)
  {
  }

  lemma ModSum(x: int, y: int)
    ensures Mod(Mod(x) + Mod(y)) == Mod(x + y)
  {
    SameResidue(x + y, Mod(x) + Mod(y), x / P + y / P);
  }

  lemma ModNegative(x: int)
    ensures Mod(0 - Mod(x)) == Mod(0 - x)
  {
    SameResidue(0 - Mod(x), 0 - x, x / P);
  }

  lemma Whole(a: Gauss)
    ensures Reduced(a.re, a.im) == a
  {
  }

  lemma ReducedSum(x: int, y: int, u: int, v: int)
    ensures Sum(Reduced(x, y), Reduced(u, v)) == Reduced(x + u, y + v)
  {
    hide Mod;
    ModSum(x, u);
    ModSum(y, v);
  }

  lemma Spread(x: int, y: int, z: int)
    ensures x * (y + z) == x * y + x * z && x * (y - z) == x * y - x * z
  {
  }

  lemma Regroup(x: int, y: int, z: int)
    ensures x * y * z == x * (y * z)
  {
  }

  /** A factor may be reduced before or after. */
  lemma FactorResidue(x: int, c: int)
    ensures exists k :: x * c == Mod(x) * c + k * P
  {
    var q, r := x / P, x % P;
    assert x == r + q * P;
    Spread(c, r, q * P);
    assert c * (q * P) == (c * q) * P;
    assert x * c == r * c + (c * q) * P;
  }

  lemma ReducedFactor(x: int, y: int, c: Gauss)
    ensures Product(Reduced(x, y), c) == Reduced(x * c.re - y * c.im, x * c.im + y * c.re)
  {
    FactorResidue(x, c.re);
    FactorResidue(y, c.im);
    FactorResidue(x, c.im);
    FactorResidue(y, c.re);
    var k :| x * c.re == Mod(x) * c.re + k * P;
    var l :| y * c.im == Mod(y) * c.im + l * P;
    var m :| x * c.im == Mod(x) * c.im + m * P;
    var n :| y * c.re == Mod(y) * c.re + n * P;
    SameResidue(x * c.re - y * c.im, Mod(x) * c.re - Mod(y) * c.im, k - l);
    SameResidue(x * c.im + y * c.re, Mod(x) * c.im + Mod(y) * c.re, m + n);
  }

  lemma Triple(ar: int, ai: int, br: int, bi: int, cr: int, ci: int)
    ensures (ar * br - ai * bi) * cr - (ar * bi + ai * br) * ci == (br * cr - bi * ci) * ar - (br * ci + bi * cr) * ai
    ensures (ar * br - ai * bi) * ci + (ar * bi + ai * br) * cr == (br * cr - bi * ci) * ai + (br * ci + bi * cr) * ar
  {
    Spread(cr, ar * br, ai * bi);
    Spread(ci, ar * bi, ai * br);
    Spread(ci, ar * br, ai * bi);
    Spread(cr, ar * bi, ai * br);
    Spread(ar, br * cr, bi * ci);
    Spread(ai, br * ci, bi * cr);
    Spread(ar, br * ci, bi * cr);
    Spread(ai, br * cr, bi * ci);
    Regroup(ar, br, cr);
    Regroup(ai, bi, cr);
    Regroup(ar, bi, ci);
    Regroup(ai, br, ci);
    Regroup(ar, br, ci);
    Regroup(ai, bi, ci);
    Regroup(ar, bi, cr);
    Regroup(ai, br, cr);
  }

  lemma ProductCommutes(a: Gauss, b: Gauss)
    ensures Product(a, b) == Product(b, a)
  {
    assert a.re * b.re == b.re * a.re && a.im * b.im == b.im * a.im;
    assert a.re * b.im == b.im * a.re && a.im * b.re == b.re * a.im;
  }

  lemma ProductAssociates(a: Gauss, b: Gauss, c: Gauss)
    ensures Product(Product(a, b), c) == Product(a, Product(b, c))
  {
    ReducedFactor(a.re * b.re - a.im * b.im, a.re * b.im + a.im * b.re, c);
    ReducedFactor(b.re * c.re - b.im * c.im, b.re * c.im + b.im * c.re, a);
    Triple(a.re, a.im, b.re, b.im, c.re, c.im);
    ProductCommutes(a, Product(b, c));
  }

  lemma ProductSpreads(a: Gauss, b: Gauss, c: Gauss)
    ensures Product(a, Sum(b, c)) == Sum(Product(a, b), Product(a, c))
  {
    hide Reduced, Product;
    ReducedFactor(b.re + c.re, b.im + c.im, a);
    ProductCommutes(a, Sum(b, c));
    ProductIs(a, b);
    ProductIs(a, c);
    Spreading(a.re, a.im, b.re, b.im, c.re, c.im);
    ReducedSum(a.re * b.re - a.im * b.im, a.re * b.im + a.im * b.re,
               a.re * c.re - a.im * c.im, a.re * c.im + a.im * c.re);
  }

  lemma ProductIs(a: Gauss, b: Gauss)
    ensures Product(a, b) == Reduced(a.re * b.re - a.im * b.im, a.re * b.im + a.im * b.re)
  {
  }

  lemma Spreading(ar: int, ai: int, br: int, bi: int, cr: int, ci: int)
    ensures (br + cr) * ar - (bi + ci) * ai == (ar * br - ai * bi) + (ar * cr - ai * ci)
    ensures (br + cr) * ai + (bi + ci) * ar == (ar * bi + ai * br) + (ar * ci + ai * cr)
  {
    Spread(ar, br, cr);
    Spread(ai, bi, ci);
    Spread(ai, br, cr);
    Spread(ar, bi, ci);
  }

  lemma SumAssociates(a: Gauss, b: Gauss, c: Gauss)
    ensures Sum(Sum(a, b), c) == Sum(a, Sum(b, c))
  {
    hide Reduced;
    Whole(a);
    Whole(c);
    ReducedSum(a.re + b.re, a.im + b.im, c.re, c.im);
    ReducedSum(a.re, a.im, b.re + c.re, b.im + c.im);
  }

  lemma Units(a: Gauss)
    ensures Sum(a, Gauss(0, 0)) == a && Sum(a, Negative(a)) == Gauss(0, 0) && Product(a, Gauss(1, 0)) == a
  {
    hide Reduced;
    Whole(a);
    Whole(Gauss(0, 0));
    ReducedSum(a.re, a.im, 0 - a.re, 0 - a.im);
  }

  lemma GaussIsRing()
    ensures IsRing(GAUSS)
  {
    hide Sum, Product, Negative;
    forall a: Gauss, b: Gauss, c: Gauss {:trigger At3(a, b, c)} | At3(a, b, c)
      ensures Sum(Sum(a, b), c) == Sum(a, Sum(b, c)) && Product(Product(a, b), c) == Product(a, Product(b, c))
      ensures Product(a, Sum(b, c)) == Sum(Product(a, b), Product(a, c))
    {
      SumAssociates(a, b, c);
      ProductAssociates(a, b, c);
      ProductSpreads(a, b, c);
    }
    forall a: Gauss, b: Gauss {:trigger At2(a, b)} | At2(a, b)
      ensures Sum(a, b) == Sum(b, a) && Product(a, b) == Product(b, a)
    {
      SumCommutes(a, b);
      ProductCommutes(a, b);
    }
    forall a: Gauss {:trigger At1(a)} | At1(a)
      ensures Sum(a, Gauss(0, 0)) == a && Sum(a, Negative(a)) == Gauss(0, 0) && Product(a, Gauss(1, 0)) == a
    {
      Units(a);
    }
  }

  lemma SumCommutes(a: Gauss, b: Gauss)
    ensures Sum(a, b) == Sum(b, a)
  {
    hide Reduced;
  }

  // ---------- conjugation ----------

  lemma MirrorReduced(x: int, y: int)
    ensures Mirrored(Reduced(x, y)) == Reduced(x, 0 - y)
  {
    hide Mod;
    ModNegative(y);
    ModTwice(x);
  }

  lemma ModTwice(x: int)
    ensures Mod(Mod(x)) == Mod(x)
  {
  }

  lemma MirrorSum(a: Gauss, b: Gauss)
    ensures Mirrored(Sum(a, b)) == Sum(Mirrored(a), Mirrored(b))
    ensures Mirrored(Mirrored(a)) == a
  {
    hide Reduced;
    MirrorReduced(a.re + b.re, a.im + b.im);
    MirrorReduced(a.re, 0 - a.im);
    ReducedSum(a.re, 0 - a.im, b.re, 0 - b.im);
    Whole(a);
  }

  lemma MirrorProduct(a: Gauss, b: Gauss)
    ensures Mirrored(Product(a, b)) == Product(Mirrored(a), Mirrored(b))
  {
    hide Reduced, Product;
    ReducedProduct(a.re, 0 - a.im, b.re, 0 - b.im);
    Signs(a.re, a.im, b.re, b.im);
    ProductIs(a, b);
    MirrorReduced(a.re * b.re - a.im * b.im, a.re * b.im + a.im * b.re);
  }

  lemma ReducedProduct(x: int, y: int, u: int, v: int)
    ensures Product(Reduced(x, y), Reduced(u, v)) == Reduced(x * u - y * v, x * v + y * u)
  {
    hide Product, Reduced, Mod;
    ReducedFactor(x, y, Reduced(u, v));
    ReducedParts(u, v);
    SecondFactor(x, y, u, v);
  }

  lemma ReducedParts(x: int, y: int)
    ensures Reduced(x, y).re == Mod(x) && Reduced(x, y).im == Mod(y)
  {
  }

  lemma SecondFactor(x: int, y: int, u: int, v: int)
    ensures Reduced(x * Mod(u) - y * Mod(v), x * Mod(v) + y * Mod(u)) == Reduced(x * u - y * v, x * v + y * u)
  {
    hide Mod;
    TwoFactors(x, y, u, v, -1);
    TwoFactors(x, y, v, u, 1);
    assert -1 * (y * v) == -(y * v) && -1 * (y * Mod(v)) == -(y * Mod(v));
  }

  lemma TwoFactors(x: int, y: int, u: int, v: int, sign: int)
    requires sign == 1 || sign == -1
    ensures Mod(x * Mod(u) + sign * (y * Mod(v))) == Mod(x * u + sign * (y * v))
  {
    hide Mod;
    FactorResidue(u, x);
    FactorResidue(v, y);
    var k :| u * x == Mod(u) * x + k * P;
    var l :| v * y == Mod(v) * y + l * P;
    SameResidue(x * u + sign * (y * v), x * Mod(u) + sign * (y * Mod(v)), k + sign * l);
  }

  lemma Signs(x: int, y: int, u: int, v: int)
    ensures x * u - (0 - y) * (0 - v) == x * u - y * v && x * (0 - v) + (0 - y) * u == 0 - (x * v + y * u)
  {
    assert (0 - y) * (0 - v) == y * v && x * (0 - v) == 0 - x * v && (0 - y) * u == 0 - y * u;
  }

  lemma MirrorIsInvolution()
    ensures IsInvolution(GAUSS, MIRROR)
  {
    hide Sum, Product, Negative, Mirrored;
    TheUnit();
    forall a: Gauss, b: Gauss {:trigger At2(a, b)} | At2(a, b)
      ensures Mirrored(Sum(a, b)) == Sum(Mirrored(a), Mirrored(b))
      ensures Mirrored(Product(a, b)) == Product(Mirrored(a), Mirrored(b))
    {
      MirrorSum(a, b);
      MirrorProduct(a, b);
    }
    forall a: Gauss {:trigger At1(a)} | At1(a) ensures Mirrored(Mirrored(a)) == a {
      MirrorSum(a, a);
    }
  }

  lemma TheUnit()
    ensures Product(Gauss(0, 1), Gauss(0, 1)) == Negative(Gauss(1, 0)) && Mirrored(Gauss(0, 1)) == Negative(Gauss(0, 1))
  {
  }

  // ---------- roots of unity ----------

  function Square(a: Gauss): Gauss {
    Product(a, a)
  }

  /** A root of order 2^30, squared n times. */
  function Root(n: nat): Gauss {
    if n == 0 then Gauss(515396075, 687194768) else Square(Root(n - 1))
  }

  const TURNS: Roots<Gauss> :=
    Roots(s => if s <= 30 then Root(30 - s) else Gauss(1, 0),
          s => if s <= 30 then Mirrored(Root(30 - s)) else Gauss(1, 0),
          Gauss(0x4000_0000, 0))

  lemma Next(n: nat, a: Residue, b: Residue, c: Residue, d: Residue)
    requires Root(n) == Gauss(a, b) && (a * a - b * b) % P == c && (a * b + a * b) % P == d
    ensures Root(n + 1) == Gauss(c, d)
  {
    hide Mod;
    ProductIs(Root(n), Root(n));
    assert b * a == a * b;
    ModIs(a * a - b * b);
    ModIs(a * b + a * b);
  }

  lemma ModIs(x: int)
    ensures Mod(x) == x % P
  {
  }

  lemma First()
    ensures Root(0) == Gauss(515396075, 687194768)
  {
  }

  lemma TenSquares()
    ensures Root(10) == Gauss(1435262842, 599618523)
  {
    hide Root;
    First();
    Next(0, 515396075, 687194768, 1858861844, 989560464);
    Next(1, 1858861844, 989560464, 1874865237, 1073112354);
    Next(2, 1874865237, 1073112354, 1031504707, 1259487097);
    Next(3, 1031504707, 1259487097, 1651484582, 1759991007);
    Next(4, 1651484582, 1759991007, 1726133119, 1400389933);
    Next(5, 1726133119, 1400389933, 1637052716, 1914235718);
    Next(6, 1637052716, 1914235718, 434373082, 614288294);
    Next(7, 434373082, 614288294, 1260398854, 1358693809);
    Next(8, 1260398854, 1358693809, 1884637334, 116588260);
    Next(9, 1884637334, 116588260, 1435262842, 599618523);
  }

  lemma TwentySquares()
    ensures Root(20) == Gauss(1501011474, 877294821)
  {
    hide Root;
    TenSquares();
    Next(10, 1435262842, 599618523, 477208006, 31258714);
    Next(11, 477208006, 31258714, 11869703, 1521912477);
    Next(12, 11869703, 1521912477, 1926842606, 1098585957);
    Next(13, 1926842606, 1098585957, 782135307, 281272690);
    Next(14, 782135307, 281272690, 120621627, 587688644);
    Next(15, 120621627, 587688644, 911611454, 1777723197);
    Next(16, 911611454, 1777723197, 1699686235, 164397034);
    Next(17, 1699686235, 164397034, 1556867790, 1816859821);
    Next(18, 1556867790, 1816859821, 447694929, 1241809818);
    Next(19, 447694929, 1241809818, 1501011474, 877294821);
  }

  /** Squared 29 times it is minus one, and a quarter turn is minus i, as in the program. */
  lemma AllSquares()
    ensures Root(28) == Gauss(0, P - 1) && Root(29) == Gauss(P - 1, 0) && Root(30) == Gauss(1, 0)
  {
    hide Root;
    TwentySquares();
    Next(20, 1501011474, 877294821, 834535867, 1925341786);
    Next(21, 834535867, 1925341786, 1977033713, 2005527287);
    Next(22, 1977033713, 2005527287, 883753057, 350742286);
    Next(23, 883753057, 350742286, 26164677, 1641940819);
    Next(24, 26164677, 1641940819, 906276279, 1179735656);
    Next(25, 906276279, 1179735656, 1556715293, 1168891274);
    Next(26, 1556715293, 1168891274, 32768, 2147450879);
    Next(27, 32768, 2147450879, 0, 2147483646);
    Next(28, 0, 2147483646, 2147483646, 0);
    Next(29, 2147483646, 0, 1, 0);
  }

  lemma RootStep(n: nat)
    ensures Root(n + 1) == Product(Root(n), Root(n))
  {
  }

  lemma {:induction false} OnCircle(n: nat)
    ensures Product(Root(n), Mirrored(Root(n))) == Gauss(1, 0)
  {
    hide Root, Sum, Product, Negative, Mirrored, IsRing;
    if n > 0 {
      RootStep(n - 1);
      var z := Root(n - 1);
      OnCircle(n - 1);
      MirrorProduct(z, z);
      GaussIsRing();
      MulInterchange(GAUSS, z, z, Mirrored(z), Mirrored(z));
      Unit(GAUSS, Gauss(1, 0));
    } else {
      FirstOnCircle();
    }
  }

  lemma FirstOnCircle()
    ensures Product(Root(0), Mirrored(Root(0))) == Gauss(1, 0)
  {
  }

  /** For every size the program can have there are roots of unity and a conjugation as they are assumed. */
  lemma AssumptionsHold(top: nat)
    requires top <= 30
    ensures IsRoots(GAUSS, TURNS, top) && IsConjugation(GAUSS, MIRROR, TURNS, top)
  {
    hide Root, Product, Sum, Negative, Mirrored, IsRing, IsInvolution;
    GaussIsRing();
    MirrorIsInvolution();
    AllSquares();
    MirrorEnds();
    forall s: nat | 1 <= s <= top
      ensures TURNS.fwd(s - 1) == Square(TURNS.fwd(s)) && TURNS.bwd(s - 1) == Square(TURNS.bwd(s))
    {
      RootStep(30 - s);
      MirrorProduct(Root(30 - s), Root(30 - s));
    }
    forall s: nat | s <= top ensures GAUSS.mul(TURNS.fwd(s), TURNS.bwd(s)) == GAUSS.one {
      OnCircle(30 - s);
    }
  }

  lemma MirrorEnds()
    ensures Mirrored(Gauss(1, 0)) == Gauss(1, 0) && Mirrored(Gauss(P - 1, 0)) == Gauss(P - 1, 0)
    ensures Negative(Gauss(1, 0)) == Gauss(P - 1, 0) && Sum(Gauss(0x4000_0000, 0), Gauss(0x4000_0000, 0)) == Gauss(1, 0)
  {
  }
}
