/** The packet layer: lengths, the check field, and the walk over a frame. */
module Packets {
  // Handlers of single packet types stay outside: a visited packet is reported with its position, length
  // and check.

  import opened Bits

  // ---------- check field ----------

  /** Wrap-around of a signed 16-bit integer. */
  function Int16(x: int): int {
    (x + 0x8000) % 0x1_0000 - 0x8000
  }

  function Sum0(p: seq<byte>): int {
    if p == [] then 0 else Sum0(p[..|p| - 1]) + p[|p| - 1]
  }

  /** The sum of the running sums. */
  function Sum1(p: seq<byte>): int {
    if p == [] then 0 else Sum1(p[..|p| - 1]) + Sum0(p)
  }

  /** A packet with its last two bytes read as zero. */
  function Blanked(p: seq<byte>): (b: seq<byte>)
    requires |p| >= 2
    ensures |b| == |p|
  {
    p[..|p| - 2] + [0, 0]
  }

  function Check(p: seq<byte>): int
    requires |p| >= 2
  {
    var s0, s1 := Sum0(Blanked(p)), Sum1(Blanked(p));
    (s0 - s1) % 256 * 256 + (s1 - 2 * s0) % 256
  }

  function Field(p: seq<byte>): int
    requires |p| >= 2
  {
    var high: int, low: int := p[|p| - 2], p[|p| - 1];
    256 * high + low
  }

  method EgcCrc(d: seq<byte>, pos: nat, length: nat) returns (crc: int)
    requires length >= 2 && pos + length <= |d|
    ensures crc == Check(d[pos..pos + length])
  {
    hide Int16;
    ghost var z := Blanked(d[pos..pos + length]);
    var C0, C1 := 0, 0;
    ghost var k0, k1 := 0, 0;
    for i := 0 to length
      invariant C0 == Sum0(z[..i]) + 0x1_0000 * k0
      invariant C1 == Sum1(z[..i]) + 0x1_0000 * k1
    {
      var B := if i < length - 2 then d[pos + i] else 0;
      SumStep(z, i);
      var q0 := Wraps(C0 + B);
      C0 := Int16(C0 + B);
      k0 := k0 + q0;
      var q1 := Wraps(C1 + C0);
      C1 := Int16(C1 + C0);
      k1 := k1 + k0 + q1;
    }
    assert z[..length] == z;
    var CB1, CB2 := (C0 - C1) % 256, (C1 - 2 * C0) % 256;
    SameByte(Sum0(z) - Sum1(z), 256 * (k0 - k1));
    SameByte(Sum1(z) - 2 * Sum0(z), 256 * (k1 - 2 * k0));
    crc := CB1 * 256 + CB2;
  }

  lemma Wraps(x: int) returns (q: int)
    ensures Int16(x) == x + 0x1_0000 * q
  {
    q := -((x + 0x8000) / 0x1_0000);
  }

  lemma SameByte(x: int, k: int)
    ensures (x + 256 * k) % 256 == x % 256
  {
  }

  lemma SumStep(p: seq<byte>, i: nat)
    requires i < |p|
    ensures Sum0(p[..i + 1]) == Sum0(p[..i]) + p[i]
    ensures Sum1(p[..i + 1]) == Sum1(p[..i]) + Sum0(p[..i]) + p[i]
  {
    assert p[..i + 1][..i] == p[..i];
  }

  predicate CrcOk(p: seq<byte>) {
    |p| >= 2 && (Field(p) == 0 || Field(p) == Check(p))
  }

  /** Both sums over the packet, check bytes included, vanish modulo 256. */
  predicate Balanced(p: seq<byte>) {
    Sum0(p) % 256 == 0 && Sum1(p) % 256 == 0
  }

  /** A packet whose check field is not blank is accepted exactly when it is balanced. */
  lemma CrcOkIff(p: seq<byte>)
    requires |p| >= 2 && Field(p) != 0
    ensures CrcOk(p) <==> Balanced(p)
  {
    var n := |p|;
    var z := Blanked(p);
    SumStep(p, n - 2);
    SumStep(p, n - 1);
    SumStep(z, n - 2);
    SumStep(z, n - 1);
    assert p[..n] == p && z[..n] == z && z[..n - 2] == p[..n - 2];
    CheckBytes(Sum0(z), Sum1(z), p[n - 2], p[n - 1]);
  }

  lemma CheckBytes(s0: int, s1: int, x: byte, y: byte)
    ensures 256 * (x as int) + y == (s0 - s1) % 256 * 256 + (s1 - 2 * s0) % 256
       <==> (s0 + x + y) % 256 == 0 && (s1 + 2 * (x as int) + y) % 256 == 0
  {
    var a, b := (s0 - s1) / 256, (s1 - 2 * s0) / 256;
    if 256 * (x as int) + y == (s0 - s1) % 256 * 256 + (s1 - 2 * s0) % 256 {
      assert s0 + x + y == 256 * -(a + b);
    }
    var c, d := (s0 + x + y) / 256, (s1 + 2 * (x as int) + y) / 256;
    if (s0 + x + y) % 256 == 0 && (s1 + 2 * (x as int) + y) % 256 == 0 {
      SameByte(x, c - d);
      assert s0 - s1 == x + 256 * (c - d);
      SameByte(y, d - 2 * c);
      assert s1 - 2 * s0 == y + 256 * (d - 2 * c);
    }
  }

  // ---------- what the check field catches ----------

  /** Changing one byte by delta moves the first sum by delta, and the second by a multiple of it. */
  lemma {:induction false} ChangeSums(p: seq<byte>, i: nat, x: byte)
    requires i < |p|
    ensures Sum0(p[i := x]) == Sum0(p) + x - p[i]
    ensures Sum1(p[i := x]) == Sum1(p) + (|p| - i) * (x - p[i])
  {
    var n := |p| - 1;
    if i < n {
      ChangeSums(p[..n], i, x);
      assert p[i := x][..n] == p[..n][i := x];
      assert (n + 1 - i) * (x - p[i]) == (n - i) * (x - p[i]) + (x - p[i]);
    } else {
      assert p[i := x][..n] == p[..n];
    }
  }

  /** A single changed byte in an accepted packet is noticed, unless it blanks the check field. */
  lemma ChangeCaught(p: seq<byte>, i: nat, x: byte)
    requires |p| >= 2 && Field(p) != 0 && CrcOk(p) && i < |p| && x != p[i]
    ensures CrcOk(p[i := x]) <==> Field(p[i := x]) == 0
  {
    hide Check, Sum0, Sum1, Field;
    CrcOkIff(p);
    ChangeSums(p, i, x);
    if Field(p[i := x]) != 0 {
      CrcOkIff(p[i := x]);
    }
  }

  /** So are two neighbouring bytes that change places. */
  lemma SwapCaught(p: seq<byte>, i: nat)
    requires |p| >= 2 && Field(p) != 0 && CrcOk(p) && i + 1 < |p| && p[i] != p[i + 1]
    ensures var s := p[i := p[i + 1]][i + 1 := p[i]];
            CrcOk(s) <==> Field(s) == 0
  {
    hide Check, Sum0, Sum1, Field;
    var once := p[i := p[i + 1]];
    var s := once[i + 1 := p[i]];
    CrcOkIff(p);
    ChangeSums(p, i, p[i + 1]);
    ChangeSums(once, i + 1, p[i]);
    var a: int, b: int, m := p[i], p[i + 1], |p| - i;
    assert m * (b - a) + (m - 1) * (a - b) == b - a;
    if Field(s) != 0 {
      CrcOkIff(s);
    }
  }

  // ---------- the walk ----------

  function PacketLength(f: seq<byte>, pos: nat): (n: nat)
    requires pos < |f|
    ensures n >= 1
  {
    var d: int := f[pos];
    if d / 128 == 0 then d % 16 + 1
    else if d / 64 == 2 && pos + 1 < |f| then f[pos + 1] + 2
    else |f| - pos
  }

  datatype Visit = Visit(pos: nat, length: nat, ok: bool)

  /** What the walk visits from pos on. */
  function Visits(f: seq<byte>, pos: nat): (v: seq<Visit>)
    requires pos <= |f|
    decreases |f| - pos
  {
    if pos == |f| || f[pos] == 0 then []
    else
      var n := PacketLength(f, pos);
      if pos + n > |f| then []
      else [Visit(pos, n, CrcOk(f[pos..pos + n]))] + Visits(f, pos + n)
  }

  method CheckPacket(f: seq<byte>, pos: nat, plen: nat) returns (ok: bool)
    requires pos + plen <= |f|
    ensures ok == CrcOk(f[pos..pos + plen])
  {
    if plen < 2 {
      return false;
    }
    var high: int, low: int := f[pos + plen - 2], f[pos + plen - 1];
    var pktCrc := 256 * high + low;
    var crc := EgcCrc(f, pos, plen);
    ok := pktCrc == 0 || pktCrc == crc;
  }

  method DecodeFrame(f: seq<byte>) returns (visited: seq<Visit>)
    ensures visited == Visits(f, 0)
  {
    hide CrcOk, PacketLength;
    visited := [];
    var pos := 0;
    while pos < |f|
      invariant pos <= |f| && Visits(f, 0) == visited + Visits(f, pos)
      decreases |f| - pos
    {
      if f[pos] == 0 {
        break;
      }
      var plen := PacketLength(f, pos);
      if plen <= 0 || pos + plen > |f| {
        break;
      }
      var ok := CheckPacket(f, pos, plen);
      visited := visited + [Visit(pos, plen, ok)];
      pos := pos + plen;
    }
  }

  /** A short or medium packet, complete. */
  predicate WellFormed(p: seq<byte>) {
    && p != [] && p[0] != 0
    && if p[0] < 128 then |p| == p[0] % 16 + 1
       else p[0] < 192 && |p| >= 2 && |p| - 2 == p[1]
  }

  function Concat(ps: seq<seq<byte>>): seq<byte> {
    if ps == [] then [] else ps[0] + Concat(ps[1..])
  }

  /** The visits due to packets ps standing from pos on. */
  function Expected(ps: seq<seq<byte>>, pos: nat): seq<Visit> {
    if ps == [] then []
    else [Visit(pos, |ps[0]|, CrcOk(ps[0]))] + Expected(ps[1..], pos + |ps[0]|)
  }

  lemma LengthOfPacket(f: seq<byte>, pos: nat, p: seq<byte>)
    requires WellFormed(p) && pos + |p| <= |f| && f[pos..pos + |p|] == p
    ensures PacketLength(f, pos) == |p| && f[pos] != 0
  {
    assert f[pos] == p[0];
    if |p| >= 2 {
      assert f[pos + 1] == p[1];
    }
  }

  /** A packet that takes all that is left: its first byte is 0xC0 or more, or is that of a medium packet with
      nothing behind it. */
  predicate Long(rest: seq<byte>) {
    rest != [] && (rest[0] >= 0xC0 || (rest[0] >= 0x80 && |rest| == 1))
  }

  /** A short or medium packet of which the end is missing. */
  predicate Broken(rest: seq<byte>) {
    && rest != [] && rest[0] != 0
    && if rest[0] < 0x80 then |rest| < rest[0] % 16 + 1
       else rest[0] < 0xC0 && |rest| >= 2 && |rest| - 2 < rest[1]
  }

  /** What can stand behind the last short or medium packet. */
  predicate Final(rest: seq<byte>) {
    rest == [] || rest[0] == 0 || Long(rest) || Broken(rest)
  }

  function LastVisit(rest: seq<byte>, pos: nat): seq<Visit> {
    if Long(rest) then [Visit(pos, |rest|, CrcOk(rest))] else []
  }

  lemma Ends(f: seq<byte>, pos: nat)
    requires pos <= |f| && Final(f[pos..])
    ensures Visits(f, pos) == LastVisit(f[pos..], pos)
  {
    hide CrcOk;
    var rest := f[pos..];
    if rest != [] {
      assert rest[0] == f[pos];
      if |rest| >= 2 {
        assert rest[1] == f[pos + 1];
      }
      if Long(rest) {
        assert f[pos..pos + |rest|] == rest;
        assert Visits(f, |f|) == [];
      }
    }
  }

  lemma VisitStep(f: seq<byte>, pos: nat, p: seq<byte>)
    requires WellFormed(p) && pos + |p| <= |f| && f[pos..pos + |p|] == p
    ensures Visits(f, pos) == [Visit(pos, |p|, CrcOk(p))] + Visits(f, pos + |p|)
  {
    hide CrcOk, PacketLength;
    LengthOfPacket(f, pos, p);
  }

  /** A frame of short and medium packets, then nothing, a zero byte, a packet that takes all the rest, or one
      that is broken off: the walk visits exactly the packets, and the one that takes the rest. */
  lemma {:induction false} WalkVisits(before: seq<byte>, ps: seq<seq<byte>>, rest: seq<byte>)
    requires forall i :: 0 <= i < |ps| ==> WellFormed(ps[i])
    requires Final(rest)
    ensures Visits(before + Concat(ps) + rest, |before|)
         == Expected(ps, |before|) + LastVisit(rest, |before| + |Concat(ps)|)
    decreases |ps|
  {
    hide WellFormed, CrcOk, PacketLength, Visits, Final, LastVisit;
    var f, pos := before + Concat(ps) + rest, |before|;
    if ps == [] {
      assert f == before + rest && f[pos..] == rest;
      Ends(f, pos);
    } else {
      var p, more := ps[0], before + ps[0];
      assert f == more + Concat(ps[1..]) + rest;
      WalkVisits(more, ps[1..], rest);
      assert f[pos..pos + |p|] == p;
      VisitStep(f, pos, p);
    }
  }

  /** Every frame is of this form. */
  lemma {:induction false} EveryFrame(f: seq<byte>) returns (ps: seq<seq<byte>>, rest: seq<byte>)
    ensures f == Concat(ps) + rest && Final(rest) && forall i :: 0 <= i < |ps| ==> WellFormed(ps[i])
    decreases |f|
  {
    if Final(f) {
      ps, rest := [], f;
    } else {
      var n := if f[0] < 128 then f[0] % 16 + 1 else (f[1] as int) + 2;
      var more;
      more, rest := EveryFrame(f[n..]);
      ps := [f[..n]] + more;
      assert ps[1..] == more;
      assert f == f[..n] + f[n..];
    }
  }

  // ---------- the sender's side ----------

  /** A packet body with its check bytes. */
  function Sealed(body: seq<byte>): (p: seq<byte>)
    ensures |p| == |body| + 2
  {
    var s0, s1 := Sum0(body + [0, 0]), Sum1(body + [0, 0]);
    body + [(s0 - s1) % 256, (s1 - 2 * s0) % 256]
  }

  /** What the sender seals the receiver accepts, and it is balanced. */
  lemma SealedAccepted(body: seq<byte>)
    ensures CrcOk(Sealed(body))
    ensures Field(Sealed(body)) != 0 ==> Balanced(Sealed(body))
  {
    var p := Sealed(body);
    assert Blanked(p) == body + [0, 0];
    if Field(p) != 0 {
      CrcOkIff(p);
    }
  }
}
