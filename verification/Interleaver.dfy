/** The interleaver: 64 rows of 162 symbols, in permuted order. */
module Interleaver {
  // A row starts with its unique-word bit twice and goes on with 160 data symbols; the data is written
  // column by column.

  import opened Bits
  import opened FrameSync

  const CODED_LENGTH: nat := 10240

  /** The row, in order of arrival, that becomes row i. */
  function PermRow(i: nat): (p: nat)
    ensures p < 64
  {
    i * 23 % 64
  }

  /** Symbol j of row p. */
  function Cell(s: seq<bit>, p: nat, j: nat): bit
    requires |s| == FRAME_LENGTH && p < 64 && j < 162
  {
    s[162 * p + j]
  }

  /** Coded symbol of row r, column c. */
  function Coded(s: seq<bit>, r: nat, c: nat): bit
    requires |s| == CODED_LENGTH && r < 64 && c < 160
  {
    s[64 * c + r]
  }

  // ---------- the receiver's two buffers ----------

  /** Newest-first register order back to arrival order, then rows put in order. */
  method Depermute(frame: seq<bit>) returns (dst: seq<bit>)
    requires |frame| == FRAME_LENGTH
    ensures |dst| == FRAME_LENGTH
    ensures forall i, j :: 0 <= i < 64 && 0 <= j < 162 ==> Cell(dst, i, j) == Cell(Reverse(frame), PermRow(i), j)
    ensures forall i, j :: 0 <= i < 64 && 0 <= j < 162 ==> Cell(dst, i, j) == Cell(Reverse(frame), i * 23 % 64, j)
  {
    var arrived := Reverse(frame);
    var perm := seq(64, i => (i * 23) % 64 * 162);
    dst := [];
    for i := 0 to 64
      invariant |dst| == 162 * i
      invariant forall k, j :: 0 <= k < i && 0 <= j < 162 ==> At(dst, k, j) == Cell(arrived, PermRow(k), j)
    {
      assert perm[i] == 162 * PermRow(i);
      var row := arrived[perm[i]..perm[i] + 162];
      AppendRow(dst, row, i);
      dst := dst + row;
    }
    forall i, j | 0 <= i < 64 && 0 <= j < 162 ensures Cell(dst, i, j) == Cell(arrived, PermRow(i), j) {
      assert Cell(dst, i, j) == At(dst, i, j);
    }
  }

  function At(s: seq<bit>, i: nat, j: nat): bit
    requires 162 * i + 162 <= |s| && j < 162
  {
    s[162 * i + j]
  }

  lemma AppendRow(dst: seq<bit>, row: seq<bit>, i: nat)
    requires |dst| == 162 * i && |row| == 162
    ensures forall k, j :: 0 <= k < i && 0 <= j < 162 ==> At(dst + row, k, j) == At(dst, k, j)
    ensures forall j :: 0 <= j < 162 ==> At(dst + row, i, j) == row[j]
  {
  }

  lemma RowStart(row: int, x: nat)
    requires x < 162 && row >= 0
    ensures (162 * row + x) % 162 == x
  {
  }

  /** Rows without their first two symbols into a matrix, and the matrix out column by column. */
  method Deinterleave(perm: seq<bit>) returns (dst: seq<bit>)
    requires |perm| == FRAME_LENGTH
    ensures |dst| == CODED_LENGTH
    ensures forall r, c :: 0 <= r < 64 && 0 <= c < 160 ==> Coded(dst, r, c) == Cell(perm, r, c + 2)
  {
    var mat := new bit[64, 160];
    FillMatrix(perm, mat);
    var out := new bit[CODED_LENGTH];
    var pos, row, col := 0, 0, 0;
    while row < 64
      invariant 0 <= row < 64 && 0 <= col < 160 && pos == 64 * col + row
      invariant out.Length == CODED_LENGTH && fresh(out)
      invariant forall r, c :: 0 <= r < 64 && 0 <= c < 160 ==> mat[r, c] == Cell(perm, r, c + 2)
      invariant forall r, c :: 0 <= r < 64 && 0 <= c < 160 && (c < col || (c == col && r < row)) ==>
                  Coded(out[..], r, c) == mat[r, c]
      decreases CODED_LENGTH - pos
    {
      ghost var before := out[..];
      out[pos] := mat[row, col];
      Written(before, pos, mat[row, col], row, col);
      row := row + 1;
      if row % 64 == 0 {
        row, col := 0, col + 1;
        if col == 160 {
          break;
        }
      }
      pos := pos + 1;
    }
    dst := out[..];
  }

  lemma Written(s: seq<bit>, pos: nat, x: bit, row: nat, col: nat)
    requires |s| == CODED_LENGTH && row < 64 && col < 160 && pos == 64 * col + row
    ensures Coded(s[pos := x], row, col) == x
    ensures forall r, c :: 0 <= r < 64 && 0 <= c < 160 && !(r == row && c == col) ==>
              Coded(s[pos := x], r, c) == Coded(s, r, c)
  {
  }

  method FillMatrix(perm: seq<bit>, mat: array2<bit>)
    requires |perm| == FRAME_LENGTH && mat.Length0 == 64 && mat.Length1 == 160
    modifies mat
    ensures forall r, c :: 0 <= r < 64 && 0 <= c < 160 ==> mat[r, c] == Cell(perm, r, c + 2)
  {
    var row, col, i := -1, 0, 0;
    while i < |perm|
      invariant if row == -1 then i == 0 else 0 <= row < 64 && 1 <= col <= 160 && i == 162 * row + 2 + col
      invariant forall r, c :: 0 <= r < row && 0 <= c < 160 ==> mat[r, c] == Cell(perm, r, c + 2)
      invariant forall c :: 0 <= row && 0 <= c < col ==> mat[row, c] == Cell(perm, row, c + 2)
      decreases |perm| - i
    {
      if row >= 0 {
        RowStart(if col == 160 then row + 1 else row, if col == 160 then 0 else 2 + col);
      }
      if i % 162 == 0 {
        col, row, i := 0, row + 1, i + 2;
      }
      if row < 64 && col < 160 {
        mat[row, col] := perm[i];
        assert perm[i] == Cell(perm, row, col + 2);
      }
      col, i := col + 1, i + 1;
    }
  }

  // ---------- both buffers as one function ----------

  /** Where in an arriving frame coded symbol m stands. */
  function Place(m: nat): (k: nat)
    requires m < CODED_LENGTH
    ensures k < FRAME_LENGTH
  {
    162 * PermRow(m % 64) + 2 + m / 64
  }

  /** The coded symbols of an arriving frame. */
  function CodedOf(arrived: seq<bit>): (s: seq<bit>)
    requires |arrived| == FRAME_LENGTH
    ensures |s| == CODED_LENGTH && forall m :: 0 <= m < CODED_LENGTH ==> s[m] == arrived[Place(m)]
  {
    seq(CODED_LENGTH, m requires 0 <= m < CODED_LENGTH => arrived[Place(m)])
  }

  /** A frame in register order through both buffers. */
  method Unpack(frame: seq<bit>) returns (deint: seq<bit>)
    requires |frame| == FRAME_LENGTH
    ensures deint == CodedOf(Reverse(frame))
  {
    var perm := Depermute(frame);
    deint := Deinterleave(perm);
    forall m | 0 <= m < CODED_LENGTH ensures deint[m] == Reverse(frame)[Place(m)] {
      var r, c := m % 64, m / 64;
      assert deint[m] == Coded(deint, r, c) == Cell(perm, r, c + 2);
    }
  }

  // ---------- the transmitter ----------

  /** The row that travels in place p. */
  function RowAt(p: nat): (r: nat)
    ensures r < 64
  {
    p * 39 % 64
  }

  /** 23 and 39 are inverse modulo 64, so the two row orders undo each other. */
  lemma RowsInverse(r: nat)
    requires r < 64
    ensures RowAt(PermRow(r)) == r
  {
    var q := r * 23 / 64;
    assert r * 23 == 64 * q + PermRow(r);
    var n := PermRow(r) * 39;
    assert n == (14 * r - 39 * q) * 64 + r;
    DivModUnique(n, 64, 14 * r - 39 * q, r);
  }

  /** A frame in order of sending: row by row, the unique-word bit twice and then 160 symbols. */
  function Pack(word: seq<bit>, coded: seq<bit>): (frame: seq<bit>)
    requires |word| == 64 && |coded| == CODED_LENGTH
    ensures |frame| == FRAME_LENGTH
  {
    seq(FRAME_LENGTH, k requires 0 <= k < FRAME_LENGTH =>
      if k % 162 < 2 then word[k / 162] else coded[64 * (k % 162 - 2) + RowAt(k / 162)])
  }

  lemma PackAt(word: seq<bit>, coded: seq<bit>, p: nat, j: nat)
    requires |word| == 64 && |coded| == CODED_LENGTH && p < 64 && j < 162
    ensures Cell(Pack(word, coded), p, j) == if j < 2 then word[p] else coded[64 * (j - 2) + RowAt(p)]
  {
    DivModUnique(162 * p + j, 162, p, j);
  }

  /** The receiver's buffers undo the transmitter's. */
  lemma UnpackPack(word: seq<bit>, coded: seq<bit>)
    requires |word| == 64 && |coded| == CODED_LENGTH
    ensures CodedOf(Pack(word, coded)) == coded
  {
    var f := Pack(word, coded);
    forall m | 0 <= m < CODED_LENGTH ensures f[Place(m)] == coded[m] {
      var r, c := m % 64, m / 64;
      PackAt(word, coded, PermRow(r), c + 2);
      RowsInverse(r);
      assert f[Place(m)] == Cell(f, PermRow(r), c + 2);
    }
  }

  /** A packed frame carries the unique word without a mismatch. */
  lemma PackedCarriesWord(q: Pattern, coded: seq<bit>)
    requires q.Valid() && |coded| == CODED_LENGTH
    ensures Mismatch(q.word, Reverse(Pack(q.word, coded))) == 0
  {
    PackedMismatch(q.word, coded, q.word);
  }

  lemma {:induction false} PackedMismatch(word: seq<bit>, coded: seq<bit>, part: seq<bit>)
    requires |word| == 64 && |coded| == CODED_LENGTH && part <= word
    ensures Mismatch(part, Reverse(Pack(word, coded))) == 0
  {
    hide Pack;
    if part != [] {
      var p := |part| - 1;
      PackedMismatch(word, coded, part[..p]);
      PackAt(word, coded, p, 0);
      PackAt(word, coded, p, 1);
      var f := Pack(word, coded);
      assert Reverse(f)[10367 - 162 * p] == Cell(f, p, 0) && Reverse(f)[10366 - 162 * p] == Cell(f, p, 1);
    }
  }

  // ---------- errors ----------

  /** The positions where two equally long strings differ. */
  function Errors(a: seq<bit>, b: seq<bit>): set<nat>
    requires |a| == |b|
  {
    set k: nat | k < |a| && a[k] != b[k]
  }

  /** The wrong positions among those that carry coded symbols. */
  function DataErrors(a: seq<bit>, b: seq<bit>): set<nat>
    requires |a| == |b|
  {
    set k: nat | k < |a| && a[k] != b[k] && k % 162 >= 2
  }

  /** The coded symbol that stands at place k of a frame. */
  function SymbolAt(k: nat): nat
    requires k % 162 >= 2
  {
    64 * (k % 162 - 2) + RowAt(k / 162)
  }

  lemma SymbolAtPlace(m: nat)
    requires m < CODED_LENGTH
    ensures Place(m) % 162 >= 2 && SymbolAt(Place(m)) == m
  {
    var r, c := m % 64, m / 64;
    DivModUnique(Place(m), 162, PermRow(r), 2 + c);
    RowsInverse(r);
  }

  /** Interleaving moves errors but makes no new ones. */
  lemma UnpackedErrors(a: seq<bit>, b: seq<bit>)
    requires |a| == |b| == FRAME_LENGTH
    ensures |Errors(CodedOf(a), CodedOf(b))| <= |DataErrors(a, b)|
  {
    var e, d := Errors(CodedOf(a), CodedOf(b)), DataErrors(a, b);
    var moved := set k | k in d :: SymbolAt(k);
    forall m | m in e ensures m in moved {
      SymbolAtPlace(m);
      assert Place(m) in d;
    }
    ImageSize(d, moved);
    SubsetSize(e, moved);
  }

  lemma {:induction false} ImageSize(d: set<nat>, moved: set<nat>)
    requires forall k :: k in d ==> k % 162 >= 2
    requires moved == set k | k in d :: SymbolAt(k)
    ensures |moved| <= |d|
  {
    if d != {} {
      var k :| k in d;
      var rest := set j | j in d - {k} :: SymbolAt(j);
      ImageSize(d - {k}, rest);
      assert moved == rest + {SymbolAt(k)};
    }
  }

  lemma {:induction false} SubsetSize(a: set<nat>, b: set<nat>)
    requires a <= b
    ensures |a| <= |b|
  {
    if a != {} {
      var x :| x in a;
      SubsetSize(a - {x}, b - {x});
    }
  }
}
