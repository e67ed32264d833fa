/** The 3x4 calibration matrix of the balance board and the two computations on it:
    loading it from the device's calibration chunks, and converting a raw sensor
    reading to kilograms by piecewise-linear interpolation. Rows are the reference
    loads 0 kg, 17 kg and 34 kg; columns are the sensors top right, bottom right,
    top left and bottom left. */
module Calibration {
  import opened Bytes

  /** The placeholder every cell holds until the device's calibration arrives. */
  const Sentinel := 10000

  /** Three rows of four raw readings. */
  predicate IsMatrix(m: seq<seq<int>>)
  {
    |m| == 3 && |m[0]| == 4 && |m[1]| == 4 && |m[2]| == 4
  }

  /** Every cell is a raw 16-bit reading, as the calibration chunks carry them. */
  predicate InWordRange(m: seq<seq<int>>)
    requires IsMatrix(m)
  {
    forall i, j :: 0 <= i < 3 && 0 <= j < 4 ==> 0 <= m[i][j] < 0x1_0000
  }

  /** The matrix a new driver starts with. */
  function InitialMatrix(): (m: seq<seq<int>>)
    ensures IsMatrix(m)
    ensures forall i, j :: 0 <= i < 3 && 0 <= j < 4 ==> m[i][j] == Sentinel
  {
    [[Sentinel, Sentinel, Sentinel, Sentinel],
     [Sentinel, Sentinel, Sentinel, Sentinel],
     [Sentinel, Sentinel, Sentinel, Sentinel]]
  }

  /** The outcome of the calibration parser: the matrix it leaves behind (cells it
      wrote before raising stay written) and the exception, if any. */
  datatype Parsed = Parsed(matrix: seq<seq<int>>, fault: Option<Fault>)

  /** Four big-endian words of a chunk, starting at byte `off`. */
  function ChunkRow(b: seq<byte>, off: nat): seq<int>
    requires off + 8 <= |b|
  {
    [Word(b[off], b[off + 1]), Word(b[off + 2], b[off + 3]),
     Word(b[off + 4], b[off + 5]), Word(b[off + 6], b[off + 7])]
  }

  /** Cell `j` of the 34 kg row after the short-chunk loop: the loop writes cell `j`
      when both bytes of pair `j` exist, and raises at the first pair that does not. */
  function TopCell(row: seq<int>, b: seq<byte>, j: nat): int
    requires |row| == 4 && j < 4
  {
    if 2 * j + 1 < |b| then Word(b[2 * j], b[2 * j + 1]) else row[j]
  }

  /** calibration_parser: a 16-byte chunk fills the 0 kg and 17 kg rows, a shorter
      chunk fills the 34 kg row and raises when it holds fewer than four words, and a
      longer chunk is ignored. */
  function ParseCalibration(m: seq<seq<int>>, b: seq<byte>): (r: Parsed)
    requires IsMatrix(m)
    ensures IsMatrix(r.matrix)
    ensures r.fault.Some? <==> |b| < 8
  {
    if |b| == 16 then
      Parsed([ChunkRow(b, 0), ChunkRow(b, 8), m[2]], None)
    else if |b| < 16 then
      var top := [TopCell(m[2], b, 0), TopCell(m[2], b, 1), TopCell(m[2], b, 2), TopCell(m[2], b, 3)];
      Parsed([m[0], m[1], top], if |b| < 8 then Some(MissingByte) else None)
    else
      Parsed(m, None)
  }

  /** A 16-byte chunk sets cell (i, j) of the first two rows to the k-th big-endian
      word of the chunk, k = 4i + j, and leaves the 34 kg row alone. */
  lemma FullChunk(m: seq<seq<int>>, b: seq<byte>)
    requires IsMatrix(m) && |b| == 16
    ensures ParseCalibration(m, b).fault == None
    ensures forall i, j :: 0 <= i < 2 && 0 <= j < 4 ==>
      ParseCalibration(m, b).matrix[i][j] == Word(b[2 * (4 * i + j)], b[2 * (4 * i + j) + 1])
    ensures ParseCalibration(m, b).matrix[2] == m[2]
  {
  }

  /** A chunk of 8 to 15 bytes sets the 34 kg row from its first four words and
      leaves the first two rows alone. */
  lemma ShortChunk(m: seq<seq<int>>, b: seq<byte>)
    requires IsMatrix(m) && 8 <= |b| < 16
    ensures ParseCalibration(m, b).fault == None
    ensures forall j :: 0 <= j < 4 ==> ParseCalibration(m, b).matrix[2][j] == Word(b[2 * j], b[2 * j + 1])
    ensures ParseCalibration(m, b).matrix[0] == m[0] && ParseCalibration(m, b).matrix[1] == m[1]
  {
  }

  /** A chunk of fewer than 8 bytes raises after writing the cells of the 34 kg row
      whose byte pair is complete; nothing else changes. */
  lemma TruncatedChunk(m: seq<seq<int>>, b: seq<byte>)
    requires IsMatrix(m) && |b| < 8
    ensures ParseCalibration(m, b).fault == Some(MissingByte)
    ensures forall j :: 0 <= j < 4 ==>
      ParseCalibration(m, b).matrix[2][j] == if j < |b| / 2 then Word(b[2 * j], b[2 * j + 1]) else m[2][j]
    ensures ParseCalibration(m, b).matrix[0] == m[0] && ParseCalibration(m, b).matrix[1] == m[1]
  {
  }

  /** A chunk longer than 16 bytes changes nothing. */
  lemma OverlongChunk(m: seq<seq<int>>, b: seq<byte>)
    requires IsMatrix(m) && |b| > 16
    ensures ParseCalibration(m, b) == Parsed(m, None)
  {
  }

  /** The bytes of four words, high byte first. */
  function RowBytes(row: seq<int>): (b: seq<byte>)
    requires |row| == 4 && forall j :: 0 <= j < 4 ==> 0 <= row[j] < 0x1_0000
    ensures |b| == 8
  {
    WordBytes(row[0]) + WordBytes(row[1]) + WordBytes(row[2]) + WordBytes(row[3])
  }

  /** Reading a row's bytes back gives the row. */
  lemma {:induction false} RowBytesRoundTrip(row: seq<int>)
    requires |row| == 4 && forall j :: 0 <= j < 4 ==> 0 <= row[j] < 0x1_0000
    ensures ChunkRow(RowBytes(row), 0) == row
    ensures forall j :: 0 <= j < 4 ==> Word(RowBytes(row)[2 * j], RowBytes(row)[2 * j + 1]) == row[j]
  {
    var b := RowBytes(row);
    forall j | 0 <= j < 4
      ensures b[2 * j] == WordBytes(row[j])[0] && b[2 * j + 1] == WordBytes(row[j])[1]
    {
    }
  }

  /** The 16-byte chunk made of two rows' bytes sets the 0 kg and 17 kg rows to
      those rows. */
  lemma {:induction false} FirstChunkRoundTrip(before: seq<seq<int>>, r0: seq<int>, r1: seq<int>)
    requires IsMatrix(before)
    requires |r0| == 4 && forall j :: 0 <= j < 4 ==> 0 <= r0[j] < 0x1_0000
    requires |r1| == 4 && forall j :: 0 <= j < 4 ==> 0 <= r1[j] < 0x1_0000
    ensures ParseCalibration(before, RowBytes(r0) + RowBytes(r1)) == Parsed([r0, r1, before[2]], None)
  {
    var b := RowBytes(r0) + RowBytes(r1);
    RowBytesRoundTrip(r0);
    RowBytesRoundTrip(r1);
    assert b[..8] == RowBytes(r0) && b[8..] == RowBytes(r1);
    assert ChunkRow(b, 0) == ChunkRow(RowBytes(r0), 0);
    assert ChunkRow(b, 8) == ChunkRow(RowBytes(r1), 0);
  }

  /** The 8-byte chunk made of a row's bytes sets the 34 kg row to that row. */
  lemma {:induction false} SecondChunkRoundTrip(m: seq<seq<int>>, r2: seq<int>)
    requires IsMatrix(m)
    requires |r2| == 4 && forall j :: 0 <= j < 4 ==> 0 <= r2[j] < 0x1_0000
    ensures ParseCalibration(m, RowBytes(r2)) == Parsed([m[0], m[1], r2], None)
  {
    RowBytesRoundTrip(r2);
    var top := ParseCalibration(m, RowBytes(r2)).matrix[2];
    assert top == r2;
  }

  /** The device's calibration arrives as a 16-byte chunk holding the 0 kg and
      17 kg rows followed by an 8-byte chunk holding the 34 kg row; parsing the two
      in that order reproduces the matrix they were made from, whatever the
      matrix held before. */
  lemma {:induction false} CalibrationRoundTrip(before: seq<seq<int>>, m: seq<seq<int>>)
    requires IsMatrix(before) && IsMatrix(m) && InWordRange(m)
    ensures var first := ParseCalibration(before, RowBytes(m[0]) + RowBytes(m[1]));
      first.fault == None &&
      ParseCalibration(first.matrix, RowBytes(m[2])) == Parsed(m, None)
  {
    assert forall i, j :: 0 <= i < 3 && 0 <= j < 4 ==> 0 <= m[i][j] < 0x1_0000;
    FirstChunkRoundTrip(before, m[0], m[1]);
    SecondChunkRoundTrip([m[0], m[1], before[2]], m[2]);
    assert [m[0], m[1], m[2]] == m;
  }

  /** calc_mass: the weight in kilograms on sensor `pos` for raw reading `raw`,
      interpolated between the column's 0, 17 and 34 kg references. A reading exactly
      at the 17 kg reference meets none of the three branches and keeps the initial
      0.0. Above it the divisor is the 34 kg minus the 17 kg reference, which raises
      when the two are equal. */
  function CalcMass(m: seq<seq<int>>, raw: int, pos: nat): (r: Result<real>)
    requires IsMatrix(m) && pos < 4
    ensures r.Fail? ==> r.fault == ZeroDivision
  {
    var c0, c1, c2 := m[0][pos], m[1][pos], m[2][pos];
    if raw < c0 then Ok(0.0)
    else if raw < c1 then Ok(17.0 * ((raw - c0) as real / (c1 - c0) as real))
    else if raw > c1 then
      if c2 == c1 then Fail(ZeroDivision)
      else Ok(17.0 + 17.0 * ((raw - c1) as real / (c2 - c1) as real))
    else Ok(0.0)
  }

  /** The conversion raises exactly when the reading is above both the 0 kg and the
      17 kg references and the 17 kg and 34 kg references coincide. */
  lemma CalcMassRaises(m: seq<seq<int>>, raw: int, pos: nat)
    requires IsMatrix(m) && pos < 4
    ensures CalcMass(m, raw, pos).Fail? <==> m[0][pos] <= raw && m[1][pos] < raw && m[2][pos] == m[1][pos]
  {
  }

  /** Below the 0 kg reference the weight is zero. */
  lemma BelowZeroReference(m: seq<seq<int>>, raw: int, pos: nat)
    requires IsMatrix(m) && pos < 4 && raw < m[0][pos]
    ensures CalcMass(m, raw, pos) == Ok(0.0)
  {
  }

  /** Between the 0 kg and the 17 kg references the weight is the linear
      interpolation, which lies in [0, 17). */
  lemma {:induction false} FirstSegment(m: seq<seq<int>>, raw: int, pos: nat)
    requires IsMatrix(m) && pos < 4 && m[0][pos] <= raw < m[1][pos]
    ensures CalcMass(m, raw, pos).Ok?
    ensures CalcMass(m, raw, pos).value == 17.0 * ((raw - m[0][pos]) as real / (m[1][pos] - m[0][pos]) as real)
    ensures 0.0 <= CalcMass(m, raw, pos).value < 17.0
  {
    var n, d := (raw - m[0][pos]) as real, (m[1][pos] - m[0][pos]) as real;
    assert 0.0 <= n < d;
    FractionBelowOne(n, d);
  }

  /** Above both the 0 kg and the 17 kg references, when the 17 kg and 34 kg
      references differ, the weight is the interpolation from 17 kg. It is above 17
      when the 34 kg reference is the higher one; when it is the lower one the weight
      is below 17, and it is zero or negative from 2c1 - c2 upwards. */
  lemma {:induction false} SecondSegment(m: seq<seq<int>>, raw: int, pos: nat)
    requires IsMatrix(m) && pos < 4 && m[0][pos] <= raw && m[1][pos] < raw && m[2][pos] != m[1][pos]
    ensures CalcMass(m, raw, pos).Ok?
    ensures CalcMass(m, raw, pos).value == 17.0 + 17.0 * ((raw - m[1][pos]) as real / (m[2][pos] - m[1][pos]) as real)
    ensures m[1][pos] < m[2][pos] ==> CalcMass(m, raw, pos).value > 17.0
    ensures m[2][pos] < m[1][pos] ==> CalcMass(m, raw, pos).value < 17.0
    ensures m[2][pos] < m[1][pos] && raw >= 2 * m[1][pos] - m[2][pos] ==> CalcMass(m, raw, pos).value <= 0.0
  {
    var n, d := (raw - m[1][pos]) as real, (m[2][pos] - m[1][pos]) as real;
    if d > 0.0 {
      assert n / d > 0.0;
    } else {
      NegativeQuotient(n, d);
    }
  }

  /** A reading exactly at the 0 kg reference weighs nothing when that reference
      does not exceed the 17 kg one. */
  lemma AtZeroReference(m: seq<seq<int>>, pos: nat)
    requires IsMatrix(m) && pos < 4 && m[0][pos] <= m[1][pos]
    ensures CalcMass(m, m[0][pos], pos) == Ok(0.0)
  {
  }

  /** A reading exactly at the 17 kg reference converts to 0 kg, not to 17 kg,
      whatever the references: below the 0 kg reference through the first branch,
      otherwise because it meets none of the three branches. */
  lemma AtSeventeenReference(m: seq<seq<int>>, pos: nat)
    requires IsMatrix(m) && pos < 4
    ensures CalcMass(m, m[1][pos], pos) == Ok(0.0)
  {
  }

  /** Consequently the conversion is not monotone: one count below the 17 kg
      reference weighs more than the reference itself. */
  lemma {:induction false} DipAtSeventeenReference(m: seq<seq<int>>, pos: nat)
    requires IsMatrix(m) && pos < 4 && m[0][pos] < m[1][pos] - 1
    ensures CalcMass(m, m[1][pos] - 1, pos).Ok? && CalcMass(m, m[1][pos], pos).Ok?
    ensures CalcMass(m, m[1][pos] - 1, pos).value > CalcMass(m, m[1][pos], pos).value
  {
    var n, d := (m[1][pos] - 1 - m[0][pos]) as real, (m[1][pos] - m[0][pos]) as real;
    assert n / d > 0.0;
  }

  /** Away from the 17 kg reference the conversion is monotone when the three
      references are ordered. */
  lemma {:induction false} MonotoneOffReference(m: seq<seq<int>>, raw: int, raw': int, pos: nat)
    requires IsMatrix(m) && pos < 4
    requires m[0][pos] <= m[1][pos] < m[2][pos]
    requires raw <= raw' && raw != m[1][pos] && raw' != m[1][pos]
    ensures CalcMass(m, raw, pos).Ok? && CalcMass(m, raw', pos).Ok?
    ensures CalcMass(m, raw, pos).value <= CalcMass(m, raw', pos).value
  {
    var c0, c1, c2 := m[0][pos], m[1][pos], m[2][pos];
    if raw < c0 {
      if raw' < c0 {
      } else if raw' < c1 {
        FirstSegment(m, raw', pos);
      } else {
        SecondSegment(m, raw', pos);
      }
    } else if raw < c1 {
      FirstSegment(m, raw, pos);
      if raw' < c1 {
        var d := (c1 - c0) as real;
        QuotientMonotone((raw - c0) as real, (raw' - c0) as real, d);
      } else {
        SecondSegment(m, raw', pos);
      }
    } else {
      SecondSegment(m, raw, pos);
      SecondSegment(m, raw', pos);
      QuotientMonotone((raw - c1) as real, (raw' - c1) as real, (c2 - c1) as real);
    }
  }

  /** With the sentinel still in every cell, a reading up to 10000 weighs nothing in
      every column, and a higher reading raises, since the 17 kg and 34 kg
      references coincide. */
  lemma SentinelColumn(raw: int, pos: nat)
    requires pos < 4
    ensures raw <= Sentinel ==> CalcMass(InitialMatrix(), raw, pos) == Ok(0.0)
    ensures raw > Sentinel ==> CalcMass(InitialMatrix(), raw, pos) == Fail(ZeroDivision)
  {
  }

  /** A positive numerator over a negative divisor: the quotient is negative, and at
      most -1 once the numerator reaches the divisor's magnitude. */
  lemma NegativeQuotient(n: real, d: real)
    requires 0.0 < n && d < 0.0
    ensures n / d < 0.0
    ensures n >= -d ==> n / d <= -1.0
  {
    assert n / d * d == n;
  }

  lemma FractionBelowOne(n: real, d: real)
    requires 0.0 <= n < d
    ensures 0.0 <= n / d < 1.0
  {
    assert n / d * d == n;
  }

  lemma QuotientMonotone(n: real, n': real, d: real)
    requires n <= n' && d > 0.0
    ensures n / d <= n' / d
  {
    assert n' / d - n / d == (n' - n) / d;
  }
}
