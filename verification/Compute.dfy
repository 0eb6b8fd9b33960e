/** The flat row-major matrices and both builds of the cosine similarity, in place as in the code.
    Their common meaning is `Cosine.Nearest`. */
module Compute {
  import opened Sequences
  import opened Rows
  import opened Quantization
  import opened Cosine

  // ----- rows of a flat array

  /** Where row `i` starts: i * cols, written without a product for the solver's sake. */
  function Offset(i: nat, cols: nat): nat {
    if i == 0 then 0 else Offset(i - 1, cols) + cols
  }

  lemma {:induction false} OffsetIsProduct(i: nat, cols: nat)
    ensures Offset(i, cols) == i * cols
  {
    if i == 0 {
    } else {
      OffsetIsProduct(i - 1, cols);
      assert i * cols == (i - 1) * cols + cols;
    }
  }

  lemma {:induction false} RowsApart(i: nat, j: nat, cols: nat)
    requires i < j
    ensures Offset(i, cols) + cols <= Offset(j, cols)
  {
    if i + 1 == j {
    } else {
      RowsApart(i, j - 1, cols);
    }
  }

  function FlatRow(flat: seq<real>, rows: nat, cols: nat, i: nat): (row: Vector)
    requires |flat| == Offset(rows, cols) && i < rows
    ensures |row| == cols
  {
    RowsApart(i, rows, cols);
    flat[Offset(i, cols)..Offset(i, cols) + cols]
  }

  function RowsOf(flat: seq<real>, rows: nat, cols: nat): (m: seq<Vector>)
    requires |flat| == Offset(rows, cols)
    ensures |m| == rows && SameWidth(m, cols)
  {
    seq(rows, i requires 0 <= i < rows => FlatRow(flat, rows, cols, i))
  }

  // ----- normalisation

  method NormalizeVector(data: array<real>, start: nat, cols: nat, sqrt: real -> real)
    requires start + cols <= data.Length
    modifies data
    ensures data[start..start + cols] == Unit(old(data[start..start + cols]), sqrt)
    ensures forall k :: 0 <= k < data.Length && !(start <= k < start + cols) ==> data[k] == old(data[k])
  {
    ghost var vec := data[start..start + cols];
    var norm := 0.0;
    for i := 0 to cols
      invariant norm == Dot(vec[..i], vec[..i])
    {
      assert vec[..i + 1][..i] == vec[..i];
      norm := norm + data[start + i] * data[start + i];
    }
    assert vec[..cols] == vec;
    norm := sqrt(norm);
    if norm != 0.0 {
      for i := 0 to cols
        invariant forall k :: 0 <= k < cols ==>
                    data[start + k] == if k < i then vec[k] / norm else vec[k]
        invariant forall k :: 0 <= k < data.Length && !(start <= k < start + cols) ==>
                    data[k] == old(data[k])
      {
        data[start + i] := data[start + i] / norm;
      }
    }
  }

  /** `Dscal` on a stretch of the array. */
  method ScaleInPlace(data: array<real>, start: nat, cols: nat, factor: real)
    requires start + cols <= data.Length
    modifies data
    ensures data[start..start + cols] == Scale(old(data[start..start + cols]), factor)
    ensures forall k :: 0 <= k < data.Length && !(start <= k < start + cols) ==> data[k] == old(data[k])
  {
    ghost var vec := data[start..start + cols];
    ghost var scaled := Scale(vec, factor);
    for i := 0 to cols
      invariant forall k :: 0 <= k < cols ==> data[start + k] == if k < i then scaled[k] else vec[k]
      invariant forall k :: 0 <= k < data.Length && !(start <= k < start + cols) ==>
                  data[k] == old(data[k])
    {
      assert scaled[i] == vec[i] * factor;
      data[start + i] := data[start + i] * factor;
    }
  }

  /** The other build normalises with the reciprocal of the norm (`Dnrm2` and `Dscal`). */
  method NormalizeVectorScaled(data: array<real>, start: nat, cols: nat, sqrt: real -> real)
    requires start + cols <= data.Length
    modifies data
    ensures data[start..start + cols] == Unit(old(data[start..start + cols]), sqrt)
    ensures forall k :: 0 <= k < data.Length && !(start <= k < start + cols) ==> data[k] == old(data[k])
  {
    ghost var vec := data[start..start + cols];
    var norm := sqrt(Dot(data[start..start + cols], data[start..start + cols]));
    if norm != 0.0 {
      UnitIsScale(vec, sqrt);
      ScaleInPlace(data, start, cols, 1.0 / norm);
    }
  }

  method DotLoop(a: Vector, b: Vector) returns (dot: real)
    requires |a| == |b|
    ensures dot == Dot(a, b)
  {
    dot := 0.0;
    for k := 0 to |a|
      invariant dot == Dot(a[..k], b[..k])
    {
      assert a[..k + 1][..k] == a[..k] && b[..k + 1][..k] == b[..k];
      dot := dot + a[k] * b[k];
    }
    assert a[..|a|] == a && b[..|a|] == b;
  }

  /** Replacing the stretch of row `i` replaces row `i` and no other. */
  lemma RowReplaced(before: seq<real>, after: seq<real>, rows: nat, cols: nat, i: nat, row: Vector)
    requires |before| == |after| == Offset(rows, cols) && i < rows
    requires FlatRow(after, rows, cols, i) == row
    requires forall k :: 0 <= k < |after| && !(Offset(i, cols) <= k < Offset(i, cols) + cols) ==>
               after[k] == before[k]
    ensures RowsOf(after, rows, cols) == RowsOf(before, rows, cols)[i := row]
  {
    forall j | 0 <= j < rows && j != i
      ensures FlatRow(after, rows, cols, j) == FlatRow(before, rows, cols, j)
    {
      RowsApart(j, rows, cols);
      if j < i {
        RowsApart(j, i, cols);
      } else {
        RowsApart(i, j, cols);
      }
    }
  }

  method NormalizeRow(data: array<real>, rows: nat, cols: nat, i: nat, sqrt: real -> real)
    requires data.Length == Offset(rows, cols) && i < rows
    modifies data
    ensures RowsOf(data[..], rows, cols)
         == old(RowsOf(data[..], rows, cols))[i := Unit(old(RowsOf(data[..], rows, cols))[i], sqrt)]
  {
    RowsApart(i, rows, cols);
    OffsetIsProduct(i, cols);
    ghost var flat := data[..];
    var start := i * cols;
    NormalizeVector(data, start, cols, sqrt);
    RowReplaced(flat, data[..], rows, cols, i, Unit(FlatRow(flat, rows, cols, i), sqrt));
  }

  method NormalizeRows(data: array<real>, rows: nat, cols: nat, sqrt: real -> real)
    requires data.Length == Offset(rows, cols)
    modifies data
    ensures RowsOf(data[..], rows, cols) == UnitRows(old(RowsOf(data[..], rows, cols)), sqrt)
  {
    ghost var before := RowsOf(data[..], rows, cols);
    for i := 0 to rows
      invariant forall k :: 0 <= k < rows ==>
                  RowsOf(data[..], rows, cols)[k] == if k < i then Unit(before[k], sqrt) else before[k]
    {
      NormalizeRow(data, rows, cols, i, sqrt);
    }
  }

  method NormalizeRowScaled(data: array<real>, rows: nat, cols: nat, i: nat, sqrt: real -> real)
    requires data.Length == Offset(rows, cols) && i < rows
    modifies data
    ensures RowsOf(data[..], rows, cols)
         == old(RowsOf(data[..], rows, cols))[i := Unit(old(RowsOf(data[..], rows, cols))[i], sqrt)]
  {
    RowsApart(i, rows, cols);
    OffsetIsProduct(i, cols);
    ghost var flat := data[..];
    var start := i * cols;
    NormalizeVectorScaled(data, start, cols, sqrt);
    RowReplaced(flat, data[..], rows, cols, i, Unit(FlatRow(flat, rows, cols, i), sqrt));
  }

  method NormalizeRowsScaled(data: array<real>, rows: nat, cols: nat, sqrt: real -> real)
    requires data.Length == Offset(rows, cols)
    modifies data
    ensures RowsOf(data[..], rows, cols) == UnitRows(old(RowsOf(data[..], rows, cols)), sqrt)
  {
    ghost var before := RowsOf(data[..], rows, cols);
    for i := 0 to rows
      invariant forall k :: 0 <= k < rows ==>
                  RowsOf(data[..], rows, cols)[k] == if k < i then Unit(before[k], sqrt) else before[k]
    {
      NormalizeRowScaled(data, rows, cols, i, sqrt);
    }
  }

  method ReadRow(data: array<real>, rows: nat, cols: nat, i: nat) returns (row: Vector)
    requires data.Length == Offset(rows, cols) && i < rows
    ensures row == RowsOf(data[..], rows, cols)[i]
  {
    RowsApart(i, rows, cols);
    OffsetIsProduct(i, cols);
    var start := i * cols;
    row := data[start..start + cols];
  }

  // ----- matrices

  class MatrixContainer {
    const data: array<real>
    const rows: nat
    const cols: nat

    constructor (data: array<real>, rows: nat, cols: nat)
      ensures this.data == data && this.rows == rows && this.cols == cols
    {
      this.data, this.rows, this.cols := data, rows, cols;
    }

    predicate Valid() {
      data.Length == Offset(rows, cols) && rows > 0
    }

    function Contents(): (m: seq<Vector>)
      requires Valid()
      reads data
      ensures |m| == rows && SameWidth(m, cols)
    {
      RowsOf(data[..], rows, cols)
    }

    method Clone() returns (clone: MatrixContainer)
      requires Valid()
      ensures clone.Valid() && fresh(clone) && fresh(clone.data)
      ensures clone.rows == rows && clone.cols == cols && clone.Contents() == Contents()
    {
      var copy := new real[data.Length];
      for k := 0 to data.Length
        invariant copy[..k] == data[..k]
      {
        copy[k] := data[k];
      }
      assert copy[..] == data[..];
      clone := new MatrixContainer(copy, rows, cols);
    }

    /** The loop over all centroids for one data point in the default build: the maximum starts at
        -1 and only a greater product replaces it. */
    method MaxProduct(Brow: Vector, ghost scores: seq<real>) returns (maxVal: real, maxIdx: nat)
      requires Valid() && |Brow| == cols && |scores| == rows
      requires forall j :: 0 <= j < rows ==> scores[j] == Dot(Contents()[j], Brow)
      ensures MaxSoFar(scores, rows, maxVal, maxIdx)
    {
      maxVal, maxIdx := -1.0, 0;
      for j := 0 to rows
        invariant MaxSoFar(scores, j, maxVal, maxIdx)
      {
        var Arow := ReadRow(data, rows, cols, j);
        var dot := DotLoop(Arow, Brow);
        if dot > maxVal {
          maxVal := dot;
          maxIdx := j;
        }
      }
    }

    /** Its result on normalised rows; no similarity falls below the seed. */
    method Scan(Brow: Vector, sqrt: real -> real, ghost centroids: seq<Vector>, ghost point: Vector)
      returns (maxVal: real, maxIdx: nat)
      requires Valid() && IsSqrt(sqrt)
      requires |point| == cols && SameWidth(centroids, cols)
      requires Contents() == UnitRows(centroids, sqrt) && Brow == Unit(point, sqrt)
      ensures IsMatch(maxIdx, maxVal, centroids, point, sqrt)
    {
      ghost var scores := Scores(centroids, point, sqrt);
      forall j | 0 <= j < rows ensures scores[j] == Dot(Contents()[j], Brow) {
      }
      maxVal, maxIdx := MaxProduct(Brow, scores);
      SeedIsHarmless(centroids, point, maxVal, maxIdx, sqrt);
    }

    /** The scan for data point `i`. */
    method ScanRow(matrix2: MatrixContainer, i: nat, sqrt: real -> real,
                   ghost centroids: seq<Vector>, ghost points: seq<Vector>)
      returns (maxVal: real, maxIdx: nat)
      requires Valid() && matrix2.Valid() && cols == matrix2.cols && IsSqrt(sqrt)
      requires SameWidth(centroids, cols) && SameWidth(points, cols) && i < matrix2.rows
      requires Contents() == UnitRows(centroids, sqrt) && matrix2.Contents() == UnitRows(points, sqrt)
      ensures IsMatch(maxIdx, maxVal, centroids, points[i], sqrt)
    {
      var Brow := ReadRow(matrix2.data, matrix2.rows, cols, i);
      assert Brow == matrix2.Contents()[i] == Unit(points[i], sqrt);
      maxVal, maxIdx := Scan(Brow, sqrt, centroids, points[i]);
    }

    /** The search of the default build, once both matrices are normalised. */
    method ScanAll(matrix2: MatrixContainer, sqrt: real -> real,
                   ghost centroids: seq<Vector>, ghost points: seq<Vector>)
      returns (similarities: seq<real>, nearest: seq<nat>)
      requires Valid() && matrix2.Valid() && cols == matrix2.cols && IsSqrt(sqrt)
      requires SameWidth(centroids, cols) && SameWidth(points, cols)
      requires Contents() == UnitRows(centroids, sqrt) && matrix2.Contents() == UnitRows(points, sqrt)
      ensures |nearest| == |similarities| == |points|
      ensures forall k :: 0 <= k < |points| ==>
                IsMatch(nearest[k], similarities[k], centroids, points[k], sqrt)
    {
      similarities, nearest := [], [];
      for i := 0 to matrix2.rows
        invariant |nearest| == |similarities| == i
        invariant forall k :: 0 <= k < i ==> IsMatch(nearest[k], similarities[k], centroids, points[k], sqrt)
      {
        var maxVal, maxIdx := ScanRow(matrix2, i, sqrt, centroids, points);
        similarities := similarities + [maxVal];
        nearest := nearest + [maxIdx];
      }
    }

    /** The default build. The first matrix holds the centroids, the second the data points; the
        rows of both are normalised in place. */
    method MatrixCosineSimilarity(matrix2: MatrixContainer, sqrt: real -> real)
      returns (similarities: seq<real>, nearest: seq<nat>)
      requires Valid() && matrix2.Valid() && cols == matrix2.cols && IsSqrt(sqrt)
      requires data != matrix2.data
      modifies data, matrix2.data
      ensures Contents() == UnitRows(old(Contents()), sqrt)
      ensures matrix2.Contents() == UnitRows(old(matrix2.Contents()), sqrt)
      ensures nearest == NearestAll(old(Contents()), old(matrix2.Contents()), cols, sqrt)
      ensures |similarities| == matrix2.rows
      ensures forall k :: 0 <= k < matrix2.rows ==>
                similarities[k] == NearestScore(old(Contents()), old(matrix2.Contents())[k], sqrt)
    {
      ghost var centroids, points := Contents(), matrix2.Contents();
      NormalizeRows(data, rows, cols, sqrt);
      NormalizeRows(matrix2.data, matrix2.rows, cols, sqrt);
      similarities, nearest := ScanAll(matrix2, sqrt, centroids, points);
    }

    /** One row of the product of `Dgemm`. */
    method ProductRow(Brow: Vector, sqrt: real -> real, ghost centroids: seq<Vector>, ghost point: Vector)
      returns (products: seq<real>)
      requires Valid()
      requires |point| == cols && SameWidth(centroids, cols)
      requires Contents() == UnitRows(centroids, sqrt) && Brow == Unit(point, sqrt)
      ensures products == Scores(centroids, point, sqrt)
    {
      products := [];
      for j := 0 to rows
        invariant products == Scores(centroids, point, sqrt)[..j]
      {
        var Arow := ReadRow(data, rows, cols, j);
        assert Arow == Contents()[j] == Unit(centroids[j], sqrt);
        var dot := DotLoop(Arow, Brow);
        products := products + [dot];
      }
    }

    /** The query against every row: the vector and the rows are normalised in place. */
    method VectorSimilarities(vector: array<real>, sqrt: real -> real) returns (similarities: seq<real>)
      requires Valid() && vector.Length == cols && vector != data
      modifies data, vector
      ensures similarities == Scores(old(Contents()), old(vector[..]), sqrt)
    {
      ghost var rowsBefore, target := Contents(), vector[..];
      assert vector[0..cols] == vector[..];
      NormalizeVector(vector, 0, cols, sqrt);
      assert vector[..] == vector[0..cols];
      NormalizeRows(data, rows, cols, sqrt);
      similarities := ProductRow(vector[..], sqrt, rowsBefore, target);
    }

    /** `Dgemm`, once both matrices are normalised. */
    method Products(matrix2: MatrixContainer, sqrt: real -> real,
                    ghost centroids: seq<Vector>, ghost points: seq<Vector>)
      returns (C: seq<seq<real>>)
      requires Valid() && matrix2.Valid() && cols == matrix2.cols
      requires SameWidth(centroids, cols) && SameWidth(points, cols)
      requires Contents() == UnitRows(centroids, sqrt) && matrix2.Contents() == UnitRows(points, sqrt)
      ensures |C| == |points|
      ensures forall i :: 0 <= i < |points| ==> C[i] == Scores(centroids, points[i], sqrt)
    {
      C := [];
      for i := 0 to matrix2.rows
        invariant |C| == i
        invariant forall k :: 0 <= k < i ==> C[k] == Scores(centroids, points[k], sqrt)
      {
        var Brow := ReadRow(matrix2.data, matrix2.rows, cols, i);
        assert Brow == matrix2.Contents()[i] == Unit(points[i], sqrt);
        var products := ProductRow(Brow, sqrt, centroids, points[i]);
        C := C + [products];
      }
    }

    /** The gonum build: all products first, then for each row a maximum seeded with the first. */
    method MatrixCosineSimilarityGonum(matrix2: MatrixContainer, sqrt: real -> real)
      returns (similarities: seq<seq<real>>, nearest: seq<nat>)
      requires Valid() && matrix2.Valid() && cols == matrix2.cols
      requires data != matrix2.data
      modifies data, matrix2.data
      ensures Contents() == UnitRows(old(Contents()), sqrt)
      ensures matrix2.Contents() == UnitRows(old(matrix2.Contents()), sqrt)
      ensures nearest == NearestAll(old(Contents()), old(matrix2.Contents()), cols, sqrt)
      ensures |similarities| == matrix2.rows
      ensures forall i :: 0 <= i < matrix2.rows ==>
                similarities[i] == Scores(old(Contents()), old(matrix2.Contents())[i], sqrt)
    {
      ghost var centroids, points := Contents(), matrix2.Contents();
      NormalizeRowsScaled(data, rows, cols, sqrt);
      NormalizeRowsScaled(matrix2.data, matrix2.rows, cols, sqrt);
      similarities := Products(matrix2, sqrt, centroids, points);
      nearest := ScanFromFirstAll(similarities);
    }
  }

  method ScanFromFirstAll(C: seq<seq<real>>) returns (nearest: seq<nat>)
    requires forall i :: 0 <= i < |C| ==> C[i] != []
    ensures |nearest| == |C| && forall i :: 0 <= i < |C| ==> nearest[i] == ArgMax(C[i])
  {
    nearest := [];
    for i := 0 to |C|
      invariant |nearest| == i && forall k :: 0 <= k < i ==> nearest[k] == ArgMax(C[k])
    {
      var maxIdx := ScanFromFirst(C[i]);
      nearest := nearest + [maxIdx];
    }
  }

  /** The maximum of the gonum build. */
  method ScanFromFirst(C: seq<real>) returns (maxIdx: nat)
    requires C != []
    ensures maxIdx == ArgMax(C)
  {
    var maxVal := C[0];
    maxIdx := 0;
    for j := 0 to |C|
      invariant maxIdx < |C| && maxVal == C[maxIdx]
      invariant forall l :: 0 <= l < j ==> C[l] <= maxVal
      invariant forall l :: 0 <= l < maxIdx ==> C[l] < maxVal
    {
      if C[j] > maxVal {
        maxVal := C[j];
        maxIdx := j;
      }
    }
    ArgMaxIff(C, maxIdx);
  }

  /** The state of the default build's scan after `j` centroids. */
  ghost predicate MaxSoFar(scores: seq<real>, j: nat, maxVal: real, maxIdx: nat) {
    && j <= |scores|
    && maxVal >= -1.0
    && (forall l :: 0 <= l < j ==> scores[l] <= maxVal)
    && (maxVal == -1.0 ==> maxIdx == 0)
    && (maxVal > -1.0 ==>
          maxIdx < j && scores[maxIdx] == maxVal && forall l :: 0 <= l < maxIdx ==> scores[l] < maxVal)
  }

  /** Since no similarity is below -1, starting the scan at -1 still finds the leftmost maximum. */
  lemma SeedIsHarmless(centroids: seq<Vector>, row: Vector, maxVal: real, maxIdx: nat, sqrt: real -> real)
    requires IsSqrt(sqrt) && centroids != []
    requires SameWidth(centroids, |row|)
    requires MaxSoFar(Scores(centroids, row, sqrt), |centroids|, maxVal, maxIdx)
    ensures IsMatch(maxIdx, maxVal, centroids, row, sqrt)
  {
    var scores := Scores(centroids, row, sqrt);
    forall j | 0 <= j < |scores| ensures -1.0 <= scores[j] {
      SimilarityRange(centroids[j], row, sqrt);
    }
    assert IsLeftmostMax(scores, maxIdx);
    ArgMaxIff(scores, maxIdx);
  }

  // ----- building a matrix

  /** `copy(flat[start:], row)`: as much of the row as fits. */
  method CopyInto(flat: array<real>, start: nat, row: seq<real>)
    requires start <= flat.Length
    modifies flat
    ensures forall k :: 0 <= k < flat.Length ==>
              flat[k] == if start <= k < start + |row| then row[k - start] else old(flat[k])
  {
    var n := Min(|row|, flat.Length - start);
    for j := 0 to n
      invariant forall k :: 0 <= k < flat.Length ==>
                  flat[k] == if start <= k < start + j then row[k - start] else old(flat[k])
    {
      flat[start + j] := row[j];
    }
  }

  /** What cell `p` holds after the rows were copied in one after the other, each to the start of its
      stretch and possibly beyond the end of it: the last row that reaches the cell decides, and a
      cell that none reaches is zero. */
  function CellAt(rows: seq<Vector>, cols: nat, p: nat): real {
    if rows == [] then 0.0
    else
      var n := |rows| - 1;
      if Offset(n, cols) <= p < Offset(n, cols) + |rows[n]| then rows[n][p - Offset(n, cols)]
      else CellAt(rows[..n], cols, p)
  }

  ghost predicate CopiedIn(flat: seq<real>, rows: seq<Vector>, cols: nat) {
    forall p :: 0 <= p < |flat| ==> flat[p] == CellAt(rows, cols, p)
  }

  /** The matrix of a list of stored rows, as wide as its first row. A longer row runs into the next
      stretch, where the next row overwrites as much as it covers. */
  method NewMatrix(quantized: seq<Row>) returns (m: MatrixContainer)
    requires quantized != [] && quantized[0].codes != []
    ensures fresh(m) && fresh(m.data) && m.Valid()
    ensures m.rows == |quantized| && m.cols == |quantized[0].codes|
    ensures CopiedIn(m.data[..], DequantizeAll(quantized), m.cols)
  {
    var rows, cols := |quantized|, |quantized[0].codes|;
    OffsetIsProduct(rows, cols);
    var flat := new real[rows * cols](_ => 0.0);
    for i := 0 to rows
      invariant CopiedIn(flat[..], DequantizeAll(quantized)[..i], cols)
    {
      var row := DequantizeVectorFloat(quantized[i]);
      OffsetIsProduct(i, cols);
      RowsApart(i, rows, cols);
      var start := i * cols;
      assert DequantizeAll(quantized)[..i + 1][..i] == DequantizeAll(quantized)[..i];
      CopyInto(flat, start, row);
    }
    assert DequantizeAll(quantized)[..rows] == DequantizeAll(quantized);
    m := new MatrixContainer(flat, rows, cols);
  }

  function DequantizeAll(quantized: seq<Row>): seq<Vector> {
    seq(|quantized|, i requires 0 <= i < |quantized| => DequantizeVector(quantized[i]))
  }

  /** Row `i` keeps its own cells as far as it reaches, whatever the other rows are. */
  lemma {:induction false} OwnCells(rows: seq<Vector>, cols: nat, i: nat, j: nat)
    requires i < |rows| && j < cols && j < |rows[i]|
    ensures CellAt(rows, cols, Offset(i, cols) + j) == rows[i][j]
  {
    var n := |rows| - 1;
    if i == n {
    } else {
      RowsApart(i, n, cols);
      OwnCells(rows[..n], cols, i, j);
    }
  }

  /** When all rows have the width of the first, the matrix is exactly the dequantised rows. */
  lemma EvenRowsAreExact(flat: seq<real>, rows: nat, cols: nat, quantized: seq<Row>)
    requires |flat| == Offset(rows, cols) && |quantized| == rows
    requires SameWidth(DequantizeAll(quantized), cols)
    requires CopiedIn(flat, DequantizeAll(quantized), cols)
    ensures RowsOf(flat, rows, cols) == DequantizeAll(quantized)
  {
    var vectors := DequantizeAll(quantized);
    forall i | 0 <= i < rows ensures RowsOf(flat, rows, cols)[i] == vectors[i] {
      RowsApart(i, rows, cols);
      assert |vectors[i]| == cols;
      forall j | 0 <= j < cols ensures FlatRow(flat, rows, cols, i)[j] == vectors[i][j] {
        OwnCells(vectors, cols, i, j);
      }
    }
  }

  predicate EvenRows(rows: seq<Row>, dim: nat) {
    forall i :: 0 <= i < |rows| ==> |rows[i].codes| == dim
  }

  // ----- stored rows

  /** Centroid `j` is not more similar to the row than centroid `k`, and less similar if it stands before. */
  ghost predicate NotNearer(j: nat, k: nat, centroids: seq<Row>, row: Row, sqrt: real -> real)
    requires EvenRows(centroids, |row.codes|) && j < |centroids| && k < |centroids|
  {
    var s, t := Similarity(DequantizeVector(centroids[j]), DequantizeVector(row), sqrt),
                Similarity(DequantizeVector(centroids[k]), DequantizeVector(row), sqrt);
    s <= t && (j < k ==> s < t)
  }

  /** `k` is the leftmost of the stored centroids most similar to the stored row. */
  ghost predicate IsNearestRow(k: nat, centroids: seq<Row>, row: Row, sqrt: real -> real) {
    && k < |centroids| && EvenRows(centroids, |row.codes|)
    && forall j :: 0 <= j < |centroids| ==> NotNearer(j, k, centroids, row, sqrt)
  }

  lemma NearestRowIff(k: nat, centroids: seq<Row>, row: Row, sqrt: real -> real)
    requires centroids != [] && EvenRows(centroids, |row.codes|)
    ensures IsNearestRow(k, centroids, row, sqrt)
            <==> k == Nearest(DequantizeAll(centroids), DequantizeVector(row), sqrt)
  {
    var centers, target := DequantizeAll(centroids), DequantizeVector(row);
    var n := Nearest(centers, target, sqrt);
    forall j | 0 <= j < |centroids| ensures NotNearer(j, n, centroids, row, sqrt) {
      NearestIsMostSimilar(centers, target, sqrt, j);
      assert centers[j] == DequantizeVector(centroids[j]) && centers[n] == DequantizeVector(centroids[n]);
    }
    if IsNearestRow(k, centroids, row, sqrt) {
      assert NotNearer(n, k, centroids, row, sqrt) && NotNearer(k, n, centroids, row, sqrt);
    }
  }

  function PermutedRow(row: Row, order: seq<nat>): (r: Row)
    requires IsOrder(order, |row.codes|)
    ensures |r.codes| == |row.codes|
  {
    row.(codes := Permuted(row.codes, order))
  }

  /** Which centroid is nearest does not depend on the order of the components. */
  lemma NearestIgnoresOrder(k: nat, centroids: seq<Row>, row: Row, order: seq<nat>, others: seq<Row>,
                            sqrt: real -> real)
    requires IsOrder(order, |row.codes|) && EvenRows(centroids, |row.codes|) && |others| == |centroids|
    requires forall j :: 0 <= j < |centroids| ==> others[j] == PermutedRow(centroids[j], order)
    ensures IsNearestRow(k, others, PermutedRow(row, order), sqrt) <==> IsNearestRow(k, centroids, row, sqrt)
  {
    if k < |centroids| {
      forall j | 0 <= j < |centroids|
        ensures NotNearer(j, k, others, PermutedRow(row, order), sqrt) == NotNearer(j, k, centroids, row, sqrt)
      {
        RowsPermuted(centroids[j], row, order, sqrt);
        RowsPermuted(centroids[k], row, order, sqrt);
      }
    }
  }

  lemma RowsPermuted(a: Row, b: Row, order: seq<nat>, sqrt: real -> real)
    requires |a.codes| == |b.codes| && IsOrder(order, |a.codes|)
    ensures Similarity(DequantizeVector(PermutedRow(a, order)), DequantizeVector(PermutedRow(b, order)), sqrt)
         == Similarity(DequantizeVector(a), DequantizeVector(b), sqrt)
  {
    DequantizePermuted(a, order);
    DequantizePermuted(b, order);
    SimilarityPermuted(DequantizeVector(a), DequantizeVector(b), order, sqrt);
  }

  lemma DequantizePermuted(row: Row, order: seq<nat>)
    requires IsOrder(order, |row.codes|)
    ensures DequantizeVector(PermutedRow(row, order)) == Permuted(DequantizeVector(row), order)
  {
  }

  /** The nearest stored centroid of every stored row: both lists become matrices, which the search
      is free to overwrite. */
  method NearestRows(centroids: seq<Row>, data: seq<Row>, dim: nat, sqrt: real -> real)
    returns (nearest: seq<nat>)
    requires centroids != [] && data != [] && dim > 0 && IsSqrt(sqrt)
    requires EvenRows(centroids, dim) && EvenRows(data, dim)
    ensures nearest == NearestAll(DequantizeAll(centroids), DequantizeAll(data), dim, sqrt)
    ensures |nearest| == |data| && forall i :: 0 <= i < |data| ==> IsNearestRow(nearest[i], centroids, data[i], sqrt)
  {
    var a := NewMatrix(centroids);
    var b := NewMatrix(data);
    EvenRowsAreExact(a.data[..], a.rows, a.cols, centroids);
    EvenRowsAreExact(b.data[..], b.rows, b.cols, data);
    var similarities;
    similarities, nearest := a.MatrixCosineSimilarity(b, sqrt);
    forall i | 0 <= i < |data| ensures IsNearestRow(nearest[i], centroids, data[i], sqrt) {
      NearestRowIff(nearest[i], centroids, data[i], sqrt);
    }
  }

  /** The similarity of a stored vector to every stored row, on fresh copies of both. */
  method SimilaritiesTo(target: Row, data: seq<Row>, dim: nat, sqrt: real -> real)
    returns (similarities: seq<real>)
    requires data != [] && dim > 0 && |target.codes| == dim && EvenRows(data, dim)
    ensures SameWidth(DequantizeAll(data), dim)
    ensures similarities == Scores(DequantizeAll(data), DequantizeVector(target), sqrt)
    ensures |similarities| == |data|
    ensures forall i :: 0 <= i < |data| ==>
              similarities[i] == Similarity(DequantizeVector(data[i]), DequantizeVector(target), sqrt)
  {
    var v := DequantizeVectorFloat(target);
    var vector := new real[|v|](i requires 0 <= i < |v| => v[i]);
    assert vector[..] == v;
    var m := NewMatrix(data);
    EvenRowsAreExact(m.data[..], m.rows, m.cols, data);
    similarities := m.VectorSimilarities(vector, sqrt);
  }
}
