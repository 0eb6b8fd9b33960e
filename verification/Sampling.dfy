/** The row files of the builder: framing, the memoised initialiser, and sampling. */
module Sampling {
  import opened Sequences
  import opened Rows
  import opened Cosine
  import opened Compute
  import opened KMeans

  // ----- framing

  /** What one read of the file returns: a row, the end, or a fatal error on a torn row. */
  datatype Read = One(row: Stored) | End | Fatal

  function ReadAt(file: seq<Code>, pos: nat, width: nat): Read
    requires pos <= |file|
  {
    if pos == |file| then End
    else if |file| - pos < width then Fatal
    else One(file[pos..pos + width])
  }

  /** All rows of a file, read until something else comes. */
  function ReadAll(file: seq<Code>, width: nat): (seq<Stored>, Read)
    requires width > 0
  {
    var r := ReadAt(file, 0, width);
    if r.One? then
      var (rows, last) := ReadAll(file[width..], width);
      ([r.row] + rows, last)
    else ([], r)
  }

  lemma {:induction false} ReadAllIsFramed(file: seq<Code>, width: nat)
    requires width > 0
    ensures Framed(ReadAll(file, width).0, width)
  {
    if !ReadAt(file, 0, width).One? {
    } else {
      ReadAllIsFramed(file[width..], width);
    }
  }

  lemma {:induction false} FramedReadsBack(rows: seq<Stored>, width: nat)
    requires width > 0 && Framed(rows, width)
    ensures ReadAll(Flatten(rows), width) == (rows, End)
  {
    if rows == [] {
    } else {
      FramedReadsBack(rows[1..], width);
      var file := Flatten(rows);
      assert file[..width] == rows[0] && file[width..] == Flatten(rows[1..]);
      assert file[0..0 + width] == rows[0];
      assert rows == [rows[0]] + rows[1..];
    }
  }

  /** Writing rows one after the other and reading the file gives back exactly those rows, and then
      the end, if and only if every row has the file's row width. */
  lemma FramingRoundTrip(rows: seq<Stored>, width: nat)
    requires width > 0
    ensures ReadAll(Flatten(rows), width) == (rows, End) <==> Framed(rows, width)
  {
    if Framed(rows, width) {
      FramedReadsBack(rows, width);
    }
    ReadAllIsFramed(Flatten(rows), width);
  }

  // ----- writer and reader

  class CreateDataset {
    const vectorsize: nat
    var file: seq<Code>
    var total: nat
    ghost var rows: seq<Stored>

    ghost predicate Valid()
      reads this
    {
      file == Flatten(rows) && total == |rows|
    }

    constructor (vectorsize: nat)
      ensures Valid() && rows == [] && this.vectorsize == vectorsize
    {
      this.vectorsize := vectorsize;
      file, total, rows := [], 0, [];
    }

    method WriteRow(row: Stored)
      requires Valid()
      modifies this
      ensures Valid() && rows == old(rows) + [row]
    {
      FlattenSnoc(rows, row);
      file := file + row;
      total := total + 1;
      rows := rows + [row];
    }

    method Finalize() returns (d: Dataset)
      requires Valid()
      ensures fresh(d) && d.vectorsize == vectorsize && d.rows == rows && d.file == file
      ensures Framed(rows, 8 + vectorsize) ==> d.Valid()
      ensures !d.initialized
    {
      d := new Dataset(vectorsize, file, total, rows);
    }
  }

  class Dataset {
    const vectorsize: nat
    const file: seq<Code>
    const total: nat
    var pos: nat
    var initialized: bool
    var centroid: Row
    ghost const rows: seq<Stored>
    ghost var next: nat

    /** The reader stands before row `next`. */
    ghost predicate Valid()
      reads `pos, `next
    {
      && file == Flatten(rows) && total == |rows| && Framed(rows, 8 + vectorsize)
      && next <= |rows| && pos <= |file| && file[pos..] == Flatten(rows[next..])
    }

    constructor (vectorsize: nat, file: seq<Code>, total: nat, ghost rows: seq<Stored>)
      requires file == Flatten(rows) && total == |rows|
      ensures this.vectorsize == vectorsize && this.file == file && this.total == total && this.rows == rows
      ensures Framed(rows, 8 + vectorsize) ==> Valid()
      ensures !initialized && next == 0
    {
      this.vectorsize, this.file, this.total, this.rows := vectorsize, file, total, rows;
      pos, initialized, centroid, next := 0, false, Row(0.0, 0.0, []), 0;
    }

    method ReadRow() returns (r: Read)
      requires Valid()
      modifies `pos, `next
      ensures Valid()
      ensures old(next) == |rows| ==> r == End && next == old(next)
      ensures old(next) < |rows| ==> r == One(rows[old(next)]) && next == old(next) + 1
    {
      var width := 8 + vectorsize;
      if next < |rows| {
        assert rows[next..][1..] == rows[next + 1..];
      }
      r := ReadAt(file, pos, width);
      if r.One? {
        assert file[pos + width..] == file[pos..][width..];
        pos := pos + width;
        next := next + 1;
      }
    }

    method Reset()
      requires Valid()
      modifies `pos, `next
      ensures Valid() && next == 0
    {
      pos := 0;
      next := 0;
    }

    method OwnCentroid(size: nat, draws: seq<nat>, picks: seq<nat>, header: Header, sqrt: real -> real)
      returns (c: Row)
      requires Valid() && rows != [] && 0 < size && vectorsize > 0 && IsSqrt(sqrt)
      requires EnoughDraws(total, size, draws) && EnoughPicks(picks, Min(total, size), 1)
      modifies `pos, `next
      ensures Valid() && next == 0
      ensures ClustersSample([c], rows, size, 1, picks, header, vectorsize, sqrt)
    {
      Reset();
      var centroids := ClusterSample(this, size, 1, draws, picks, header, sqrt);
      c := centroids[0];
      assert centroids == [c];
      Reset();
    }

    /** The initialiser of `Finalize`: on the first call it clusters a sample down to one centroid
        and rewinds; later calls do nothing. Clustering an empty sample ends the process. */
    method Initialize(size: nat, draws: seq<nat>, picks: seq<nat>, header: Header, sqrt: real -> real)
      requires Valid() && rows != [] && 0 < size && vectorsize > 0 && IsSqrt(sqrt)
      requires EnoughDraws(total, size, draws) && EnoughPicks(picks, Min(total, size), 1)
      modifies this
      ensures Valid() && initialized
      ensures !old(initialized) ==>
                next == 0 && ClustersSample([centroid], rows, size, 1, picks, header, vectorsize, sqrt)
      ensures old(initialized) ==> next == old(next) && centroid == old(centroid)
    {
      if initialized {
        return;
      }
      var c := OwnCentroid(size, draws, picks, header, sqrt);
      centroid, initialized := c, true;
      assert [centroid] == [c];
    }
  }

  /** `centroids` are a clustering of the stored rows to `k` vectors. */
  ghost predicate Clusters(centroids: seq<Row>, sample: seq<Stored>, k: nat, picks: seq<nat>, header: Header,
                           dim: nat, sqrt: real -> real)
  {
    k > 0 && Framed(sample, 8 + dim) && IsKMeans(centroids, DecodeAll(sample, header, dim), k, picks, dim, sqrt)
  }

  /** They are a clustering of some sample of the file. */
  ghost predicate ClustersSample(centroids: seq<Row>, rows: seq<Stored>, size: nat, k: nat, picks: seq<nat>,
                                 header: Header, dim: nat, sqrt: real -> real)
  {
    exists indexes :: IsSample(indexes, |rows|, size)
                      && Clusters(centroids, Select(rows, indexes), k, picks, header, dim, sqrt)
  }

  // ----- sampling

  /** The draws `random.Intn(n - i)` of the shuffle. */
  ghost predicate ValidDraws(n: nat, count: nat, draws: seq<nat>) {
    count <= n && |draws| == count && forall i :: 0 <= i < count ==> draws[i] < n - i
  }

  /** They are needed only if not everything is sampled. */
  ghost predicate EnoughDraws(total: nat, size: nat, draws: seq<nat>) {
    total > size ==> ValidDraws(total, size, draws)
  }

  /** Partial Fisher-Yates shuffle: whatever is drawn, the array stays a permutation of 0..n-1, so
      its prefix is a choice of `count` different numbers below n. */
  method GenerateUniqueRandom(n: nat, count: nat, draws: seq<nat>) returns (prefix: seq<nat>)
    requires ValidDraws(n, count, draws)
    ensures |prefix| == count && Distinct(prefix)
    ensures forall i :: 0 <= i < count ==> prefix[i] < n
  {
    var numbers := new nat[n](i => i);
    assert numbers[..] == Iota(n);
    for i := 0 to count
      invariant multiset(numbers[..]) == multiset(Iota(n))
    {
      Swap(numbers, i, i + draws[i]);
    }
    PermutationMembers(Iota(n), numbers[..]);
    prefix := numbers[..count];
    forall i | 0 <= i < count ensures prefix[i] < n {
      assert numbers[..][i] in Iota(n);
    }
  }

  method Swap(numbers: array<nat>, i: nat, j: nat)
    requires i < numbers.Length && j < numbers.Length
    modifies numbers
    ensures multiset(numbers[..]) == multiset(old(numbers[..]))
    ensures numbers[..] == old(numbers[..])[i := old(numbers[j])][j := old(numbers[i])]
  {
    ghost var before := numbers[..];
    numbers[i], numbers[j] := numbers[j], numbers[i];
    assert numbers[..] == before[i := before[j]][j := before[i]];
  }

  ghost predicate Ascending(indexes: seq<nat>) {
    forall i, j :: 0 <= i < j < |indexes| ==> indexes[i] < indexes[j]
  }

  /** The indexes of a sample: ascending, in range, and as many as possible up to `size`. */
  ghost predicate IsSample(indexes: seq<nat>, total: nat, size: nat) {
    Ascending(indexes) && |indexes| == Min(total, size) && forall i :: 0 <= i < |indexes| ==> indexes[i] < total
  }

  function Select(rows: seq<Stored>, indexes: seq<nat>): seq<Stored>
    requires forall i :: 0 <= i < |indexes| ==> indexes[i] < |rows|
  {
    Permuted(rows, indexes)
  }

  /** `sort.Ints`. */
  method SortInts(items: seq<nat>) returns (sorted: seq<nat>)
    ensures multiset(sorted) == multiset(items)
    ensures forall i, j :: 0 <= i < j < |sorted| ==> sorted[i] <= sorted[j]
  {
    var key := (x: nat) => -(x as real);
    sorted := SortFunc(items, key);
    forall i, j | 0 <= i < j < |sorted| ensures sorted[i] <= sorted[j] {
      assert key(sorted[i]) >= key(sorted[j]);
    }
  }

  method SampleIndexes(total: nat, size: nat, draws: seq<nat>) returns (indexes: seq<nat>)
    requires EnoughDraws(total, size, draws)
    ensures IsSample(indexes, total, size)
  {
    if total <= size {
      indexes := Iota(total);
    } else {
      var chosen := GenerateUniqueRandom(total, size, draws);
      indexes := SortInts(chosen);
      PermutationMembers(chosen, indexes);
      forall i | 0 <= i < |indexes| ensures indexes[i] < total {
        assert indexes[i] in chosen;
      }
    }
  }

  /** The sample of a freshly rewound file: output[i] is row indexes[i], no slot stays empty. */
  method Sample(d: Dataset, size: nat, draws: seq<nat>) returns (output: seq<Stored>, indexes: seq<nat>)
    requires d.Valid() && d.next == 0
    requires EnoughDraws(d.total, size, draws)
    modifies d`pos, d`next
    ensures d.Valid()
    ensures IsSample(indexes, d.total, size) && output == Select(d.rows, indexes)
    ensures |output| == |indexes| && forall i :: 0 <= i < |output| ==> output[i] == d.rows[indexes[i]]
    ensures Framed(output, 8 + d.vectorsize)
  {
    indexes := SampleIndexes(d.total, size, draws);
    output := [];
    var readerIdx := 0;
    for outputIdx := 0 to |indexes|
      invariant d.Valid() && d.next == readerIdx
      invariant output == Select(d.rows, indexes)[..outputIdx]
      invariant outputIdx < |indexes| ==> readerIdx <= indexes[outputIdx]
    {
      var targetIdx := indexes[outputIdx];
      while readerIdx < targetIdx
        invariant d.Valid() && d.next == readerIdx <= targetIdx
      {
        var skipped := d.ReadRow();
        readerIdx := readerIdx + 1;
      }
      var r := d.ReadRow();
      output := output + [r.row];
      readerIdx := readerIdx + 1;
    }
  }

  /** A sample of the rewound file, clustered to `k` vectors or as many as there are. */
  method ClusterSample(d: Dataset, size: nat, k: nat, draws: seq<nat>, picks: seq<nat>, header: Header,
                       sqrt: real -> real)
    returns (centroids: seq<Row>)
    requires d.Valid() && d.next == 0 && d.vectorsize > 0 && k > 0 && IsSqrt(sqrt)
    requires EnoughDraws(d.total, size, draws) && EnoughPicks(picks, Min(d.total, size), k)
    modifies d`pos, d`next
    ensures d.Valid()
    ensures |centroids| == Min(k, Min(d.total, size)) && EvenRows(centroids, d.vectorsize)
    ensures ClustersSample(centroids, d.rows, size, k, picks, header, d.vectorsize, sqrt)
  {
    var data, indexes := Sample(d, size, draws);
    centroids := KMeans.KMeans(DecodeAll(data, header, d.vectorsize), k, picks, d.vectorsize, sqrt);
    assert Clusters(centroids, Select(d.rows, indexes), k, picks, header, d.vectorsize, sqrt);
  }
}
