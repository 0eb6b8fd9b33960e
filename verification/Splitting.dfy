/** The split of one task: it samples its file, clusters the sample, and hands every row of the file
    to the writer of its nearest centroid. */
module Splitting {
  import opened Constants
  import opened Sequences
  import opened Rows
  import opened Quantization
  import opened Cosine
  import opened Compute
  import opened KMeans
  import opened Sampling
  import opened DivideAndConquer
  import opened SplitTree
  import opened RepeatedRows

  // ----- labels

  /** The centroids of a split with what the similarity search needs. */
  datatype Splitter = Splitter(centroids: seq<Row>, header: Header, dim: nat, sqrt: real -> real)

  ghost predicate ValidSplitter(sp: Splitter) {
    sp.centroids != [] && sp.dim > 0 && IsSqrt(sp.sqrt) && EvenRows(sp.centroids, sp.dim)
  }

  /** The vector that a stored row stands for. */
  function VectorOf(row: Stored, header: Header, dim: nat): (v: Vector)
    requires |row| == 8 + dim
    ensures |v| == dim
  {
    DequantizeVector(Decode(row, header))
  }

  /** The index of the nearest centroid of a row. */
  function NearestIn(sp: Splitter): Stored -> nat
    requires sp.centroids != [] && EvenRows(sp.centroids, sp.dim)
  {
    row => if |row| != 8 + sp.dim then 0
           else Nearest(DequantizeAll(sp.centroids), VectorOf(row, sp.header, sp.dim), sp.sqrt)
  }

  /** The labels of the rows of a file: for each one the index of its nearest centroid. */
  function Labels(rows: seq<Stored>, nearest: Stored -> nat): (labels: seq<nat>)
    ensures |labels| == |rows|
  {
    Map(rows, nearest)
  }

  lemma LabelsAreNearest(rows: seq<Stored>, sp: Splitter)
    requires sp.centroids != [] && EvenRows(sp.centroids, sp.dim) && Framed(rows, 8 + sp.dim)
    ensures SameWidth(DequantizeAll(DecodeAll(rows, sp.header, sp.dim)), sp.dim)
    ensures NearestAll(DequantizeAll(sp.centroids), DequantizeAll(DecodeAll(rows, sp.header, sp.dim)), sp.dim,
                       sp.sqrt)
         == Labels(rows, NearestIn(sp))
  {
    var points := DequantizeAll(DecodeAll(rows, sp.header, sp.dim));
    forall i | 0 <= i < |rows| ensures points[i] == VectorOf(rows[i], sp.header, sp.dim) {
    }
  }

  lemma LabelIsNearest(row: Stored, sp: Splitter)
    requires sp.centroids != [] && EvenRows(sp.centroids, sp.dim) && |row| == 8 + sp.dim
    ensures IsNearestRow(NearestIn(sp)(row), sp.centroids, Decode(row, sp.header), sp.sqrt)
  {
    NearestRowIff(NearestIn(sp)(row), sp.centroids, Decode(row, sp.header), sp.sqrt);
  }

  /** What the search sees of a row: its direction. */
  function Direction(row: Stored, header: Header, sqrt: real -> real): Vector {
    if |row| < 8 then [] else Unit(DequantizeVector(Decode(row, header)), sqrt)
  }

  function DirectionKey(header: Header, sqrt: real -> real): Stored -> Vector {
    row => Direction(row, header, sqrt)
  }

  /** Rows of the same direction, such as equal rows or positive multiples, have the same nearest
      centroid, whatever the centroids are. */
  lemma SameDirection(sp: Splitter, a: Stored, b: Stored)
    requires sp.centroids != [] && EvenRows(sp.centroids, sp.dim) && |a| == |b| == 8 + sp.dim
    requires Direction(a, sp.header, sp.sqrt) == Direction(b, sp.header, sp.sqrt)
    ensures NearestIn(sp)(a) == NearestIn(sp)(b)
  {
    var centers := DequantizeAll(sp.centroids);
    assert Scores(centers, VectorOf(a, sp.header, sp.dim), sp.sqrt)
        == Scores(centers, VectorOf(b, sp.header, sp.dim), sp.sqrt);
  }

  lemma LabelsFollowDirection(rows: seq<Stored>, sp: Splitter)
    requires sp.centroids != [] && EvenRows(sp.centroids, sp.dim) && Framed(rows, 8 + sp.dim)
    ensures SameLabels(rows, Labels(rows, NearestIn(sp)), DirectionKey(sp.header, sp.sqrt))
    ensures SameLabels(rows, Labels(rows, NearestIn(sp)), Itself)
  {
    var key := DirectionKey(sp.header, sp.sqrt);
    forall i, j | 0 <= i < j < |rows| && key(rows[i]) == key(rows[j])
      ensures NearestIn(sp)(rows[i]) == NearestIn(sp)(rows[j])
    {
      SameDirection(sp, rows[i], rows[j]);
    }
  }

  lemma SubsetSnoc(rows: seq<Stored>, row: Stored, nearest: Stored -> nat, part: nat)
    ensures Subset(rows + [row], Labels(rows + [row], nearest), part)
         == Subset(rows, Labels(rows, nearest), part) + (if nearest(row) == part then [row] else [])
  {
    assert (rows + [row])[..|rows|] == rows;
    assert Labels(rows + [row], nearest)[..|rows|] == Labels(rows, nearest);
  }

  // ----- writing

  /** Each writer holds the rows of `done` that are nearest to its centroid. */
  ghost predicate Written(writers: seq<CreateDataset>, done: seq<Stored>, nearest: Stored -> nat)
    reads writers
  {
    forall p :: 0 <= p < |writers| ==>
      writers[p].Valid() && writers[p].rows == Subset(done, Labels(done, nearest), p)
  }

  method WriteRows(writers: seq<CreateDataset>, minibatch: seq<Stored>, idxList: seq<nat>,
                   ghost nearest: Stored -> nat, ghost done: seq<Stored>)
    requires Distinct(writers) && Written(writers, done, nearest) && idxList == Labels(minibatch, nearest)
    requires forall i :: 0 <= i < |idxList| ==> idxList[i] < |writers|
    modifies writers
    ensures Written(writers, done + minibatch, nearest)
  {
    assert done + minibatch[..0] == done;
    for idx := 0 to |minibatch|
      invariant Written(writers, done + minibatch[..idx], nearest)
    {
      assert done + minibatch[..idx + 1] == done + minibatch[..idx] + [minibatch[idx]];
      WriteOne(writers, minibatch[idx], idxList[idx], nearest, done + minibatch[..idx]);
    }
    assert minibatch[..|minibatch|] == minibatch;
  }

  method WriteOne(writers: seq<CreateDataset>, row: Stored, idx: nat, ghost nearest: Stored -> nat,
                  ghost before: seq<Stored>)
    requires Distinct(writers) && Written(writers, before, nearest) && idx == nearest(row) < |writers|
    modifies writers
    ensures Written(writers, before + [row], nearest)
  {
    writers[idx].WriteRow(row);
    forall p | 0 <= p < |writers|
      ensures writers[p].Valid() && writers[p].rows == Subset(before + [row], Labels(before + [row], nearest), p)
    {
      SubsetSnoc(before, row, nearest, p);
    }
  }

  /** One minibatch: the search finds the nearest centroids, and each row goes to that writer. */
  method WriteBatch(writers: seq<CreateDataset>, minibatch: seq<Stored>, sp: Splitter,
                    ghost nearest: Stored -> nat, ghost done: seq<Stored>)
    requires ValidSplitter(sp) && nearest == NearestIn(sp)
    requires Distinct(writers) && |writers| == |sp.centroids|
    requires Written(writers, done, nearest) && minibatch != [] && Framed(minibatch, 8 + sp.dim)
    modifies writers
    ensures Written(writers, done + minibatch, nearest)
  {
    var idxList := SearchBatch(minibatch, sp);
    WriteRows(writers, minibatch, idxList, nearest, done);
  }

  method SearchBatch(minibatch: seq<Stored>, sp: Splitter) returns (idxList: seq<nat>)
    requires ValidSplitter(sp) && minibatch != [] && Framed(minibatch, 8 + sp.dim)
    ensures idxList == Labels(minibatch, NearestIn(sp))
    ensures forall i :: 0 <= i < |idxList| ==> idxList[i] < |sp.centroids|
  {
    idxList := NearestRows(sp.centroids, DecodeAll(minibatch, sp.header, sp.dim), sp.dim, sp.sqrt);
    LabelsAreNearest(minibatch, sp);
  }

  /** The split loop: it reads the rewound file to its end, in minibatches, and every row goes to the
      writer of its nearest centroid, once and in file order. */
  method SplitRows(d: Dataset, writers: seq<CreateDataset>, sp: Splitter, ghost nearest: Stored -> nat,
                   batchSize: nat)
    requires d.Valid() && d.next == 0 && batchSize > 0
    requires ValidSplitter(sp) && nearest == NearestIn(sp) && d.vectorsize == sp.dim && |writers| == |sp.centroids|
    requires Distinct(writers) && forall w :: w in writers ==> w.Valid() && w.rows == []
    modifies d`pos, d`next, writers
    ensures d.Valid() && d.next == |d.rows|
    ensures Written(writers, d.rows, nearest)
  {
    var minibatch: seq<Stored> := [];
    ghost var done: seq<Stored> := [];
    NothingWritten(writers, nearest);
    var more := true;
    while more
      invariant d.Valid() && Loaded(d.rows, d.next, done, minibatch, 8 + sp.dim)
      invariant Written(writers, done, nearest)
      invariant !more ==> d.next == |d.rows|
      decreases |d.rows| - d.next, more
    {
      more, minibatch := ReadInto(d, minibatch, done);
      if more {
        minibatch, done := WriteIfFull(writers, minibatch, sp, batchSize, nearest, done);
      }
    }
    ghost var before, last := done, minibatch;
    minibatch, done := WriteIfFull(writers, minibatch, sp, 1, nearest, done);
    AllWritten(d.rows, before, last, done, minibatch);
  }

  lemma AllWritten(rows: seq<Stored>, before: seq<Stored>, last: seq<Stored>, done: seq<Stored>, rest: seq<Stored>)
    requires before + last == rows[..|rows|] && done + rest == before + last && |rest| < 1
    ensures done == rows
  {
    assert rows[..|rows|] == rows && done + [] == done;
  }

  /** The rows before `next` are the ones done and the ones in the minibatch. */
  ghost predicate Loaded(rows: seq<Stored>, next: nat, done: seq<Stored>, minibatch: seq<Stored>, width: nat) {
    next <= |rows| && done + minibatch == rows[..next] && Framed(minibatch, width)
  }

  /** The next row of the file joins the minibatch. */
  method ReadInto(d: Dataset, minibatch: seq<Stored>, ghost done: seq<Stored>)
    returns (more: bool, minibatch': seq<Stored>)
    requires d.Valid() && Loaded(d.rows, d.next, done, minibatch, 8 + d.vectorsize)
    modifies d`pos, d`next
    ensures d.Valid() && Loaded(d.rows, d.next, done, minibatch', 8 + d.vectorsize)
    ensures if more then d.next == old(d.next) + 1 else d.next == |d.rows| == old(d.next) && minibatch' == minibatch
  {
    var vector := d.ReadRow();
    more, minibatch' := !vector.End?, minibatch;
    if more {
      minibatch' := minibatch + [vector.row];
      assert d.rows[..d.next] == d.rows[..d.next - 1] + [vector.row];
    }
  }

  /** A minibatch is written when it has come to the size; at the end what is left is written. */
  method WriteIfFull(writers: seq<CreateDataset>, minibatch: seq<Stored>, sp: Splitter, size: nat,
                     ghost nearest: Stored -> nat, ghost done: seq<Stored>)
    returns (rest: seq<Stored>, ghost done': seq<Stored>)
    requires ValidSplitter(sp) && nearest == NearestIn(sp) && size > 0
    requires Distinct(writers) && |writers| == |sp.centroids|
    requires Written(writers, done, nearest) && Framed(minibatch, 8 + sp.dim)
    modifies writers
    ensures |rest| < size && Framed(rest, 8 + sp.dim) && done' + rest == done + minibatch
    ensures Written(writers, done', nearest)
  {
    rest, done' := minibatch, done;
    if |minibatch| < size {
      return;
    }
    WriteBatch(writers, minibatch, sp, nearest, done);
    rest, done' := [], done + minibatch;
  }

  lemma NothingWritten(writers: seq<CreateDataset>, nearest: Stored -> nat)
    requires forall w :: w in writers ==> w.Valid() && w.rows == []
    ensures Written(writers, [], nearest)
  {
  }

  // ----- the split of a file

  /** What the random choices of one file are: the draws and picks of its own centroid, and those of
      the split. */
  datatype Choices = Choices(draws1: seq<nat>, picks1: seq<nat>, draws2: seq<nat>, picks2: seq<nat>)

  /** The number of clusters asked for. */
  function Wanted(cfg: Config, n: nat): nat
    requires ValidConfig(cfg)
  {
    Min(SPLIT_SIZE, Max(2, n / cfg.target))
  }

  ghost predicate ValidChoices(ch: Choices, k: nat, n: nat) {
    && EnoughDraws(n, SAMPLE_SIZE, ch.draws1) && EnoughPicks(ch.picks1, Min(n, SAMPLE_SIZE), 1)
    && EnoughDraws(n, SAMPLE_SIZE, ch.draws2) && EnoughPicks(ch.picks2, Min(n, SAMPLE_SIZE), k)
  }

  /** The clustering returns as many centroids as the transition system says. */
  lemma WantedAreParts(cfg: Config, n: nat)
    requires ValidConfig(cfg) && n > cfg.target
    ensures Min(Wanted(cfg, n), Min(n, SAMPLE_SIZE)) == Parts(cfg, n) >= 2 && Wanted(cfg, n) > 0
  {
  }

  /** Opening a file and clustering a sample of it leaves the reader at the first row again. */
  method ChooseCentroids(d: Dataset, k: nat, ch: Choices, header: Header, sqrt: real -> real)
    returns (centroids: seq<Row>)
    requires d.Valid() && d.rows != [] && !d.initialized && k > 0
    requires d.vectorsize > 0 && IsSqrt(sqrt) && ValidChoices(ch, k, d.total)
    modifies d
    ensures d.Valid() && d.next == 0 && d.initialized
    ensures |centroids| == Min(k, Min(|d.rows|, SAMPLE_SIZE)) && EvenRows(centroids, d.vectorsize)
    ensures ClustersSample(centroids, d.rows, SAMPLE_SIZE, k, ch.picks2, header, d.vectorsize, sqrt)
  {
    d.Initialize(SAMPLE_SIZE, ch.draws1, ch.picks1, header, sqrt);
    centroids := ClusterSample(d, SAMPLE_SIZE, k, ch.draws2, ch.picks2, header, sqrt);
    d.Reset();
  }

  /** One task's file from start to end: after the initialisation and the sampling the split loop
      still meets every row exactly once, and the files of the subsets are those of a split step of
      `DivideAndConquer`. Its labels keep rows of one direction together. */
  method SplitFile(d: Dataset, cfg: Config, ch: Choices, header: Header, sqrt: real -> real)
    returns (subsets: seq<Dataset>, ghost labels: seq<nat>, ghost sp: Splitter)
    requires ValidConfig(cfg) && d.Valid() && |d.rows| > cfg.target && !d.initialized
    requires d.vectorsize > 0 && IsSqrt(sqrt) && ValidChoices(ch, Wanted(cfg, |d.rows|), |d.rows|)
    modifies d
    ensures ValidSplitter(sp) && sp.dim == d.vectorsize && sp.header == header && sp.sqrt == sqrt
    ensures ClustersSample(sp.centroids, d.rows, SAMPLE_SIZE, Wanted(cfg, |d.rows|), ch.picks2, header,
                           d.vectorsize, sqrt)
    ensures Framed(d.rows, 8 + sp.dim) && labels == Labels(d.rows, NearestIn(sp))
    ensures ValidLabels(d.rows, labels, Parts(cfg, |d.rows|))
    ensures SameLabels(d.rows, labels, DirectionKey(sp.header, sp.sqrt)) && SameLabels(d.rows, labels, Itself)
    ensures |subsets| == Parts(cfg, |d.rows|) && IsPartCount(|subsets|, cfg.target, |d.rows|)
    ensures forall i :: 0 <= i < |d.rows| ==>
              IsNearestRow(labels[i], sp.centroids, Decode(d.rows[i], header), sqrt)
    ensures Finalized(subsets, d.rows, labels)
  {
    WantedAreParts(cfg, d.total);
    PartsOfSize(cfg, d.total);
    var centroids := ChooseCentroids(d, Wanted(cfg, d.total), ch, header, sqrt);
    var splitter := Splitter(centroids, header, d.vectorsize, sqrt);
    sp := splitter;
    subsets, labels := SplitBy(d, splitter);
    LabelsFollowDirection(d.rows, sp);
    forall i | 0 <= i < |d.rows| ensures IsNearestRow(labels[i], sp.centroids, Decode(d.rows[i], header), sqrt) {
      LabelIsNearest(d.rows[i], splitter);
    }
  }

  /** The subsets of the rewound file, given the centroids. */
  method SplitBy(d: Dataset, sp: Splitter) returns (subsets: seq<Dataset>, ghost labels: seq<nat>)
    requires d.Valid() && d.next == 0 && ValidSplitter(sp) && sp.dim == d.vectorsize
    modifies d
    ensures labels == Labels(d.rows, NearestIn(sp)) && ValidLabels(d.rows, labels, |sp.centroids|)
    ensures |subsets| == |sp.centroids| && Finalized(subsets, d.rows, labels)
  {
    var writers := NewWriters(|sp.centroids|, d.vectorsize);
    SplitRows(d, writers, sp, NearestIn(sp), BATCH_SIZE_CACHE);
    labels := Labels(d.rows, NearestIn(sp));
    subsets := FinalizeAll(writers, d.rows, labels);
  }

  method NewWriters(parts: nat, vectorsize: nat) returns (writers: seq<CreateDataset>)
    ensures |writers| == parts && Distinct(writers) && fresh(writers)
    ensures forall w :: w in writers ==> w.Valid() && w.rows == [] && w.vectorsize == vectorsize
  {
    writers := [];
    for p := 0 to parts
      invariant |writers| == p && Distinct(writers) && fresh(writers)
      invariant forall w :: w in writers ==> w.Valid() && w.rows == [] && w.vectorsize == vectorsize
    {
      var w := new CreateDataset(vectorsize);
      writers := writers + [w];
    }
  }

  lemma {:induction false} SubsetFramed(rows: seq<Stored>, labels: seq<nat>, part: nat, width: nat)
    requires |rows| == |labels| && Framed(rows, width)
    ensures Framed(Subset(rows, labels, part), width)
  {
    if rows == [] {
    } else {
      var n := |rows| - 1;
      SubsetFramed(rows[..n], labels[..n], part, width);
    }
  }

  method FinalizeOne(writer: CreateDataset, ghost rows: seq<Stored>, ghost labels: seq<nat>, ghost p: nat)
    returns (d: Dataset)
    requires writer.Valid() && |rows| == |labels| && writer.rows == Subset(rows, labels, p)
    requires Framed(rows, 8 + writer.vectorsize)
    ensures Reads(d, rows, labels, p)
  {
    SubsetFramed(rows, labels, p, 8 + writer.vectorsize);
    d := writer.Finalize();
  }

  /** Dataset `p` reads the rows of centroid `p`. */
  ghost predicate Finalized(subsets: seq<Dataset>, rows: seq<Stored>, labels: seq<nat>)
    requires |rows| == |labels|
    reads subsets
  {
    forall p :: 0 <= p < |subsets| ==> Reads(subsets[p], rows, labels, p)
  }

  ghost predicate Reads(d: Dataset, rows: seq<Stored>, labels: seq<nat>, p: nat)
    requires |rows| == |labels|
    reads d
  {
    d.Valid() && d.rows == Subset(rows, labels, p)
  }

  /** Writer `p` holds those rows. */
  ghost predicate Holding(writers: seq<CreateDataset>, rows: seq<Stored>, labels: seq<nat>)
    requires |rows| == |labels|
    reads writers
  {
    forall p :: 0 <= p < |writers| ==>
      && writers[p].Valid() && writers[p].rows == Subset(rows, labels, p)
      && Framed(rows, 8 + writers[p].vectorsize)
  }

  lemma OneMoreDataset(subsets: seq<Dataset>, d: Dataset, rows: seq<Stored>, labels: seq<nat>)
    requires |rows| == |labels| && Finalized(subsets, rows, labels)
    requires Reads(d, rows, labels, |subsets|)
    ensures Finalized(subsets + [d], rows, labels)
  {
    var all := subsets + [d];
    forall p | 0 <= p < |all| ensures Reads(all[p], rows, labels, p) {
      assert p < |subsets| ==> all[p] == subsets[p] && Reads(subsets[p], rows, labels, p);
    }
  }

  method FinalizeAll(writers: seq<CreateDataset>, ghost rows: seq<Stored>, ghost labels: seq<nat>)
    returns (subsets: seq<Dataset>)
    requires |rows| == |labels| && Holding(writers, rows, labels)
    ensures |subsets| == |writers| && Finalized(subsets, rows, labels)
  {
    subsets := [];
    for p := 0 to |writers|
      invariant |subsets| == p && Finalized(subsets, rows, labels) && Holding(writers, rows, labels)
    {
      var d := FinalizeOne(writers[p], rows, labels, p);
      OneMoreDataset(subsets, d, rows, labels);
      subsets := subsets + [d];
    }
  }
}
