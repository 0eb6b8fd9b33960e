/** The clustering: two refinement stages over shared accumulators. */
module KMeans {
  import opened Constants
  import opened Sequences
  import opened Rows
  import opened Quantization
  import opened Cosine
  import opened Compute

  // ----- members of a cluster

  function Zeros(dim: nat): Vector { seq(dim, j => 0.0) }

  /** How many points carry the label. */
  function CountOf(labels: seq<nat>, c: nat): nat {
    CountIf(labels, Equals(c))
  }

  /** The sum of exactly the points that carry the label. */
  function SumOf(points: seq<Vector>, labels: seq<nat>, c: nat, dim: nat): (s: Vector)
    requires |points| == |labels| && SameWidth(points, dim)
    ensures |s| == dim
  {
    if points == [] then Zeros(dim)
    else
      var n := |points| - 1;
      var before := SumOf(points[..n], labels[..n], c, dim);
      if labels[n] == c then Add(before, points[n]) else before
  }

  /** Every point is counted once. */
  function Total(labels: seq<nat>, k: nat): nat {
    if k == 0 then 0 else Total(labels, k - 1) + CountOf(labels, k - 1)
  }

  lemma {:induction false} TotalSnoc(labels: seq<nat>, l: nat, k: nat)
    ensures Total(labels + [l], k) == Total(labels, k) + (if l < k then 1 else 0)
  {
    if k == 0 {
    } else {
      TotalSnoc(labels, l, k - 1);
      assert (labels + [l])[..|labels|] == labels;
    }
  }

  lemma {:induction false} CountsSumToAll(labels: seq<nat>, k: nat)
    requires forall i :: 0 <= i < |labels| ==> labels[i] < k
    ensures Total(labels, k) == |labels|
  {
    if labels == [] {
      NoneCounted(k);
    } else {
      var n := |labels| - 1;
      CountsSumToAll(labels[..n], k);
      TotalSnoc(labels[..n], labels[n], k);
      assert labels == labels[..n] + [labels[n]];
    }
  }

  lemma {:induction false} NoneCounted(k: nat)
    ensures Total([], k) == 0
  {
    if k == 0 {
    } else {
      NoneCounted(k - 1);
    }
  }

  // ----- one iteration

  /** The mean of a cluster; an empty cluster keeps the mean it had. */
  function MeanOf(points: seq<Vector>, labels: seq<nat>, c: nat, dim: nat, previous: Vector): Vector
    requires |points| == |labels| && SameWidth(points, dim)
  {
    var n := CountOf(labels, c);
    if n == 0 then previous
    else
      var sum := SumOf(points, labels, c, dim);
      seq(dim, j requires 0 <= j < dim => sum[j] / n as real)
  }

  function Means(points: seq<Vector>, labels: seq<nat>, dim: nat, means: seq<Vector>): (r: seq<Vector>)
    requires |points| == |labels| && SameWidth(points, dim)
    ensures |r| == |means|
  {
    seq(|means|, c requires 0 <= c < |means| => MeanOf(points, labels, c, dim, means[c]))
  }

  function QuantizeAll(m: seq<Vector>): (rows: seq<Row>)
    ensures |rows| == |m|
  {
    seq(|m|, i requires 0 <= i < |m| => QuantizeVector(m[i]))
  }

  // ----- what a mean is

  /** Component `j` of every point. */
  function Column(points: seq<Vector>, j: nat): (r: seq<real>)
    requires forall i :: 0 <= i < |points| ==> j < |points[i]|
    ensures |r| == |points|
  {
    seq(|points|, i requires 0 <= i < |points| => points[i][j])
  }

  /** The accumulators of a cluster are the number of its members and, in each component, the plain
      sum over its members. */
  lemma {:induction false} SumOfMembers(points: seq<Vector>, labels: seq<nat>, c: nat, dim: nat, j: nat)
    requires |points| == |labels| && SameWidth(points, dim) && j < dim
    ensures SameWidth(Subset(points, labels, c), dim) && CountOf(labels, c) == |Subset(points, labels, c)|
    ensures SumOf(points, labels, c, dim)[j] == RealSum(Column(Subset(points, labels, c), j))
  {
    if points == [] {
    } else {
      var n := |points| - 1;
      SumOfMembers(points[..n], labels[..n], c, dim, j);
      var before := Subset(points[..n], labels[..n], c);
      if labels[n] == c {
        ColumnSnoc(before, points[n], j);
      } else {
        assert before + [] == before;
      }
    }
  }

  lemma ColumnSnoc(points: seq<Vector>, last: Vector, j: nat)
    requires (forall i :: 0 <= i < |points| ==> j < |points[i]|) && j < |last|
    ensures RealSum(Column(points + [last], j)) == RealSum(Column(points, j)) + last[j]
  {
    assert Column(points + [last], j)[..|points|] == Column(points, j);
  }

  /** `mean` is the average of the members: in each component, their sum divided by their number. */
  ghost predicate IsAverage(mean: Vector, members: seq<Vector>, dim: nat) {
    && members != [] && |mean| == dim && SameWidth(members, dim)
    && forall j :: 0 <= j < dim ==> AveragesAt(mean, members, j)
  }

  ghost predicate AveragesAt(mean: Vector, members: seq<Vector>, j: nat)
    requires members != [] && j < |mean| && forall i :: 0 <= i < |members| ==> j < |members[i]|
  {
    mean[j] == RealSum(Column(members, j)) / |members| as real
  }

  lemma MeanIsOfMembers(points: seq<Vector>, labels: seq<nat>, c: nat, dim: nat, previous: Vector)
    requires |points| == |labels| && SameWidth(points, dim) && c in labels
    ensures IsAverage(MeanOf(points, labels, c, dim, previous), Subset(points, labels, c), dim)
  {
    MemberCounts(labels, c);
    SubsetSize(points, labels, c);
    SubsetWidth(points, labels, c, dim);
    forall j | 0 <= j < dim
      ensures AveragesAt(MeanOf(points, labels, c, dim, previous), Subset(points, labels, c), j)
    {
      MeanAt(points, labels, c, dim, previous, j);
    }
  }

  lemma MeanAt(points: seq<Vector>, labels: seq<nat>, c: nat, dim: nat, previous: Vector, j: nat)
    requires |points| == |labels| && SameWidth(points, dim) && CountOf(labels, c) > 0 && j < dim
    ensures |MeanOf(points, labels, c, dim, previous)| == dim && SameWidth(Subset(points, labels, c), dim)
    ensures Subset(points, labels, c) != []
    ensures AveragesAt(MeanOf(points, labels, c, dim, previous), Subset(points, labels, c), j)
  {
    SumOfMembers(points, labels, c, dim, j);
  }

  lemma {:induction false} SubsetSize<T>(items: seq<T>, labels: seq<nat>, c: nat)
    requires |items| == |labels|
    ensures CountOf(labels, c) == |Subset(items, labels, c)|
  {
    if items == [] {
    } else {
      SubsetSize(items[..|items| - 1], labels[..|items| - 1], c);
    }
  }

  lemma {:induction false} SubsetWidth(points: seq<Vector>, labels: seq<nat>, c: nat, dim: nat)
    requires |points| == |labels| && SameWidth(points, dim)
    ensures SameWidth(Subset(points, labels, c), dim)
  {
    if points == [] {
    } else {
      SubsetWidth(points[..|points| - 1], labels[..|points| - 1], c, dim);
    }
  }

  /** Each component of an average lies between the least and the greatest of the members; equal members
      are their own average. */
  lemma AverageIsBetween(mean: Vector, members: seq<Vector>, dim: nat, j: nat, low: real, high: real)
    requires IsAverage(mean, members, dim) && j < dim
    requires forall i :: 0 <= i < |members| ==> low <= members[i][j] <= high
    ensures low <= mean[j] <= high
  {
    assert AveragesAt(mean, members, j);
    RealSumBounds(Column(members, j), low, high, |members| as real);
    Divided(low, high, |members| as real, RealSum(Column(members, j)), mean[j]);
  }

  lemma Divided(low: real, high: real, n: real, sum: real, x: real)
    requires n > 0.0 && low * n <= sum <= high * n && x == sum / n
    ensures low <= x <= high
  {
    assert x * n == sum;
    if x < low {
      ProductSign(low - x, n, (low - x) * n);
    }
    if high < x {
      ProductSign(x - high, n, (x - high) * n);
    }
  }

  /** A stored row is the quantised average of stored rows. */
  ghost predicate IsMeanRow(row: Row, members: seq<Row>, dim: nat) {
    exists mean :: IsAverage(mean, DequantizeAll(members), dim) && row == QuantizeVector(mean)
  }

  lemma {:induction false} MemberCounts(labels: seq<nat>, c: nat)
    ensures CountOf(labels, c) > 0 <==> c in labels
  {
    if labels == [] {
    } else {
      var n := |labels| - 1;
      MemberCounts(labels[..n], c);
      assert labels == labels[..n] + [labels[n]];
    }
  }

  /** The state between two iterations. */
  datatype Stage = Stage(centroids: seq<Row>, means: seq<Vector>)

  predicate ValidStage(st: Stage, dim: nat) {
    && |st.centroids| == |st.means| > 0
    && EvenRows(st.centroids, dim)
    && SameWidth(st.means, dim)
  }

  function LabelsOf(points: seq<Vector>, st: Stage, dim: nat, sqrt: real -> real): (labels: seq<nat>)
    requires ValidStage(st, dim) && SameWidth(points, dim)
    ensures |labels| == |points| && forall i :: 0 <= i < |labels| ==> labels[i] < |st.centroids|
  {
    NearestAll(DequantizeAll(st.centroids), points, dim, sqrt)
  }

  /** Assign every point to its nearest centroid and replace the centroids by the quantised means. */
  function Iterate(points: seq<Vector>, st: Stage, dim: nat, sqrt: real -> real): (st': Stage)
    requires ValidStage(st, dim) && SameWidth(points, dim)
    ensures ValidStage(st', dim) && |st'.centroids| == |st.centroids|
  {
    var means := Means(points, LabelsOf(points, st, dim, sqrt), dim, st.means);
    Stage(QuantizeAll(means), means)
  }

  /** The convergence test compares the codes and not the headers. */
  predicate SameCodes(a: seq<Row>, b: seq<Row>)
    requires |a| == |b|
  {
    forall i :: 0 <= i < |a| ==> a[i].codes == b[i].codes
  }

  function Refined(points: seq<Vector>, st: Stage, dim: nat, sqrt: real -> real, limit: nat): (st': Stage)
    requires ValidStage(st, dim) && SameWidth(points, dim)
    ensures ValidStage(st', dim) && |st'.centroids| == |st.centroids|
    decreases limit
  {
    if limit == 0 then st
    else
      var next := Iterate(points, st, dim, sqrt);
      if SameCodes(next.centroids, st.centroids) then next
      else Refined(points, next, dim, sqrt, limit - 1)
  }

  lemma {:induction false} LastIteration(points: seq<Vector>, st: Stage, dim: nat, sqrt: real -> real, limit: nat)
    returns (before: Stage, iterations: nat)
    requires ValidStage(st, dim) && SameWidth(points, dim) && limit > 0
    ensures ValidStage(before, dim) && |before.centroids| == |st.centroids|
    ensures Refined(points, st, dim, sqrt, limit) == Iterate(points, before, dim, sqrt)
    ensures 1 <= iterations <= limit
    ensures iterations == limit || SameCodes(Iterate(points, before, dim, sqrt).centroids, before.centroids)
    decreases limit
  {
    var next := Iterate(points, st, dim, sqrt);
    if SameCodes(next.centroids, st.centroids) || limit == 1 {
      before, iterations := st, 1;
    } else {
      before, iterations := LastIteration(points, next, dim, sqrt, limit - 1);
      iterations := iterations + 1;
    }
  }

  lemma CentroidIsMean(points: seq<Vector>, st: Stage, dim: nat, sqrt: real -> real, c: nat)
    requires ValidStage(st, dim) && SameWidth(points, dim) && c < |st.centroids|
    ensures Iterate(points, st, dim, sqrt).centroids[c]
         == QuantizeVector(MeanOf(points, LabelsOf(points, st, dim, sqrt), c, dim, st.means[c]))
  {
  }

  /** Where a stage ends: after some iteration whose centroid of each non-empty cluster is the
      quantised mean of that cluster, and either that iteration changed no code or the limit of
      iterations was reached. */
  lemma RefinedIsAnIteration(points: seq<Vector>, st: Stage, dim: nat, sqrt: real -> real, limit: nat)
    returns (before: Stage, iterations: nat)
    requires ValidStage(st, dim) && SameWidth(points, dim) && limit > 0
    ensures ValidStage(before, dim) && |before.centroids| == |st.centroids|
    ensures 1 <= iterations <= limit
    ensures iterations == limit
            || forall c :: 0 <= c < |st.centroids| ==>
                 Refined(points, st, dim, sqrt, limit).centroids[c].codes == before.centroids[c].codes
    ensures forall c :: 0 <= c < |st.centroids| && c in LabelsOf(points, before, dim, sqrt) ==>
              Refined(points, st, dim, sqrt, limit).centroids[c]
              == QuantizeVector(MeanOf(points, LabelsOf(points, before, dim, sqrt), c, dim, before.means[c]))
  {
    before, iterations := LastIteration(points, st, dim, sqrt, limit);
    forall c | 0 <= c < |st.centroids|
      ensures Refined(points, st, dim, sqrt, limit).centroids[c]
           == QuantizeVector(MeanOf(points, LabelsOf(points, before, dim, sqrt), c, dim, before.means[c]))
    {
      CentroidIsMean(points, before, dim, sqrt, c);
    }
  }

  /** One iteration seen from outside: every row is labelled with the nearest centroid before, and each
      centroid with rows becomes the quantised average of exactly its rows. */
  ghost predicate IsRefinement(centroids: seq<Row>, before: seq<Row>, labels: seq<nat>, data: seq<Row>, dim: nat,
                               sqrt: real -> real)
  {
    && |before| == |centroids| && |labels| == |data|
    && (forall i :: 0 <= i < |data| ==> IsNearestRow(labels[i], before, data[i], sqrt))
    && forall c :: 0 <= c < |centroids| && c in labels ==> IsMeanRow(centroids[c], Subset(data, labels, c), dim)
  }

  lemma DequantizedSubset(data: seq<Row>, labels: seq<nat>, c: nat)
    requires |data| == |labels|
    ensures Subset(DequantizeAll(data), labels, c) == DequantizeAll(Subset(data, labels, c))
  {
    SubsetOfMap(data, labels, c, DequantizeVector);
    assert DequantizeAll(data) == Map(data, DequantizeVector);
    assert DequantizeAll(Subset(data, labels, c)) == Map(Subset(data, labels, c), DequantizeVector);
  }

  lemma ClusterIsMean(data: seq<Row>, st: Stage, dim: nat, sqrt: real -> real, c: nat)
    requires ValidStage(st, dim) && EvenRows(data, dim) && SameWidth(DequantizeAll(data), dim)
    requires c < |st.centroids| && c in LabelsOf(DequantizeAll(data), st, dim, sqrt)
    ensures IsMeanRow(Iterate(DequantizeAll(data), st, dim, sqrt).centroids[c],
                      Subset(data, LabelsOf(DequantizeAll(data), st, dim, sqrt), c), dim)
  {
    var points := DequantizeAll(data);
    var labels := LabelsOf(points, st, dim, sqrt);
    CentroidIsMean(points, st, dim, sqrt, c);
    MeanIsOfMembers(points, labels, c, dim, st.means[c]);
    DequantizedSubset(data, labels, c);
  }

  lemma IterationIsRefinement(data: seq<Row>, st: Stage, dim: nat, sqrt: real -> real)
    requires ValidStage(st, dim) && EvenRows(data, dim)
    ensures SameWidth(DequantizeAll(data), dim)
    ensures IsRefinement(Iterate(DequantizeAll(data), st, dim, sqrt).centroids, st.centroids,
                         LabelsOf(DequantizeAll(data), st, dim, sqrt), data, dim, sqrt)
  {
    var points := DequantizeAll(data);
    assert forall i :: 0 <= i < |data| ==> points[i] == DequantizeVector(data[i]);
    var labels := LabelsOf(points, st, dim, sqrt);
    forall i | 0 <= i < |data| ensures IsNearestRow(labels[i], st.centroids, data[i], sqrt) {
      NearestRowIff(labels[i], st.centroids, data[i], sqrt);
    }
    forall c | 0 <= c < |st.centroids| && c in labels
      ensures IsMeanRow(Iterate(points, st, dim, sqrt).centroids[c], Subset(data, labels, c), dim)
    {
      ClusterIsMean(data, st, dim, sqrt, c);
    }
  }

  // ----- the loops

  ghost predicate Cleared(counts: array<nat>, sums: array<Vector>, dim: nat)
    reads counts, sums
  {
    && counts.Length == sums.Length
    && (forall c :: 0 <= c < counts.Length ==> counts[c] == 0)
    && (forall c :: 0 <= c < sums.Length ==> sums[c] == Zeros(dim))
  }

  ghost predicate Accumulated(counts: array<nat>, sums: array<Vector>, points: seq<Vector>, labels: seq<nat>,
                              dim: nat)
    requires |points| == |labels| && SameWidth(points, dim)
    reads counts, sums
  {
    && counts.Length == sums.Length
    && (forall c :: 0 <= c < counts.Length ==> counts[c] == CountOf(labels, c))
    && (forall c :: 0 <= c < sums.Length ==> sums[c] == SumOf(points, labels, c, dim))
  }

  method AddInto(sum: Vector, vec: Vector) returns (r: Vector)
    requires |sum| == |vec|
    ensures r == Add(sum, vec)
  {
    var data := new real[|sum|](j requires 0 <= j < |sum| => sum[j]);
    for j := 0 to |vec|
      invariant forall q :: 0 <= q < |sum| ==> data[q] == if q < j then Add(sum, vec)[q] else sum[q]
    {
      data[j] := data[j] + vec[j];
    }
    r := data[..];
  }

  method Accumulate(counts: array<nat>, sums: array<Vector>, points: seq<Vector>, labels: seq<nat>, dim: nat)
    requires Cleared(counts, sums, dim)
    requires |points| == |labels| && SameWidth(points, dim)
    requires forall i :: 0 <= i < |labels| ==> labels[i] < counts.Length
    modifies counts, sums
    ensures Accumulated(counts, sums, points, labels, dim)
  {
    for i := 0 to |labels|
      invariant Accumulated(counts, sums, points[..i], labels[..i], dim)
    {
      assert points[..i + 1][..i] == points[..i] && labels[..i + 1][..i] == labels[..i];
      var c := labels[i];
      var sum := AddInto(sums[c], points[i]);
      sums[c] := sum;
      counts[c] := counts[c] + 1;
    }
    assert points[..|labels|] == points && labels[..|labels|] == labels;
  }

  method ComputeMeans(counts: array<nat>, sums: array<Vector>, means: array<Vector>,
                      ghost points: seq<Vector>, ghost labels: seq<nat>, dim: nat)
    requires |points| == |labels| && SameWidth(points, dim)
    requires Accumulated(counts, sums, points, labels, dim)
    requires means != sums && means.Length == counts.Length
    modifies means
    ensures means[..] == Means(points, labels, dim, old(means[..]))
  {
    ghost var before := means[..];
    for c := 0 to sums.Length
      invariant forall q :: 0 <= q < means.Length ==>
                  means[q] == if q < c then MeanOf(points, labels, q, dim, before[q]) else before[q]
    {
      if counts[c] > 0 {
        var sum, n := sums[c], counts[c];
        means[c] := seq(dim, j requires 0 <= j < dim => sum[j] / n as real);
      }
    }
  }

  method Clear(counts: array<nat>, sums: array<Vector>, dim: nat)
    requires counts.Length == sums.Length
    modifies counts, sums
    ensures Cleared(counts, sums, dim)
  {
    for c := 0 to counts.Length
      invariant forall q :: 0 <= q < c ==> counts[q] == 0 && sums[q] == Zeros(dim)
    {
      counts[c] := 0;
      sums[c] := Zeros(dim);
    }
  }

  lemma {:induction false} ChunkEven(chunks: seq<seq<Row>>, dim: nat, i: nat)
    requires EvenRows(Flatten(chunks), dim) && i < |chunks|
    ensures EvenRows(chunks[i], dim)
  {
    var all := Flatten(chunks);
    assert all == chunks[0] + Flatten(chunks[1..]);
    assert all[..|chunks[0]|] == chunks[0] && all[|chunks[0]|..] == Flatten(chunks[1..]);
    if i > 0 {
      forall j | 0 <= j < |Flatten(chunks[1..])| ensures |Flatten(chunks[1..])[j].codes| == dim {
        assert Flatten(chunks[1..])[j] == all[|chunks[0]| + j];
      }
      ChunkEven(chunks[1..], dim, i - 1);
    } else {
      forall j | 0 <= j < |chunks[0]| ensures |chunks[0][j].codes| == dim {
        assert chunks[0][j] == all[j];
      }
    }
  }

  lemma DequantizeAllAppend(a: seq<Row>, b: seq<Row>)
    ensures DequantizeAll(a + b) == DequantizeAll(a) + DequantizeAll(b)
  {
  }

  /** The assignment: the indexes of all chunks, one after the other, line up with the data. */
  method AssignChunks(centroids: seq<Row>, chunks: seq<seq<Row>>, dim: nat, sqrt: real -> real)
    returns (labels: seq<nat>)
    requires centroids != [] && dim > 0 && IsSqrt(sqrt)
    requires EvenRows(centroids, dim) && EvenRows(Flatten(chunks), dim)
    requires forall i :: 0 <= i < |chunks| ==> chunks[i] != []
    ensures labels == NearestAll(DequantizeAll(centroids), DequantizeAll(Flatten(chunks)), dim, sqrt)
  {
    labels := [];
    ghost var centers := DequantizeAll(centroids);
    for i := 0 to |chunks|
      invariant SameWidth(DequantizeAll(Flatten(chunks[..i])), dim)
      invariant labels == NearestAll(centers, DequantizeAll(Flatten(chunks[..i])), dim, sqrt)
    {
      ChunkEven(chunks, dim, i);
      var part := NearestRows(centroids, chunks[i], dim, sqrt);
      assert chunks[..i + 1] == chunks[..i] + [chunks[i]];
      FlattenSnoc(chunks[..i], chunks[i]);
      DequantizeAllAppend(Flatten(chunks[..i]), chunks[i]);
      NearestAllAppend(centers, DequantizeAll(Flatten(chunks[..i])), DequantizeAll(chunks[i]), dim, sqrt);
      labels := labels + part;
    }
    assert chunks[..|chunks|] == chunks;
  }

  method QuantizeMatrix(means: array<Vector>) returns (rows: seq<Row>)
    ensures rows == QuantizeAll(means[..])
  {
    rows := [];
    for i := 0 to means.Length
      invariant rows == QuantizeAll(means[..])[..i]
    {
      var row := QuantizeVectorFloat(means[i]);
      rows := rows + [row];
    }
  }

  /** One stage. Its accumulators are cleared at the head of every iteration, in both stages. */
  method RefineStage(data: seq<Row>, chunks: seq<seq<Row>>, start: seq<Row>, counts: array<nat>,
                     sums: array<Vector>, means: array<Vector>, dim: nat, sqrt: real -> real)
    returns (centroids: seq<Row>)
    requires dim > 0 && IsSqrt(sqrt) && Flatten(chunks) == data && EvenRows(data, dim)
    requires forall i :: 0 <= i < |chunks| ==> chunks[i] != []
    requires means != sums && counts.Length == sums.Length == means.Length == |start|
    requires ValidStage(Stage(start, means[..]), dim) && Cleared(counts, sums, dim)
    modifies counts, sums, means
    ensures Cleared(counts, sums, dim)
    ensures SameWidth(DequantizeAll(data), dim)
    ensures Stage(centroids, means[..])
         == Refined(DequantizeAll(data), Stage(start, old(means[..])), dim, sqrt, KMEANS_ITERATION_LIMIT)
  {
    ghost var points := DequantizeAll(data);
    ghost var goal := Refined(points, Stage(start, means[..]), dim, sqrt, KMEANS_ITERATION_LIMIT);
    var converged := false;
    var n := 0;
    centroids := start;
    while n < KMEANS_ITERATION_LIMIT && !converged
      invariant 0 <= n <= KMEANS_ITERATION_LIMIT
      invariant Cleared(counts, sums, dim)
      invariant |centroids| == |start| && ValidStage(Stage(centroids, means[..]), dim)
      invariant goal == if converged then Stage(centroids, means[..])
                        else Refined(points, Stage(centroids, means[..]), dim, sqrt, KMEANS_ITERATION_LIMIT - n)
      decreases KMEANS_ITERATION_LIMIT - n
    {
      ghost var st := Stage(centroids, means[..]);
      var labels := AssignChunks(centroids, chunks, dim, sqrt);
      Accumulate(counts, sums, DequantizeAll(data), labels, dim);
      ComputeMeans(counts, sums, means, points, labels, dim);
      var newCentroids := QuantizeMatrix(means);
      assert Stage(newCentroids, means[..]) == Iterate(points, st, dim, sqrt);
      converged := SameCodes(newCentroids, centroids);
      centroids := newCentroids;
      Clear(counts, sums, dim);
      n := n + 1;
    }
  }

  // ----- the whole clustering

  /** Five centroids for each one wanted, as far as there are vectors. */
  function SupersetSize(n: nat, k: nat): (s: nat)
    ensures s <= n && (s < n ==> s == 5 * k) && s <= 5 * k
  {
    Min(n, k * SUPERSET_MUL)
  }

  /** The random different indexes of the first centroids. */
  ghost predicate ValidPicks(picks: seq<nat>, n: nat, k: nat) {
    |picks| == SupersetSize(n, k) && Distinct(picks) && forall i :: 0 <= i < |picks| ==> picks[i] < n
  }

  /** They are needed only if there are more vectors than clusters. */
  ghost predicate EnoughPicks(picks: seq<nat>, n: nat, k: nat) { k < n ==> ValidPicks(picks, n, k) }

  function Picked(data: seq<Row>, picks: seq<nat>): seq<Row>
    requires forall i :: 0 <= i < |picks| ==> picks[i] < |data|
  {
    Permuted(data, picks)
  }

  function ZeroMeans(k: nat, dim: nat): seq<Vector> { seq(k, i => Zeros(dim)) }

  /** The first stage: the superset, refined. */
  function FirstStage(data: seq<Row>, picks: seq<nat>, dim: nat, sqrt: real -> real): (st: Stage)
    requires picks != [] && EvenRows(data, dim)
    requires forall i :: 0 <= i < |picks| ==> picks[i] < |data|
    ensures ValidStage(st, dim) && |st.centroids| == |picks|
  {
    Refined(DequantizeAll(data), Stage(Picked(data, picks), ZeroMeans(|picks|, dim)), dim, sqrt, KMEANS_ITERATION_LIMIT)
  }

  /** The second stage refines some `k` of the centroids of the first. Which ones is open: the
      sizes they are sorted by were cleared at the end of the first stage, so every order is a
      sorted one. The means of the first stage are reused in their old order. */
  ghost predicate IsClustering(centroids: seq<Row>, data: seq<Row>, k: nat, picks: seq<nat>, dim: nat,
                               sqrt: real -> real)
    requires EvenRows(data, dim) && 0 < k <= |picks|
    requires forall i :: 0 <= i < |picks| ==> picks[i] < |data|
  {
    exists chosen :: IsChoice(chosen, FirstStage(data, picks, dim, sqrt), k, dim) &&
      centroids == SecondStage(data, chosen, FirstStage(data, picks, dim, sqrt), k, dim, sqrt).centroids
  }

  /** What the clustering of `data` to `k` vectors returns. */
  ghost predicate IsKMeans(centroids: seq<Row>, data: seq<Row>, k: nat, picks: seq<nat>, dim: nat,
                           sqrt: real -> real)
    requires EvenRows(data, dim) && k > 0
  {
    && |centroids| == Min(k, |data|) && EvenRows(centroids, dim)
    && (|data| <= k ==> centroids == data)
    && (k < |data| ==> ValidPicks(picks, |data|, k) && IsClustering(centroids, data, k, picks, dim, sqrt))
  }

  ghost predicate IsChoice(chosen: seq<Row>, first: Stage, k: nat, dim: nat) {
    |chosen| == k && EvenRows(chosen, dim) && multiset(chosen) <= multiset(first.centroids)
  }

  function SecondStage(data: seq<Row>, chosen: seq<Row>, first: Stage, k: nat, dim: nat, sqrt: real -> real)
    : (st: Stage)
    requires EvenRows(data, dim) && EvenRows(chosen, dim) && |chosen| == k > 0
    requires ValidStage(first, dim) && k <= |first.means|
    ensures ValidStage(st, dim) && |st.centroids| == k
  {
    Refined(DequantizeAll(data), Stage(chosen, first.means[..k]), dim, sqrt, KMEANS_ITERATION_LIMIT)
  }

  datatype Sized = Sized(vector: Row, count: nat)

  function SizeOf(r: Sized): real { r.count as real }

  function VectorIn(r: Sized): Row { r.vector }

  function Unsized(vector: Row): Sized { Sized(vector, 0) }

  function WithCounts(centroids: seq<Row>, counts: seq<nat>): (s: seq<Sized>)
    requires |centroids| == |counts|
    ensures |s| == |centroids|
  {
    seq(|centroids|, i requires 0 <= i < |centroids| => Sized(centroids[i], counts[i]))
  }

  /** `kept` are the first `k` centroids in some order of descending size. */
  ghost predicate AreLargest(kept: seq<Row>, centroids: seq<Row>, counts: seq<nat>, k: nat)
    requires |centroids| == |counts|
  {
    exists results :: IsBySize(results, WithCounts(centroids, counts))
                      && k <= |results| && kept == Map(results[..k], VectorIn)
  }

  ghost predicate IsBySize(results: seq<Sized>, sizes: seq<Sized>) {
    multiset(results) == multiset(sizes) && Descending(results, SizeOf)
  }

  /** Steps 4 and 5: order by size, keep the first k. */
  method KeepLargest(centroids: seq<Row>, counts: array<nat>, k: nat) returns (kept: seq<Row>)
    requires |centroids| == counts.Length >= k
    ensures AreLargest(kept, centroids, counts[..], k)
  {
    var before := WithCounts(centroids, counts[..]);
    var results := SortFunc(before, SizeOf);
    PermutationMembers(before, results);
    kept := Map(results[..k], VectorIn);
  }

  /** The largest ones are a choice of `k`; when all sizes are zero, any choice is. */
  lemma LargestOfCleared(kept: seq<Row>, centroids: seq<Row>, counts: seq<nat>, k: nat)
    requires |centroids| == |counts| >= k && forall i :: 0 <= i < |counts| ==> counts[i] == 0
    ensures AreLargest(kept, centroids, counts, k) <==> |kept| == k && multiset(kept) <= multiset(centroids)
  {
    if AreLargest(kept, centroids, counts, k) {
      LargestAreChosen(kept, centroids, counts, k);
    }
    if |kept| == k && multiset(kept) <= multiset(centroids) {
      ChosenAreLargest(kept, centroids, counts);
    }
  }

  lemma ChosenAreLargest(kept: seq<Row>, centroids: seq<Row>, counts: seq<nat>)
    requires |centroids| == |counts| && forall i :: 0 <= i < |counts| ==> counts[i] == 0
    requires multiset(kept) <= multiset(centroids)
    ensures AreLargest(kept, centroids, counts, |kept|)
  {
    var rest := RestOf(centroids, kept);
    var results := Map(kept + rest, Unsized);
    MapPermutation(kept + rest, centroids, Unsized);
    assert Map(centroids, Unsized) == WithCounts(centroids, counts);
    forall i | 0 <= i < |results| ensures SizeOf(results[i]) == 0.0 {
      assert results[i] == Unsized((kept + rest)[i]);
    }
    assert IsBySize(results, WithCounts(centroids, counts));
    assert kept == Map(results[..|kept|], VectorIn);
  }

  lemma LargestAreChosen(kept: seq<Row>, centroids: seq<Row>, counts: seq<nat>, k: nat)
    requires |centroids| == |counts| && AreLargest(kept, centroids, counts, k)
    ensures |kept| == k && multiset(kept) <= multiset(centroids)
  {
    var sizes := WithCounts(centroids, counts);
    var results :| IsBySize(results, sizes) && k <= |results| && kept == Map(results[..k], VectorIn);
    MapPermutation(results, sizes, VectorIn);
    assert Map(sizes, VectorIn) == centroids;
    PrefixIsPart(Map(results, VectorIn), k);
    assert Map(results, VectorIn)[..k] == kept;
  }

  lemma EvenPart(kept: seq<Row>, all: seq<Row>, dim: nat)
    requires EvenRows(all, dim) && multiset(kept) <= multiset(all)
    ensures EvenRows(kept, dim)
  {
    forall i | 0 <= i < |kept| ensures |kept[i].codes| == dim {
      assert kept[i] in multiset(kept);
      assert kept[i] in all;
    }
  }

  method KMeans(data: seq<Row>, k: int, picks: seq<nat>, dim: nat, sqrt: real -> real)
    returns (centroids: seq<Row>)
    requires dim > 0 && IsSqrt(sqrt) && EvenRows(data, dim)
    requires k > 0 ==> EnoughPicks(picks, |data|, k)
    ensures |centroids| == Max(0, Min(k, |data|))
    ensures k > 0 ==> IsKMeans(centroids, data, k, picks, dim, sqrt)
    ensures 0 < k < |data| ==> exists before, labels :: IsRefinement(centroids, before, labels, data, dim, sqrt)
  {
    if k <= 0 {
      return [];
    }
    if |data| == 0 || |data| <= k {
      return data;
    }
    var chunks := InBatches(data, BATCH_SIZE_CACHE);
    var counts, means;
    centroids, counts, means := Superset(data, chunks, k, picks, dim, sqrt);
    var chosen := KeepLargest(centroids, counts, k);
    LargestOfCleared(chosen, centroids, counts[..], k);
    EvenPart(chosen, centroids, dim);
    centroids := Set(data, chunks, chosen, k, means, dim, sqrt,
                     FirstStage(data, picks, dim, sqrt));
    ClusteringIsRefinement(centroids, data, k, picks, dim, sqrt);
  }

  /** A clustering ends with an iteration. */
  lemma ClusteringIsRefinement(centroids: seq<Row>, data: seq<Row>, k: nat, picks: seq<nat>, dim: nat,
                               sqrt: real -> real)
    requires EvenRows(data, dim) && 0 < k < |data| && ValidPicks(picks, |data|, k)
    requires IsClustering(centroids, data, k, picks, dim, sqrt)
    ensures exists before, labels :: IsRefinement(centroids, before, labels, data, dim, sqrt)
  {
    var first := FirstStage(data, picks, dim, sqrt);
    var chosen :| IsChoice(chosen, first, k, dim)
                  && centroids == SecondStage(data, chosen, first, k, dim, sqrt).centroids;
    assert SameWidth(DequantizeAll(data), dim);
    var before, _ := LastIteration(DequantizeAll(data), Stage(chosen, first.means[..k]), dim, sqrt,
                                   KMEANS_ITERATION_LIMIT);
    IterationIsRefinement(data, before, dim, sqrt);
  }

  /** Steps 2 and 3: the superset, refined. */
  method Superset(data: seq<Row>, chunks: seq<seq<Row>>, k: nat, picks: seq<nat>, dim: nat, sqrt: real -> real)
    returns (centroids: seq<Row>, counts: array<nat>, means: array<Vector>)
    requires dim > 0 && IsSqrt(sqrt) && Flatten(chunks) == data && EvenRows(data, dim)
    requires forall i :: 0 <= i < |chunks| ==> chunks[i] != []
    requires 0 < k < |data| && ValidPicks(picks, |data|, k)
    ensures Stage(centroids, means[..]) == FirstStage(data, picks, dim, sqrt)
    ensures counts.Length == |picks| && forall c :: 0 <= c < counts.Length ==> counts[c] == 0
    ensures fresh(counts) && fresh(means)
  {
    var kS := SupersetSize(|data|, k);
    centroids := [];
    while |centroids| < kS
      invariant |centroids| <= kS && centroids == Picked(data, picks)[..|centroids|]
    {
      centroids := centroids + [data[picks[|centroids|]]];
    }
    counts := new nat[kS](i => 0);
    var sums := new Vector[kS](i => Zeros(dim));
    means := new Vector[kS](i => Zeros(dim));
    assert means[..] == ZeroMeans(kS, dim) && centroids == Picked(data, picks);
    centroids := RefineStage(data, chunks, centroids, counts, sums, means, dim, sqrt);
  }

  /** Step 6: the set, refined. */
  method Set(data: seq<Row>, chunks: seq<seq<Row>>, chosen: seq<Row>, k: nat, means: array<Vector>,
             dim: nat, sqrt: real -> real, ghost first: Stage)
    returns (centroids: seq<Row>)
    requires dim > 0 && IsSqrt(sqrt) && Flatten(chunks) == data && EvenRows(data, dim)
    requires forall i :: 0 <= i < |chunks| ==> chunks[i] != []
    requires 0 < k == |chosen| <= means.Length && EvenRows(chosen, dim)
    requires ValidStage(first, dim) && first.means == means[..]
    ensures centroids == SecondStage(data, chosen, first, k, dim, sqrt).centroids
  {
    var counts, sums := new nat[k](i => 0), new Vector[k](i => Zeros(dim));
    var kept := means[..k];
    var means2 := new Vector[k](i requires 0 <= i < k => kept[i]);
    assert means2[..] == first.means[..k];
    centroids := RefineStage(data, chunks, chosen, counts, sums, means2, dim, sqrt);
  }
}
