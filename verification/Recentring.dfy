/** Recentring a centroid by the mean of its embeddings, and what a whole rebuild amounts to. */
module Recentring {
  import opened Sequences
  import opened Rows
  import opened Quantization
  import opened Cosine
  import opened Compute
  import opened Tables
  import opened Reassignment
  import opened KMeans
  import opened Index

  function VectorSum(members: seq<Embedding>, dim: nat): (sum: Vector)
    requires EvenEmbeddings(members, dim)
    ensures |sum| == dim
  {
    if members == [] then Zeros(dim)
    else
      var n := |members| - 1;
      Add(VectorSum(members[..n], dim), DequantizeVector(members[n].vector))
  }

  /** The quantised mean. Without members it is a division by zero, and no vector is defined. */
  function Recentred(members: seq<Embedding>, dim: nat): Option<Row>
    requires EvenEmbeddings(members, dim)
  {
    if members == [] then None
    else
      var sum := VectorSum(members, dim);
      Some(QuantizeVector(seq(dim, j requires 0 <= j < dim => sum[j] / |members| as real)))
  }

  /** In each component it is the plain sum over the members. */
  lemma {:induction false} SumOfRows(members: seq<Embedding>, dim: nat, j: nat)
    requires EvenEmbeddings(members, dim) && j < dim
    ensures SameWidth(DequantizeAll(VectorsOf(members)), dim)
    ensures VectorSum(members, dim)[j] == RealSum(Column(DequantizeAll(VectorsOf(members)), j))
  {
    var points := DequantizeAll(VectorsOf(members));
    if members == [] {
    } else {
      var n := |members| - 1;
      SumOfRows(members[..n], dim, j);
      assert points[..n] == DequantizeAll(VectorsOf(members[..n]));
      assert points == points[..n] + [DequantizeVector(members[n].vector)];
      ColumnSnoc(points[..n], points[n], j);
    }
  }

  lemma RecentredIsMeanRow(members: seq<Embedding>, dim: nat)
    requires EvenEmbeddings(members, dim)
    ensures Recentred(members, dim).Some? <==> members != []
    ensures members != [] ==> IsMeanRow(Recentred(members, dim).value, VectorsOf(members), dim)
  {
    if members != [] {
      var points, sum, n := DequantizeAll(VectorsOf(members)), VectorSum(members, dim), |members| as real;
      var mean := seq(dim, j requires 0 <= j < dim => sum[j] / n);
      forall j | 0 <= j < dim ensures SameWidth(points, dim) && AveragesAt(mean, points, j) {
        SumOfRows(members, dim, j);
      }
      assert IsAverage(mean, points, dim);
    }
  }

  /** The members arrive batch by batch. */
  method SumBatches(members: seq<Embedding>, dim: nat, batchSize: nat) returns (dataSum: Vector, count: nat)
    requires EvenEmbeddings(members, dim) && batchSize > 0
    ensures dataSum == VectorSum(members, dim) && count == |members|
  {
    var batches := InBatches(members, batchSize);
    dataSum, count := Zeros(dim), 0;
    ghost var done: seq<Embedding> := [];
    for n := 0 to |batches|
      invariant done + Flatten(batches[n..]) == members
      invariant count == |done| && EvenEmbeddings(done, dim) && dataSum == VectorSum(done, dim)
    {
      assert batches[n..][1..] == batches[n + 1..];
      ghost var rest := Flatten(batches[n + 1..]);
      dataSum, count := SumBatch(dataSum, count, batches[n], done, rest, dim);
      done := done + batches[n];
    }
    assert batches[|batches|..] == [];
    assert done == members;
  }

  method RecenterCentroid(members: seq<Embedding>, dim: nat, batchSize: nat) returns (vector: Option<Row>)
    requires EvenEmbeddings(members, dim) && batchSize > 0
    ensures vector == Recentred(members, dim)
    ensures vector.Some? <==> members != []
    ensures vector.Some? ==> IsMeanRow(vector.value, VectorsOf(members), dim)
  {
    var dataSum, count := SumBatches(members, dim, batchSize);
    vector := if count == 0 then None
              else Some(QuantizeVector(seq(dim, j requires 0 <= j < dim => dataSum[j] / count as real)));
    RecentredIsMeanRow(members, dim);
  }

  method SumBatch(sum: Vector, n: nat, embeddings: seq<Embedding>, ghost done: seq<Embedding>,
                  ghost rest: seq<Embedding>, dim: nat)
    returns (dataSum: Vector, count: nat)
    requires EvenEmbeddings(done + (embeddings + rest), dim)
    requires EvenEmbeddings(done, dim) && sum == VectorSum(done, dim) && n == |done|
    ensures EvenEmbeddings(done + embeddings, dim)
    ensures dataSum == VectorSum(done + embeddings, dim) && count == |done + embeddings|
  {
    ghost var all := done + embeddings;
    assert forall i :: 0 <= i < |all| ==> all[i] == (done + (embeddings + rest))[i];
    dataSum, count := sum, n;
    assert all[..|done|] == done;
    for i := 0 to |embeddings|
      invariant count == |done| + i
      invariant dataSum == VectorSum(all[..count], dim)
    {
      assert all[..count + 1][..count] == all[..count];
      dataSum := AddInto(dataSum, DequantizeVector(embeddings[i].vector));
      count := count + 1;
    }
    assert all[..count] == all;
  }

  // ----- the order of the query does not matter

  lemma {:induction false} SumWithout(members: seq<Embedding>, i: nat, dim: nat)
    requires EvenEmbeddings(members, dim) && i < |members|
    ensures EvenEmbeddings(members[..i] + members[i + 1..], dim)
    ensures VectorSum(members, dim)
         == Add(VectorSum(members[..i] + members[i + 1..], dim), DequantizeVector(members[i].vector))
  {
    var n := |members| - 1;
    var without := members[..i] + members[i + 1..];
    if i == n {
      assert without == members[..n];
    } else {
      SumWithout(members[..n], i, dim);
      assert members[..n][..i] + members[..n][i + 1..] == without[..n - 1];
    }
  }

  lemma {:induction false} SumIgnoresOrder(a: seq<Embedding>, b: seq<Embedding>, dim: nat)
    requires EvenEmbeddings(a, dim) && EvenEmbeddings(b, dim) && multiset(a) == multiset(b)
    ensures VectorSum(a, dim) == VectorSum(b, dim)
    decreases |a|
  {
    if a == [] {
      assert |multiset(b)| == 0;
    } else {
      var i := PlaceOfLast(a, b);
      SumWithout(b, i, dim);
      SumIgnoresOrder(a[..|a| - 1], b[..i] + b[i + 1..], dim);
    }
  }

  // ----- members of a cluster

  lemma {:induction false} SubsetMembers(rows: seq<Embedding>, labels: seq<nat>, c: nat)
    requires |rows| == |labels|
    ensures forall e :: e in Subset(rows, labels, c) <==>
              exists i :: 0 <= i < |rows| && labels[i] == c && rows[i] == e
  {
    if rows == [] {
    } else {
      var n := |rows| - 1;
      SubsetMembers(rows[..n], labels[..n], c);
      forall e ensures e in Subset(rows, labels, c) <==>
                         exists i :: 0 <= i < |rows| && labels[i] == c && rows[i] == e
      {
        if i :| 0 <= i < |rows| && labels[i] == c && rows[i] == e {
          assert i < n ==> labels[..n][i] == c && rows[..n][i] == e;
        }
      }
    }
  }

  lemma {:induction false} SubsetDistinct(rows: seq<Embedding>, labels: seq<nat>, c: nat)
    requires |rows| == |labels| && DistinctIds(rows)
    ensures Distinct(Subset(rows, labels, c))
  {
    if rows == [] {
    } else {
      var n := |rows| - 1;
      SubsetDistinct(rows[..n], labels[..n], c);
      var before := Subset(rows[..n], labels[..n], c);
      SubsetMembers(rows[..n], labels[..n], c);
      assert rows[n] !in before;
      assert Subset(rows, labels, c) == before + (if labels[n] == c then [rows[n]] else []);
    }
  }

  /** The accumulators of a cluster are the size and the sum of its rows. */
  lemma {:induction false} SubsetAccumulates(rows: seq<Embedding>, labels: seq<nat>, c: nat, dim: nat)
    requires |rows| == |labels| && EvenEmbeddings(rows, dim)
    ensures EvenEmbeddings(Subset(rows, labels, c), dim)
    ensures CountOf(labels, c) == |Subset(rows, labels, c)|
    ensures SumOf(DequantizeAll(VectorsOf(rows)), labels, c, dim) == VectorSum(Subset(rows, labels, c), dim)
  {
    if rows == [] {
    } else {
      var n := |rows| - 1;
      SubsetAccumulates(rows[..n], labels[..n], c, dim);
      var before := Subset(rows[..n], labels[..n], c);
      assert (before + [rows[n]])[..|before|] == before;
      var points := DequantizeAll(VectorsOf(rows));
      assert points[..n] == DequantizeAll(VectorsOf(rows[..n])) && points[n] == DequantizeVector(rows[n].vector);
      if labels[n] == c {
        assert VectorSum(before + [rows[n]], dim) == Add(VectorSum(before, dim), points[n]);
      } else {
        assert Subset(rows, labels, c) == before;
      }
    }
  }

  // ----- a rebuild

  /** `SELECT … WHERE centroid_id = cid`, in any order. */
  ghost predicate IsMembers(table: map<nat, Embedding>, cid: nat, members: seq<Embedding>) {
    && DistinctIds(members)
    && forall e :: e in members <==> e.id in table && table[e.id] == e && e.centroid == cid
  }

  function Updated(rows: seq<Embedding>, newIds: seq<nat>): (r: seq<Embedding>)
    requires |rows| == |newIds|
    ensures |r| == |rows|
  {
    seq(|rows|, i requires 0 <= i < |rows| => rows[i].(centroid := newIds[i]))
  }

  /** Lists without repetition and with the same members are permutations of each other. */
  lemma SameMembers(a: seq<Embedding>, b: seq<Embedding>)
    requires Distinct(a) && Distinct(b) && forall e :: e in a <==> e in b
    ensures multiset(a) == multiset(b)
  {
    DistinctMeansOnce(a);
    DistinctMeansOnce(b);
    forall e ensures multiset(a)[e] == multiset(b)[e] {
      assert e in a <==> e in multiset(a);
      assert e in b <==> e in multiset(b);
    }
  }

  function NearestRowsOf(op: Op, sqrt: real -> real): (labels: seq<nat>)
    requires op.ReassignAll? && op.vectors != []
    requires EvenRows(op.vectors, op.dim) && EvenEmbeddings(op.rows, op.dim)
    ensures |labels| == |op.rows| && forall i :: 0 <= i < |labels| ==> labels[i] < |op.vectors|
  {
    NearestAll(DequantizeAll(op.vectors), DequantizeAll(VectorsOf(op.rows)), op.dim, sqrt)
  }

  /** Each row a centroid is nearest to is its member afterwards. */
  lemma RowIsMember(op: Op, s: Store, s': Store, sqrt: real -> real, c: nat, i: nat)
    requires op.ReassignAll? && Does(op, s, s', sqrt)
    requires c < |op.saved| && i < |op.rows| && NearestRowsOf(op, sqrt)[i] == c
    ensures NewIds(op.rows, op.vectors, IdsOfCentroids(op.saved), op.dim, sqrt)[i] == op.saved[c].id
    ensures op.rows[i].id in s'.embeddings
    ensures s'.embeddings[op.rows[i].id] == op.rows[i].(centroid := op.saved[c].id)
  {
    var newIds := NewIds(op.rows, op.vectors, IdsOfCentroids(op.saved), op.dim, sqrt);
    assert newIds[i] == IdsOfCentroids(op.saved)[NearestRowsOf(op, sqrt)[i]];
  }

  /** Whoever points to a centroid of the category afterwards was read by the pass. */
  lemma WasRead(s: Store, after: map<nat, Embedding>, category: nat, rows: seq<Embedding>, newIds: seq<nat>,
                e: Embedding)
    returns (i: nat)
    requires Placed(s) && IsCategory(s, category, rows)
    requires |rows| == |newIds| && IsReassigned(s.embeddings, after, rows, newIds)
    requires e.id in after && after[e.id] == e
    requires e.centroid in s.centroids && s.centroids[e.centroid].category == category
    ensures i < |rows| && rows[i].id == e.id
  {
    var b := s.embeddings[e.id];
    assert IsPlaced(s, e.id, b);
    assert b in rows by {
      assert (forall j :: 0 <= j < |rows| ==> rows[j].id != e.id) ==> e == b;
      assert forall j :: 0 <= j < |rows| ==> rows[j] in rows;
    }
    i :| 0 <= i < |rows| && rows[i] == b;
  }

  /** Whoever points to the centroid afterwards is a row it is nearest to. */
  lemma MemberIsRow(op: Op, s: Store, s': Store, sqrt: real -> real, c: nat, e: Embedding)
    returns (i: nat)
    requires Placed(s) && op.ReassignAll? && Does(op, s, s', sqrt)
    requires DistinctCentroidIds(op.saved) && c < |op.saved|
    requires e.id in s'.embeddings && s'.embeddings[e.id] == e && e.centroid == op.saved[c].id
    ensures i < |op.rows| && NearestRowsOf(op, sqrt)[i] == c
    ensures e == op.rows[i].(centroid := NewIds(op.rows, op.vectors, IdsOfCentroids(op.saved), op.dim, sqrt)[i])
  {
    var newIds := NewIds(op.rows, op.vectors, IdsOfCentroids(op.saved), op.dim, sqrt);
    i := WasRead(s, s'.embeddings, op.category, op.rows, newIds, e);
    RowIsMember(op, s, s', sqrt, NearestRowsOf(op, sqrt)[i], i);
  }

  /** After a reassignment the members of a centroid are the rows it is nearest to. */
  lemma MembersAreNearest(op: Op, s: Store, s': Store, sqrt: real -> real, c: nat, members: seq<Embedding>,
                          rows: seq<Embedding>)
    requires Placed(s) && op.ReassignAll? && Does(op, s, s', sqrt)
    requires DistinctIds(op.rows) && DistinctCentroidIds(op.saved) && c < |op.vectors|
    requires IsMembers(s'.embeddings, op.saved[c].id, members)
    requires rows == Updated(op.rows, NewIds(op.rows, op.vectors, IdsOfCentroids(op.saved), op.dim, sqrt))
    ensures multiset(members) == multiset(Subset(rows, NearestRowsOf(op, sqrt), c))
  {
    var labels := NearestRowsOf(op, sqrt);
    SubsetMembers(rows, labels, c);
    SubsetDistinct(rows, labels, c);
    forall e | e in members ensures e in Subset(rows, labels, c) {
      var i := MemberIsRow(op, s, s', sqrt, c, e);
      assert rows[i] == e;
    }
    forall e | e in Subset(rows, labels, c) ensures e in members {
      var i :| 0 <= i < |rows| && labels[i] == c && rows[i] == e;
      RowIsMember(op, s, s', sqrt, c, i);
    }
    SameMembers(members, Subset(rows, labels, c));
  }

  lemma UpdatedKeepsVectors(rows: seq<Embedding>, newIds: seq<nat>)
    requires |rows| == |newIds|
    ensures VectorsOf(Updated(rows, newIds)) == VectorsOf(rows)
  {
  }

  /** A rebuild is one more iteration of the clustering over the whole category: reassigning and then
      recentring gives each new centroid what an iteration started from the new centroids gives it.
      The one difference is a centroid nearest to no row, for which the mean is undefined. */
  lemma RebuildIsIteration(op: Op, s: Store, s': Store, sqrt: real -> real, c: nat, members: seq<Embedding>,
                           st: Stage)
    requires Placed(s) && op.ReassignAll? && Does(op, s, s', sqrt)
    requires DistinctIds(op.rows) && DistinctCentroidIds(op.saved) && c < |op.vectors|
    requires IsMembers(s'.embeddings, op.saved[c].id, members)
    requires ValidStage(st, op.dim) && st.centroids == op.vectors
    ensures EvenEmbeddings(members, op.dim)
    ensures var points := DequantizeAll(VectorsOf(op.rows));
      Recentred(members, op.dim)
      == if c in LabelsOf(points, st, op.dim, sqrt) then Some(Iterate(points, st, op.dim, sqrt).centroids[c])
         else None
  {
    RecentredCluster(op, s, s', sqrt, c, members, st.means[c]);
    MeanOrNone(DequantizeAll(VectorsOf(op.rows)), st, op.dim, sqrt, c);
  }

  lemma RecentredCluster(op: Op, s: Store, s': Store, sqrt: real -> real, c: nat, members: seq<Embedding>,
                         previous: Vector)
    requires Placed(s) && op.ReassignAll? && Does(op, s, s', sqrt)
    requires DistinctIds(op.rows) && DistinctCentroidIds(op.saved) && c < |op.vectors|
    requires IsMembers(s'.embeddings, op.saved[c].id, members)
    ensures EvenEmbeddings(members, op.dim)
    ensures var points, labels := DequantizeAll(VectorsOf(op.rows)), NearestRowsOf(op, sqrt);
      Recentred(members, op.dim)
      == if CountOf(labels, c) == 0 then None
         else Some(QuantizeVector(MeanOf(points, labels, c, op.dim, previous)))
  {
    var newIds := NewIds(op.rows, op.vectors, IdsOfCentroids(op.saved), op.dim, sqrt);
    MembersAreNearest(op, s, s', sqrt, c, members, Updated(op.rows, newIds));
    UpdatedKeepsVectors(op.rows, newIds);
    RecentredIsMean(Updated(op.rows, newIds), NearestRowsOf(op, sqrt), c, op.dim, members, previous);
  }

  lemma MeanOrNone(points: seq<Vector>, st: Stage, dim: nat, sqrt: real -> real, c: nat)
    requires ValidStage(st, dim) && SameWidth(points, dim) && c < |st.centroids|
    ensures var labels := LabelsOf(points, st, dim, sqrt);
      (if CountOf(labels, c) == 0 then None
       else Some(QuantizeVector(MeanOf(points, labels, c, dim, st.means[c]))))
      == if c in labels then Some(Iterate(points, st, dim, sqrt).centroids[c]) else None
  {
    MemberCounts(LabelsOf(points, st, dim, sqrt), c);
    CentroidIsMean(points, st, dim, sqrt, c);
  }

  /** Whatever the order of the members, they are recentred to the quantised mean of their cluster. */
  lemma RecentredIsMean(rows: seq<Embedding>, labels: seq<nat>, c: nat, dim: nat, members: seq<Embedding>,
                        previous: Vector)
    requires |rows| == |labels| && EvenEmbeddings(rows, dim)
    requires multiset(members) == multiset(Subset(rows, labels, c))
    ensures EvenEmbeddings(members, dim)
    ensures Recentred(members, dim)
         == if CountOf(labels, c) == 0 then None
            else Some(QuantizeVector(MeanOf(DequantizeAll(VectorsOf(rows)), labels, c, dim, previous)))
  {
    var mine := Subset(rows, labels, c);
    SubsetAccumulates(rows, labels, c, dim);
    PermutationMembers(mine, members);
    forall i | 0 <= i < |members| ensures |members[i].vector.codes| == dim {
      assert members[i] in mine;
    }
    SumIgnoresOrder(members, mine, dim);
  }

  /** A stored centroid beyond the new ones keeps no member, so recentring it is always undefined. */
  lemma LeftOverIsEmpty(op: Op, s: Store, s': Store, sqrt: real -> real, c: nat, members: seq<Embedding>)
    requires Placed(s) && op.ReassignAll? && Does(op, s, s', sqrt)
    requires DistinctCentroidIds(op.saved) && |op.vectors| <= c < |op.saved|
    requires IsMembers(s'.embeddings, op.saved[c].id, members)
    ensures members == []
  {
    if members != [] {
      var _ := MemberIsRow(op, s, s', sqrt, c, members[0]);
    }
  }
}
