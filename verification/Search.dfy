/** The search: choice of centroids, batched ranking, pages; and what probing them means for the
    answer. */
module Search {
  import opened Constants
  import opened Sequences
  import opened Rows
  import opened Quantization
  import opened Cosine
  import opened Compute
  import opened Tables
  import opened Ranking
  import opened Outcomes
  import opened Index

  // ----- the request

  function ClampCount(count: nat): (c: nat)
    ensures 1 <= c <= 20 && (1 <= count <= 20 ==> c == count) && (count > 20 ==> c == 20)
  {
    Max(1, Min(count, 20))
  }

  /** How many centroids to probe out of `n`: one by default, all for a negative number. */
  function Probes(centroids: int, n: nat): (p: nat)
    ensures p <= n && (n > 0 ==> p > 0)
    ensures centroids < 0 ==> p == n
    ensures centroids == 0 ==> p <= 1
    ensures centroids > 0 ==> p <= centroids && (p < centroids ==> p == n)
  {
    if centroids == 0 then Min(1, n) else if centroids < 0 then n else Min(centroids, n)
  }

  // ----- scores

  predicate EvenCentroids(cached: seq<Centroid>, dim: nat) { EvenRows(VectorsOfCentroids(cached), dim) }

  /** A stored vector's similarity to the query. */
  function Score(vector: Row, target: Row, sqrt: real -> real): real
    requires |vector.codes| == |target.codes|
  {
    Cosine.Similarity(DequantizeVector(vector), DequantizeVector(target), sqrt)
  }

  /** The scored centroids, under their ids. */
  function ScoredCentroids(cached: seq<Centroid>, target: Row, sqrt: real -> real): (hits: seq<Hit>)
    requires EvenCentroids(cached, |target.codes|)
    ensures |hits| == |cached| && forall i :: 0 <= i < |cached| ==> hits[i].doc == cached[i].id
  {
    seq(|cached|, i requires 0 <= i < |cached| =>
      Hit(cached[i].id, Score(VectorsOfCentroids(cached)[i], target, sqrt)))
  }

  function HitFor(e: Embedding, target: Row, sqrt: real -> real): Hit
    requires |e.vector.codes| == |target.codes|
  {
    Hit(e.document, Score(e.vector, target, sqrt))
  }

  /** The scored embeddings, under their documents. */
  function HitsOf(rows: seq<Embedding>, target: Row, sqrt: real -> real): (hits: seq<Hit>)
    requires EvenEmbeddings(rows, |target.codes|)
    ensures |hits| == |rows|
  {
    seq(|rows|, i requires 0 <= i < |rows| => HitFor(rows[i], target, sqrt))
  }

  lemma HitsAppend(a: seq<Embedding>, b: seq<Embedding>, target: Row, sqrt: real -> real)
    requires EvenEmbeddings(a, |target.codes|) && EvenEmbeddings(b, |target.codes|)
    ensures EvenEmbeddings(a + b, |target.codes|)
    ensures HitsOf(a + b, target, sqrt) == HitsOf(a, target, sqrt) + HitsOf(b, target, sqrt)
  {
  }

  lemma SubsetHits(a: seq<Embedding>, b: seq<Embedding>, target: Row, sqrt: real -> real)
    requires EvenEmbeddings(a, |target.codes|) && EvenEmbeddings(b, |target.codes|)
    requires forall e :: e in a ==> e in b
    ensures forall h :: h in HitsOf(a, target, sqrt) ==> h in HitsOf(b, target, sqrt)
  {
    forall h | h in HitsOf(a, target, sqrt) ensures h in HitsOf(b, target, sqrt) {
      var i :| 0 <= i < |a| && HitsOf(a, target, sqrt)[i] == h;
      assert a[i] in b;
      var j :| 0 <= j < |b| && b[j] == a[i];
      assert HitsOf(b, target, sqrt)[j] == h;
    }
  }

  /** The similarities of one matrix of rows, as the score of each row. */
  method ScoreRows(target: Row, vectors: seq<Row>, dim: nat, sqrt: real -> real) returns (scores: seq<real>)
    requires vectors != [] && dim > 0 && |target.codes| == dim && EvenRows(vectors, dim)
    ensures |scores| == |vectors|
    ensures forall i :: 0 <= i < |vectors| ==> scores[i] == Score(vectors[i], target, sqrt)
  {
    scores := SimilaritiesTo(target, vectors, dim, sqrt);
  }

  // ----- what an answer is

  /** `h` names the document of some row and the cosine of its row most similar to the query. */
  ghost predicate IsBestOfDocument(h: Hit, rows: seq<Embedding>, target: Row, sqrt: real -> real)
    requires EvenEmbeddings(rows, |target.codes|)
  {
    && (exists e :: e in rows && e.document == h.doc
                    && Cosine.Similarity(DequantizeVector(e.vector), DequantizeVector(target), sqrt) == h.sim)
    && forall e | e in rows && e.document == h.doc ::
         Cosine.Similarity(DequantizeVector(e.vector), DequantizeVector(target), sqrt) <= h.sim
  }

  ghost predicate NamesDocument(hits: seq<Hit>, doc: nat) { exists h :: h in hits && h.doc == doc }

  /** A row whose document is missing is behind a full list. */
  ghost predicate IsBehind(e: Embedding, closest: seq<Hit>, target: Row, limit: nat, sqrt: real -> real)
    requires |e.vector.codes| == |target.codes|
  {
    && |closest| == limit
    && forall h | h in closest ::
         Cosine.Similarity(DequantizeVector(e.vector), DequantizeVector(target), sqrt) <= h.sim
  }

  /** `closest` answers "the `limit` documents with the rows most similar to the query": different
      documents, most similar first. */
  ghost predicate IsAnswer(closest: seq<Hit>, rows: seq<Embedding>, target: Row, limit: nat, sqrt: real -> real)
    requires EvenEmbeddings(rows, |target.codes|)
  {
    && |closest| <= limit
    && (forall i, j :: 0 <= i < j < |closest| ==>
          closest[i].doc != closest[j].doc && closest[i].sim >= closest[j].sim)
    && (forall h | h in closest :: IsBestOfDocument(h, rows, target, sqrt))
    && (forall i :: 0 <= i < |rows| ==>
          NamesDocument(closest, rows[i].document) || IsBehind(rows[i], closest, target, limit, sqrt))
  }

  lemma BestIsOfDocument(h: Hit, rows: seq<Embedding>, target: Row, sqrt: real -> real)
    requires EvenEmbeddings(rows, |target.codes|) && IsBest(h, HitsOf(rows, target, sqrt))
    ensures IsBestOfDocument(h, rows, target, sqrt)
  {
    var hits := HitsOf(rows, target, sqrt);
    var i :| 0 <= i < |hits| && hits[i] == h;
    assert rows[i] in rows && hits[i] == HitFor(rows[i], target, sqrt);
    forall e | e in rows && e.document == h.doc
      ensures Cosine.Similarity(DequantizeVector(e.vector), DequantizeVector(target), sqrt) <= h.sim
    {
      var k :| 0 <= k < |rows| && rows[k] == e;
      assert hits[k] == HitFor(e, target, sqrt) && hits[k] in hits;
    }
  }

  lemma TopIsAnswer(closest: seq<Hit>, rows: seq<Embedding>, target: Row, limit: nat, sqrt: real -> real)
    requires EvenEmbeddings(rows, |target.codes|) && IsTop(closest, HitsOf(rows, target, sqrt), limit)
    ensures IsAnswer(closest, rows, target, limit, sqrt)
  {
    var hits := HitsOf(rows, target, sqrt);
    forall h | h in closest ensures IsBestOfDocument(h, rows, target, sqrt) {
      BestIsOfDocument(h, rows, target, sqrt);
    }
    forall i | 0 <= i < |rows|
      ensures NamesDocument(closest, rows[i].document) || IsBehind(rows[i], closest, target, limit, sqrt)
    {
      assert hits[i] in hits && hits[i] == HitFor(rows[i], target, sqrt);
    }
  }

  /** A stored copy of the query, unless it is zero, is as similar as can be: the answer begins with
      similarity one. */
  lemma OwnVectorIsFirst(closest: seq<Hit>, rows: seq<Embedding>, target: Row, limit: nat, sqrt: real -> real, i: nat)
    requires EvenEmbeddings(rows, |target.codes|) && IsAnswer(closest, rows, target, limit, sqrt)
    requires IsSqrt(sqrt) && limit > 0 && i < |rows| && rows[i].vector == target
    requires Dot(DequantizeVector(target), DequantizeVector(target)) != 0.0
    ensures closest != [] && closest[0].sim == 1.0
  {
    var query := DequantizeVector(target);
    SelfSimilarity(query, sqrt);
    if NamesDocument(closest, rows[i].document) {
      var h :| h in closest && h.doc == rows[i].document;
      assert rows[i] in rows && h.sim >= 1.0;
      var k :| 0 <= k < |closest| && closest[k] == h;
      assert closest[0].sim >= closest[k].sim;
    }
    assert closest[0] in closest && closest[0].sim >= 1.0;
    var e :| e in rows && e.document == closest[0].doc
             && Cosine.Similarity(DequantizeVector(e.vector), query, sqrt) == closest[0].sim;
    SimilarityRange(DequantizeVector(e.vector), query, sqrt);
  }

  /** The same for centroids, which are all different: `chosen` are the `probes` most similar ones. */
  ghost predicate IsChoiceOf(chosen: seq<Hit>, cached: seq<Centroid>, target: Row, probes: nat, sqrt: real -> real) {
    EvenEmbeddings(AsRows(cached), |target.codes|) && IsAnswer(chosen, AsRows(cached), target, probes, sqrt)
  }

  /** Centroids as rows: the id of the centroid stands for the document. */
  function AsRows(cached: seq<Centroid>): (rows: seq<Embedding>)
    ensures |rows| == |cached|
    ensures forall i :: 0 <= i < |cached| ==>
              rows[i].document == cached[i].id && rows[i].vector == cached[i].vector
  {
    seq(|cached|, i requires 0 <= i < |cached| => Embedding(0, cached[i].id, 0, cached[i].vector))
  }

  lemma TopIsChoice(chosen: seq<Hit>, cached: seq<Centroid>, target: Row, probes: nat, sqrt: real -> real)
    requires EvenCentroids(cached, |target.codes|)
    requires IsTop(chosen, ScoredCentroids(cached, target, sqrt), probes)
    ensures IsChoiceOf(chosen, cached, target, probes, sqrt)
  {
    var rows := AsRows(cached);
    forall i | 0 <= i < |rows| ensures |rows[i].vector.codes| == |target.codes| {
      assert VectorsOfCentroids(cached)[i] == cached[i].vector;
    }
    assert HitsOf(rows, target, sqrt) == ScoredCentroids(cached, target, sqrt);
    TopIsAnswer(chosen, rows, target, probes, sqrt);
  }

  // ----- the choice of centroids

  method ChooseCentroids(cached: seq<Centroid>, target: Row, centroids: int, dim: nat, sqrt: real -> real)
    returns (chosen: seq<Hit>)
    requires cached != [] && DistinctCentroidIds(cached)
    requires dim > 0 && |target.codes| == dim && EvenCentroids(cached, dim)
    ensures IsTop(chosen, ScoredCentroids(cached, target, sqrt), Probes(centroids, |cached|))
    ensures IsChoiceOf(chosen, cached, target, Probes(centroids, |cached|), sqrt)
  {
    var scores := ScoreRows(target, VectorsOfCentroids(cached), dim, sqrt);
    var scored := seq(|cached|, i requires 0 <= i < |cached| => Hit(cached[i].id, scores[i]));
    assert scored == ScoredCentroids(cached, target, sqrt);
    var sorted := SortFunc(scored, Ranking.Similarity);
    assert Sorted(sorted) by {
      assert forall i, j :: 0 <= i < j < |sorted| ==>
        Ranking.Similarity(sorted[i]) >= Ranking.Similarity(sorted[j]);
    }
    SortedIsRanking(sorted, scored);
    PermutationMembers(scored, sorted);
    RankingPrefixIsTop(sorted, scored, Probes(centroids, |cached|));
    chosen := sorted[..Probes(centroids, |cached|)];
    TopIsChoice(chosen, cached, target, Probes(centroids, |cached|), sqrt);
  }

  // ----- the query and the batches

  predicate TableOk(s: Store, dim: nat) {
    forall id :: id in s.embeddings ==> s.embeddings[id].id == id && |s.embeddings[id].vector.codes| == dim
  }

  /** `WHERE centroid_id IN ids`. */
  ghost predicate Lists(rows: seq<Embedding>, s: Store, ids: set<nat>) {
    forall e :: e in rows <==> e.id in s.embeddings && s.embeddings[e.id] == e && e.centroid in ids
  }

  method QueryByCentroids(s: Store, ids: set<nat>, dim: nat) returns (rows: seq<Embedding>)
    requires TableOk(s, dim)
    ensures Lists(rows, s, ids) && EvenEmbeddings(rows, dim)
  {
    rows := [];
    var todo := s.embeddings.Keys;
    while todo != {}
      invariant todo <= s.embeddings.Keys && EvenEmbeddings(rows, dim)
      invariant forall e :: e in rows <==>
                  e.id in s.embeddings && e.id !in todo && s.embeddings[e.id] == e && e.centroid in ids
      decreases todo
    {
      var id :| id in todo;
      if s.embeddings[id].centroid in ids {
        rows := rows + [s.embeddings[id]];
      }
      todo := todo - {id};
    }
  }

  /** The batches of the query, each scored and merged into the list so far. */
  method RankRows(rows: seq<Embedding>, target: Row, limit: nat, dim: nat, sqrt: real -> real)
    returns (closest: seq<Hit>)
    requires dim > 0 && |target.codes| == dim && EvenEmbeddings(rows, dim)
    ensures IsTop(closest, HitsOf(rows, target, sqrt), limit)
    ensures IsAnswer(closest, rows, target, limit, sqrt)
  {
    var batches := InBatches(rows, BATCH_SIZE_DATABASE);
    closest := [];
    ghost var done: seq<Embedding> := [];
    for n := 0 to |batches|
      invariant done + Flatten(batches[n..]) == rows && EvenEmbeddings(done, dim)
      invariant IsTop(closest, HitsOf(done, target, sqrt), limit)
    {
      var embeddings := batches[n];
      assert batches[n..][1..] == batches[n + 1..];
      ghost var rest := Flatten(batches[n + 1..]);
      assert done + embeddings + rest == rows;
      MiddleEven(done, embeddings, rest, dim);
      var scores := ScoreRows(target, VectorsOf(embeddings), dim, sqrt);
      var hits := seq(|embeddings|, i requires 0 <= i < |embeddings| => Hit(embeddings[i].document, scores[i]));
      assert hits == HitsOf(embeddings, target, sqrt);
      closest := RankBatch(closest, hits, limit, HitsOf(done, target, sqrt));
      HitsAppend(done, embeddings, target, sqrt);
      done := done + embeddings;
    }
    assert batches[|batches|..] == [];
    assert done == rows;
    TopIsAnswer(closest, rows, target, limit, sqrt);
  }

  lemma MiddleEven(a: seq<Embedding>, b: seq<Embedding>, c: seq<Embedding>, dim: nat)
    requires EvenEmbeddings(a + b + c, dim)
    ensures EvenEmbeddings(b, dim)
  {
    forall i | 0 <= i < |b| ensures |b[i].vector.codes| == dim {
      assert (a + b + c)[|a| + i] == b[i];
    }
  }

  // ----- the search

  /** `cached` is the centroid list of the category, `target` the embedded query. */
  method Search(s: Store, cached: seq<Centroid>, target: Row, count: nat, offset: nat, centroids: int,
                dim: nat, sqrt: real -> real)
    returns (chosen: seq<Hit>, closest: seq<Hit>, page: seq<Hit>, ghost rows: seq<Embedding>)
    requires DistinctCentroidIds(cached) && TableOk(s, dim)
    requires dim > 0 && |target.codes| == dim && EvenCentroids(cached, dim)
    ensures cached == [] ==> page == []
    ensures cached != [] ==> IsTop(chosen, ScoredCentroids(cached, target, sqrt), Probes(centroids, |cached|))
    ensures cached != [] ==> IsChoiceOf(chosen, cached, target, Probes(centroids, |cached|), sqrt)
    ensures cached != [] ==> Lists(rows, s, Docs(chosen)) && EvenEmbeddings(rows, dim)
    ensures cached != [] ==>
              IsTop(closest, HitsOf(rows, target, sqrt), offset + ClampCount(count))
              && page == Slice(closest, offset, offset + ClampCount(count))
              && IsAnswer(closest, rows, target, offset + ClampCount(count), sqrt)
    ensures |page| == Max(0, |closest| - offset) && forall i :: 0 <= i < |page| ==> page[i] == closest[offset + i]
  {
    rows := [];
    if cached == [] {
      return [], [], [], [];
    }
    chosen := ChooseCentroids(cached, target, centroids, dim, sqrt);
    var found := QueryByCentroids(s, Docs(chosen), dim);
    closest := RankRows(found, target, offset + ClampCount(count), dim, sqrt);
    page := CreateResponse(closest, ClampCount(count), offset);
    rows := found;
  }

  // ----- what probing means

  /** The list of centroids is the stored one of the category. */
  ghost predicate IsCentroidList(s: Store, category: nat, cached: seq<Centroid>) {
    forall id :: (id in s.centroids && s.centroids[id].category == category)
                 <==> exists i :: 0 <= i < |cached| && cached[i].id == id
  }

  lemma AllCentroidsAllRows(s: Store, category: nat, cached: seq<Centroid>, chosen: seq<Hit>, target: Row,
                            rows: seq<Embedding>, all: seq<Embedding>, sqrt: real -> real)
    requires Placed(s) && IsCentroidList(s, category, cached)
    requires EvenCentroids(cached, |target.codes|)
    requires IsTop(chosen, ScoredCentroids(cached, target, sqrt), |cached|)
    requires Lists(rows, s, Docs(chosen)) && IsCategory(s, category, all)
    ensures forall e :: e in rows <==> e in all
  {
    var scored := ScoredCentroids(cached, target, sqrt);
    ChoosingAll(chosen, scored);
    forall e ensures e in rows <==> e in all {
      if e.id in s.embeddings && s.embeddings[e.id] == e {
        assert IsPlaced(s, e.id, e);
        IdsAreDocs(cached, scored, e.centroid);
      }
    }
  }

  lemma IdsAreDocs(cached: seq<Centroid>, scored: seq<Hit>, id: nat)
    requires |scored| == |cached| && forall i :: 0 <= i < |cached| ==> scored[i].doc == cached[i].id
    ensures id in Docs(scored) <==> exists i :: 0 <= i < |cached| && cached[i].id == id
  {
    if i :| 0 <= i < |cached| && cached[i].id == id {
      assert scored[i] in scored;
    }
    if id in Docs(scored) {
      var i := DocAt(scored, id);
      assert cached[i].id == id;
    }
  }

  /** Probing every centroid is brute force: the answer is a valid top list over all embeddings of
      the category. This rests on each embedding pointing to a centroid of its own category and on
      the cached centroid list being the stored one. */
  lemma ProbeAllIsBruteForce(s: Store, category: nat, cached: seq<Centroid>, chosen: seq<Hit>, target: Row,
                             rows: seq<Embedding>, all: seq<Embedding>, closest: seq<Hit>, limit: nat,
                             sqrt: real -> real)
    requires Placed(s) && IsCentroidList(s, category, cached)
    requires EvenCentroids(cached, |target.codes|)
    requires EvenEmbeddings(rows, |target.codes|) && EvenEmbeddings(all, |target.codes|)
    requires IsTop(chosen, ScoredCentroids(cached, target, sqrt), |cached|)
    requires Lists(rows, s, Docs(chosen)) && IsCategory(s, category, all)
    requires IsTop(closest, HitsOf(rows, target, sqrt), limit)
    ensures IsTop(closest, HitsOf(all, target, sqrt), limit)
  {
    AllCentroidsAllRows(s, category, cached, chosen, target, rows, all, sqrt);
    SubsetHits(rows, all, target, sqrt);
    SubsetHits(all, rows, target, sqrt);
    TopOfSameHits(closest, HitsOf(rows, target, sqrt), HitsOf(all, target, sqrt), limit);
  }

  /** Probing more centroids never lowers the i-th best similarity, provided the smaller choice is
      part of the larger one. */
  lemma MoreProbesNeverWorse(s: Store, chosen1: seq<Hit>, chosen2: seq<Hit>, target: Row,
                             rows1: seq<Embedding>, rows2: seq<Embedding>, closest1: seq<Hit>, closest2: seq<Hit>,
                             limit: nat, sqrt: real -> real)
    requires Docs(chosen1) <= Docs(chosen2)
    requires Lists(rows1, s, Docs(chosen1)) && Lists(rows2, s, Docs(chosen2))
    requires EvenEmbeddings(rows1, |target.codes|) && EvenEmbeddings(rows2, |target.codes|)
    requires IsTop(closest1, HitsOf(rows1, target, sqrt), limit)
    requires IsTop(closest2, HitsOf(rows2, target, sqrt), limit)
    ensures |closest1| <= |closest2|
    ensures forall i :: 0 <= i < |closest1| ==> closest1[i].sim <= closest2[i].sim
  {
    SubsetHits(rows1, rows2, target, sqrt);
    TopDominates(closest1, HitsOf(rows1, target, sqrt), closest2, HitsOf(rows2, target, sqrt), limit);
  }

  /** The smaller choice is part of the larger one for all outcomes of the unstable sorts exactly when
      the larger one is everything or no tie reaches across both cuts. */
  lemma ProbesNestIff(cached: seq<Centroid>, target: Row, ranking: seq<Hit>, fewer: nat, more: nat,
                      sqrt: real -> real)
    requires EvenCentroids(cached, |target.codes|) && DistinctCentroidIds(cached)
    requires IsRanking(ranking, ScoredCentroids(cached, target, sqrt))
    requires 0 < fewer <= more <= |cached|
    ensures |ranking| == |cached|
    ensures (forall c1, c2 ::
               (IsChoice(c1, cached, target, fewer, sqrt) && IsChoice(c2, cached, target, more, sqrt))
               ==> Docs(c1) <= Docs(c2))
            <==> NoTieAcross(ranking, fewer, more)
  {
    var scored := ScoredCentroids(cached, target, sqrt);
    DocsExactly(scored);
    DocsExactly(ranking);
    ChoicesNestIff(ranking, scored, fewer, more);
    forall c, k: nat ensures IsChoice(c, cached, target, k, sqrt) <==> IsTop(c, scored, k) {
      ChoicesAreTops(scored, c, k);
    }
  }

  /** The unstable sort of the centroids can put these `probes` in front. */
  ghost predicate IsChoice(chosen: seq<Hit>, cached: seq<Centroid>, target: Row, probes: nat, sqrt: real -> real)
    requires EvenCentroids(cached, |target.codes|)
  {
    exists sorted :: IsSorting(sorted, ScoredCentroids(cached, target, sqrt)) && chosen == Cut(sorted, probes)
  }

  /** The larger choice is everything, or no tie reaches from inside the smaller to outside the larger. */
  ghost predicate NoTieAcross(ranking: seq<Hit>, fewer: nat, more: nat)
    requires 0 < fewer <= more <= |ranking|
  {
    more == |ranking| || ranking[fewer - 1].sim > ranking[more].sim
  }

  /** What the tables and the cached centroid list have to be for a search in the category. */
  ghost predicate Consistent(s: Store, category: nat, cached: seq<Centroid>, dim: nat) {
    Placed(s) && TableOk(s, dim) && IsCentroidList(s, category, cached)
  }

  /** A search that probes so many centroids can come to the list. */
  ghost predicate CanAnswer(s: Store, cached: seq<Centroid>, target: Row, probes: nat, limit: nat,
                            closest: seq<Hit>, sqrt: real -> real)
    requires EvenCentroids(cached, |target.codes|)
  {
    exists chosen, rows ::
      && IsChoice(chosen, cached, target, probes, sqrt)
      && Lists(rows, s, Docs(chosen)) && EvenEmbeddings(rows, |target.codes|)
      && IsTop(closest, HitsOf(rows, target, sqrt), limit)
  }

  /** No position of `a` is better than that of `b`. */
  ghost predicate AtLeastAsGood(b: seq<Hit>, a: seq<Hit>) {
    |a| <= |b| && forall i :: 0 <= i < |a| ==> a[i].sim <= b[i].sim
  }

  /** In every store, whatever the sorts do, probing more centroids is never worse. */
  ghost predicate MoreIsNeverWorse(category: nat, cached: seq<Centroid>, target: Row, fewer: nat, more: nat,
                                   sqrt: real -> real)
    requires EvenCentroids(cached, |target.codes|)
  {
    forall s, limit: nat, a, b ::
      Consistent(s, category, cached, |target.codes|)
      && CanAnswer(s, cached, target, fewer, limit, a, sqrt) && CanAnswer(s, cached, target, more, limit, b, sqrt)
      ==> AtLeastAsGood(b, a)
  }

  /** Probing more centroids is never worse, for all stores and all outcomes of the sorts, if and only
      if no tie reaches across both cuts. */
  lemma MoreIsNeverWorseIff(category: nat, cached: seq<Centroid>, target: Row, ranking: seq<Hit>, fewer: nat,
                            more: nat, sqrt: real -> real)
    requires EvenCentroids(cached, |target.codes|) && DistinctCentroidIds(cached)
    requires forall i :: 0 <= i < |cached| ==> cached[i].category == category
    requires IsRanking(ranking, ScoredCentroids(cached, target, sqrt))
    requires 0 < fewer <= more <= |cached|
    ensures |ranking| == |cached|
    ensures MoreIsNeverWorse(category, cached, target, fewer, more, sqrt) <==> NoTieAcross(ranking, fewer, more)
  {
    ProbesNestIff(cached, target, ranking, fewer, more, sqrt);
    if NoTieAcross(ranking, fewer, more) {
      forall s, limit: nat, a, b | CanAnswer(s, cached, target, fewer, limit, a, sqrt)
                                   && CanAnswer(s, cached, target, more, limit, b, sqrt)
        ensures AtLeastAsGood(b, a)
      {
        var c1, rows1 :| IsChoice(c1, cached, target, fewer, sqrt) && Lists(rows1, s, Docs(c1))
                         && EvenEmbeddings(rows1, |target.codes|) && IsTop(a, HitsOf(rows1, target, sqrt), limit);
        var c2, rows2 :| IsChoice(c2, cached, target, more, sqrt) && Lists(rows2, s, Docs(c2))
                         && EvenEmbeddings(rows2, |target.codes|) && IsTop(b, HitsOf(rows2, target, sqrt), limit);
        MoreProbesNeverWorse(s, c1, c2, target, rows1, rows2, a, b, limit, sqrt);
      }
    } else {
      var c1, c2 :| IsChoice(c1, cached, target, fewer, sqrt) && IsChoice(c2, cached, target, more, sqrt)
                    && !(Docs(c1) <= Docs(c2));
      var lost :| lost in Docs(c1) && lost !in Docs(c2);
      LostCentroid(category, cached, target, fewer, more, c1, c2, lost, sqrt);
    }
  }

  /** One document whose only embedding is the query itself, at the given centroid. */
  function OneEmbedding(category: nat, cached: seq<Centroid>, centroid: nat, target: Row): Store {
    Store(map[0 := category], Written(map[], cached, IdOfCentroid), map[0 := Embedding(0, 0, centroid, target)])
  }

  lemma OneEmbeddingIsConsistent(category: nat, cached: seq<Centroid>, centroid: nat, target: Row)
    requires DistinctCentroidIds(cached) && forall i :: 0 <= i < |cached| ==> cached[i].category == category
    requires centroid in IdsOfCentroids(cached)
    ensures Consistent(OneEmbedding(category, cached, centroid, target), category, cached, |target.codes|)
  {
    var s := OneEmbedding(category, cached, centroid, target);
    WrittenFrom(map[], cached, IdOfCentroid);
    forall i | 0 <= i < |cached| ensures cached[i].id in s.centroids && s.centroids[cached[i].id] == cached[i] {
      WrittenRow(map[], cached, IdOfCentroid, i);
    }
    var k :| 0 <= k < |cached| && IdsOfCentroids(cached)[k] == centroid;
    assert cached[k].id == centroid;
    assert IsPlaced(s, 0, s.embeddings[0]);
  }

  /** The search that misses the centroid finds nothing there. */
  lemma LostCentroid(category: nat, cached: seq<Centroid>, target: Row, fewer: nat, more: nat, c1: seq<Hit>,
                     c2: seq<Hit>, lost: nat, sqrt: real -> real)
    requires EvenCentroids(cached, |target.codes|) && DistinctCentroidIds(cached)
    requires forall i :: 0 <= i < |cached| ==> cached[i].category == category
    requires IsChoice(c1, cached, target, fewer, sqrt) && IsChoice(c2, cached, target, more, sqrt)
    requires lost in Docs(c1) && lost !in Docs(c2)
    ensures !MoreIsNeverWorse(category, cached, target, fewer, more, sqrt)
  {
    var s := OneEmbedding(category, cached, lost, target);
    ChosenAreCached(cached, target, fewer, c1, lost, sqrt);
    OneEmbeddingIsConsistent(category, cached, lost, target);
    var e := s.embeddings[0];
    var hit := HitFor(e, target, sqrt);
    assert Lists([e], s, Docs(c1)) && Lists([], s, Docs(c2));
    assert HitsOf([e], target, sqrt) == [hit];
    OneHit(hit);
    assert HitsOf([], target, sqrt) == [];
    assert CanAnswer(s, cached, target, fewer, 1, [hit], sqrt);
    assert CanAnswer(s, cached, target, more, 1, [], sqrt);
    assert !AtLeastAsGood([], [hit]);
  }

  lemma OneHit(hit: Hit)
    ensures IsTop([hit], [hit], 1) && IsTop([], [], 1)
  {
    assert IsBest(hit, [hit]);
    assert hit in [hit];
  }

  lemma ChosenAreCached(cached: seq<Centroid>, target: Row, probes: nat, chosen: seq<Hit>, id: nat,
                        sqrt: real -> real)
    requires EvenCentroids(cached, |target.codes|)
    requires IsChoice(chosen, cached, target, probes, sqrt) && id in Docs(chosen)
    ensures id in IdsOfCentroids(cached)
  {
    var scored := ScoredCentroids(cached, target, sqrt);
    var sorted :| IsSorting(sorted, scored) && chosen == Cut(sorted, probes);
    var h :| h in chosen && h.doc == id;
    PermutationMembers(sorted, scored);
    assert h in sorted;
    var i :| 0 <= i < |scored| && scored[i] == h;
    assert IdsOfCentroids(cached)[i] == id;
  }
}
