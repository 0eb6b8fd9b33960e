/** The batched top-K list of documents: what one batch does to it, and why the fold over all
    batches is the ranking of all documents cut at K. */
module Ranking {
  import opened Sequences

  /** One scored embedding of a document. */
  datatype Hit = Hit(doc: nat, sim: real)

  function Similarity(h: Hit): real { h.sim }

  function Docs(hits: seq<Hit>): set<nat> { set h | h in hits :: h.doc }

  ghost predicate Sorted(hits: seq<Hit>) {
    forall i, j :: 0 <= i < j < |hits| ==> hits[i].sim >= hits[j].sim
  }

  ghost predicate StrictlySorted(hits: seq<Hit>) {
    forall i, j :: 0 <= i < j < |hits| ==> hits[i].sim > hits[j].sim
  }

  ghost predicate DistinctDocs(hits: seq<Hit>) {
    forall i, j :: 0 <= i < j < |hits| ==> hits[i].doc != hits[j].doc
  }

  /** `h` is the best embedding of its document among `hits`. */
  ghost predicate IsBest(h: Hit, hits: seq<Hit>) {
    h in hits && forall o | o in hits && o.doc == h.doc :: o.sim <= h.sim
  }

  /** `top` is a valid answer to "the `limit` documents with the best embeddings in `hits`". */
  ghost predicate IsTop(top: seq<Hit>, hits: seq<Hit>, limit: nat) {
    && DistinctDocs(top)
    && Sorted(top)
    && |top| <= limit
    && (forall h | h in top :: IsBest(h, hits))
    && (forall o | o in hits && o.doc !in Docs(top) ::
          |top| == limit && forall h | h in top :: o.sim <= h.sim)
  }

  /** Every document of `hits`, ranked by its best embedding. */
  ghost predicate IsRanking(ranking: seq<Hit>, hits: seq<Hit>) {
    Docs(ranking) == Docs(hits) && IsTop(ranking, hits, |ranking|)
  }

  // ----- counting documents

  lemma {:induction false} DocsAtMost(hits: seq<Hit>)
    ensures |Docs(hits)| <= |hits|
  {
    if hits == [] {
    } else {
      var n := |hits| - 1;
      DocsAtMost(hits[..n]);
      assert hits == hits[..n] + [hits[n]];
      assert Docs(hits) == Docs(hits[..n]) + {hits[n].doc};
    }
  }

  lemma {:induction false} DocsExactly(hits: seq<Hit>)
    requires DistinctDocs(hits)
    ensures |Docs(hits)| == |hits|
  {
    if hits == [] {
    } else {
      var n := |hits| - 1;
      DocsExactly(hits[..n]);
      assert hits == hits[..n] + [hits[n]];
      assert Docs(hits) == Docs(hits[..n]) + {hits[n].doc};
    }
  }

  lemma DocAt(hits: seq<Hit>, doc: nat) returns (i: nat)
    requires doc in Docs(hits)
    ensures i < |hits| && hits[i].doc == doc
  {
    var h :| h in hits && h.doc == doc;
    i :| 0 <= i < |hits| && hits[i] == h;
  }

  lemma SubsetCard(a: set<nat>, b: set<nat>)
    requires a <= b
    ensures |a| <= |b|
  {
    assert b == a + (b - a);
  }

  /** If every document of `crowd` occurs in the sorted list `list` with similarity at least `v`,
      then the first |crowd| entries of `list` all have similarity at least `v`. */
  lemma ManyAbove(crowd: seq<Hit>, list: seq<Hit>, v: real)
    requires DistinctDocs(crowd) && Sorted(list)
    requires forall c | c in crowd :: exists d | d in list :: d.doc == c.doc && d.sim >= v
    ensures |crowd| <= |list|
    ensures forall i :: 0 <= i < |crowd| ==> list[i].sim >= v
  {
    DocsExactly(crowd);
    forall c | c in crowd
      ensures c.doc in Docs(list)
    {
    }
    DocsAtMost(list);
    SubsetCard(Docs(crowd), Docs(list));
    forall i | 0 <= i < |crowd|
      ensures list[i].sim >= v
    {
      if list[i].sim < v {
        forall doc | doc in Docs(crowd)
          ensures doc in Docs(list[..i])
        {
          var c :| c in crowd && c.doc == doc;
          var d :| d in list && d.doc == c.doc && d.sim >= v;
          var j :| 0 <= j < |list| && list[j] == d;
          assert j < i;
          assert list[..i][j] == d;
        }
        DocsAtMost(list[..i]);
        SubsetCard(Docs(crowd), Docs(list[..i]));
        assert false;
      }
    }
  }

  // ----- one batch

  /** The first entry of each document, in order. */
  function FirstPerDoc(hits: seq<Hit>): (unique: seq<Hit>)
  {
    if hits == [] then []
    else
      var n := |hits| - 1;
      var before := FirstPerDoc(hits[..n]);
      if hits[n].doc in Docs(hits[..n]) then before else before + [hits[n]]
  }

  lemma {:induction false} FirstPerDocKeepsDocs(hits: seq<Hit>)
    ensures Docs(FirstPerDoc(hits)) == Docs(hits)
    ensures forall h | h in FirstPerDoc(hits) :: h in hits
  {
    if hits == [] {
    } else {
      var n := |hits| - 1;
      FirstPerDocKeepsDocs(hits[..n]);
      assert hits == hits[..n] + [hits[n]];
      assert Docs(hits) == Docs(hits[..n]) + {hits[n].doc};
      var before := FirstPerDoc(hits[..n]);
      assert Docs(before + [hits[n]]) == Docs(before) + {hits[n].doc};
    }
  }

  lemma {:induction false} FirstPerDocIsSorted(hits: seq<Hit>)
    requires Sorted(hits)
    ensures DistinctDocs(FirstPerDoc(hits)) && Sorted(FirstPerDoc(hits))
  {
    if hits == [] {
    } else {
      var n := |hits| - 1;
      var before := FirstPerDoc(hits[..n]);
      FirstPerDocIsSorted(hits[..n]);
      FirstPerDocKeepsDocs(hits[..n]);
      forall i | 0 <= i < |before|
        ensures before[i].doc in Docs(hits[..n]) && before[i].sim >= hits[n].sim
      {
        assert before[i] in before;
        var k :| 0 <= k < n && hits[..n][k] == before[i];
        assert hits[k].sim >= hits[n].sim;
      }
    }
  }

  lemma {:induction false} FirstPerDocIsBest(hits: seq<Hit>)
    requires Sorted(hits)
    ensures forall h | h in FirstPerDoc(hits) :: IsBest(h, hits)
  {
    if hits == [] {
    } else {
      var n := |hits| - 1;
      FirstPerDocIsBest(hits[..n]);
      FirstPerDocKeepsDocs(hits[..n]);
      forall h | h in FirstPerDoc(hits[..n]) ensures IsBest(h, hits) {
        BestStays(hits, h);
      }
      if hits[n].doc !in Docs(hits[..n]) {
        forall o | o in hits && o.doc == hits[n].doc ensures o.sim <= hits[n].sim {
          if o != hits[n] { LastOrBefore(hits, o); }
        }
        assert IsBest(hits[n], hits);
      }
    }
  }

  lemma BestStays(hits: seq<Hit>, h: Hit)
    requires hits != [] && Sorted(hits) && IsBest(h, hits[..|hits| - 1])
    ensures IsBest(h, hits)
  {
    var n := |hits| - 1;
    var i :| 0 <= i < n && hits[..n][i] == h;
    assert hits[i].sim >= hits[n].sim;
    forall o | o in hits && o.doc == h.doc ensures o.sim <= h.sim {
      if o != hits[n] { LastOrBefore(hits, o); }
    }
  }

  lemma LastOrBefore(hits: seq<Hit>, o: Hit)
    requires o in hits && o != hits[|hits| - 1]
    ensures o in hits[..|hits| - 1] && o.doc in Docs(hits[..|hits| - 1])
  {
    var i :| 0 <= i < |hits| && hits[i] == o;
    assert hits[..|hits| - 1][i] == o;
  }

  /** The removal of duplicates, with its `seen` table. */
  method RemoveDuplicates(hits: seq<Hit>) returns (unique: seq<Hit>)
    ensures unique == FirstPerDoc(hits)
  {
    unique := [];
    var seen: set<nat> := {};
    for i := 0 to |hits|
      invariant seen == Docs(hits[..i])
      invariant unique == FirstPerDoc(hits[..i])
    {
      assert hits[..i + 1][..i] == hits[..i];
      assert Docs(hits[..i + 1]) == Docs(hits[..i]) + {hits[i].doc} by {
        assert hits[..i + 1] == hits[..i] + [hits[i]];
      }
      if hits[i].doc !in seen {
        unique := unique + [hits[i]];
        seen := seen + {hits[i].doc};
      }
    }
    assert hits[..|hits|] == hits;
  }

  /** One callback of the batched query: append, sort, deduplicate, truncate. `earlier` is every
      hit of the batches before; most of them are no longer in `closest`. */
  method RankBatch(closest: seq<Hit>, batch: seq<Hit>, limit: nat, ghost earlier: seq<Hit>)
    returns (next: seq<Hit>)
    requires IsTop(closest, earlier, limit)
    ensures IsTop(next, earlier + batch, limit)
  {
    var all := closest + batch;
    var sorted := SortFunc(all, Similarity);
    assert Sorted(sorted) by {
      assert forall i, j :: 0 <= i < j < |sorted| ==> Similarity(sorted[i]) >= Similarity(sorted[j]);
    }
    var unique := RemoveDuplicates(sorted);
    next := unique[..Min(limit, |unique|)];
    BatchStep(closest, batch, limit, earlier, sorted);
  }

  /** Cutting the deduplicated list loses nothing: a document that an earlier cut dropped either
      comes back with its true best embedding or stays behind `limit` better documents. */
  lemma BatchStep(top: seq<Hit>, batch: seq<Hit>, limit: nat, earlier: seq<Hit>, sorted: seq<Hit>)
    requires IsTop(top, earlier, limit)
    requires multiset(sorted) == multiset(top + batch) && Sorted(sorted)
    ensures var unique := FirstPerDoc(sorted);
      IsTop(unique[..Min(limit, |unique|)], earlier + batch, limit)
  {
    var unique := FirstPerDoc(sorted);
    var next := unique[..Min(limit, |unique|)];
    FirstPerDocIsBest(sorted);
    FirstPerDocIsSorted(sorted);
    FirstPerDocKeepsDocs(sorted);
    PermutationMembers(sorted, top + batch);
    forall h | h in next
      ensures IsBest(h, earlier + batch)
    {
      var p :| 0 <= p < |next| && unique[p] == h;
      assert h in unique;
      assert h in earlier + batch;
      forall o | o in earlier + batch && o.doc == h.doc
        ensures o.sim <= h.sim
      {
        Survives(top, batch, limit, earlier, unique, sorted, o);
        if o.doc !in Docs(top) && o !in batch {
          assert unique[p].sim >= o.sim;
        }
      }
    }
    forall o | o in earlier + batch && o.doc !in Docs(next)
      ensures |next| == limit && forall h | h in next :: o.sim <= h.sim
    {
      Survives(top, batch, limit, earlier, unique, sorted, o);
      if o.doc in Docs(top) || o in batch {
        var d :| d in unique && d.doc == o.doc && d.sim >= o.sim;
      }
    }
  }

  /** Where a hit seen so far can be after deduplication. */
  lemma Survives(top: seq<Hit>, batch: seq<Hit>, limit: nat, earlier: seq<Hit>,
                 unique: seq<Hit>, sorted: seq<Hit>, o: Hit)
    requires IsTop(top, earlier, limit) && o in earlier + batch
    requires forall h :: h in sorted <==> h in top + batch
    requires Docs(unique) == Docs(sorted) && DistinctDocs(unique) && Sorted(unique)
    requires forall h | h in unique :: IsBest(h, sorted)
    ensures o.doc in Docs(top) || o in batch ==>
              exists d | d in unique :: d.doc == o.doc && d.sim >= o.sim
    ensures o.doc !in Docs(top) && o !in batch ==>
              |unique| >= limit && forall i :: 0 <= i < limit ==> unique[i].sim >= o.sim
  {
    forall t | t in sorted
      ensures exists d | d in unique :: d.doc == t.doc && d.sim >= t.sim
    {
      assert t.doc in Docs(unique);
      var d :| d in unique && d.doc == t.doc;
    }
    if o in batch {
      assert o in sorted;
    } else if o.doc in Docs(top) {
      var t :| t in top && t.doc == o.doc;
      assert IsBest(t, earlier);
      assert t in sorted;
    } else {
      forall c | c in top
        ensures exists d | d in unique :: d.doc == c.doc && d.sim >= o.sim
      {
        assert c in sorted;
      }
      ManyAbove(top, unique, o.sim);
    }
  }

  /** The whole batched query: any batches, any outcome of the unstable sort. */
  method Rank(batches: seq<seq<Hit>>, limit: nat) returns (closest: seq<Hit>)
    ensures IsTop(closest, Flatten(batches), limit)
  {
    closest := [];
    for n := 0 to |batches|
      invariant IsTop(closest, Flatten(batches[..n]), limit)
    {
      FlattenSnoc(batches[..n], batches[n]);
      assert batches[..n + 1] == batches[..n] + [batches[n]];
      closest := RankBatch(closest, batches[n], limit, Flatten(batches[..n]));
    }
    assert batches[..|batches|] == batches;
  }

  // ----- what "valid top list" means

  /** With more hits to choose from, no position of the list gets worse. */
  lemma TopDominates(r1: seq<Hit>, hits1: seq<Hit>, r2: seq<Hit>, hits2: seq<Hit>, limit: nat)
    requires IsTop(r1, hits1, limit) && IsTop(r2, hits2, limit)
    requires forall h | h in hits1 :: h in hits2
    ensures |r1| <= |r2|
    ensures forall i :: 0 <= i < |r1| ==> r1[i].sim <= r2[i].sim
  {
    forall i | 0 <= i < |r1|
      ensures i < |r2| && r1[i].sim <= r2[i].sim
    {
      DominatesAt(r1, hits1, r2, hits2, limit, i);
    }
    if r1 != [] {
      DominatesAt(r1, hits1, r2, hits2, limit, |r1| - 1);
    }
  }

  lemma DominatesAt(r1: seq<Hit>, hits1: seq<Hit>, r2: seq<Hit>, hits2: seq<Hit>, limit: nat, i: nat)
    requires IsTop(r1, hits1, limit) && IsTop(r2, hits2, limit)
    requires forall h | h in hits1 :: h in hits2
    requires i < |r1|
    ensures i < |r2| && r1[i].sim <= r2[i].sim
  {
    var v := r1[i].sim;
    if !(i < |r2| && v <= r2[i].sim) {
      var crowd := r1[..i + 1];
      assert i < |r2| ==> r2[i] in r2;
      forall c | c in crowd
        ensures exists d | d in r2 :: d.doc == c.doc && d.sim >= v
      {
        var j :| 0 <= j <= i && r1[j] == c;
        assert IsBest(c, hits1);
        if c.doc in Docs(r2) {
          var d :| d in r2 && d.doc == c.doc;
          assert IsBest(d, hits2);
        }
      }
      ManyAbove(crowd, r2, v);
      assert false;
    }
  }

  /** Any two valid answers agree on every similarity, so batching and the unstable sort can only
      permute documents that tie. */
  lemma TopUpToTies(r1: seq<Hit>, r2: seq<Hit>, hits: seq<Hit>, limit: nat)
    requires IsTop(r1, hits, limit) && IsTop(r2, hits, limit)
    ensures |r1| == |r2|
    ensures forall i :: 0 <= i < |r1| ==> r1[i].sim == r2[i].sim
  {
    TopDominates(r1, hits, r2, hits, limit);
    TopDominates(r2, hits, r1, hits, limit);
  }

  /** A cut of the ranking of all documents is a valid answer. */
  lemma RankingPrefixIsTop(ranking: seq<Hit>, hits: seq<Hit>, limit: nat)
    requires IsRanking(ranking, hits)
    ensures IsTop(ranking[..Min(limit, |ranking|)], hits, limit)
  {
    var cut := ranking[..Min(limit, |ranking|)];
    forall o | o in hits && o.doc !in Docs(cut)
      ensures |cut| == limit && forall h | h in cut :: o.sim <= h.sim
    {
      assert o.doc in Docs(hits);
      var d :| d in ranking && d.doc == o.doc;
      assert IsBest(d, hits);
    }
  }

  /** Batched search is the simple ranking: the list has min(limit, number of documents) entries,
      position i carries the i-th best similarity, and without ties it is the cut itself. */
  lemma BatchedIsRanking(closest: seq<Hit>, ranking: seq<Hit>, hits: seq<Hit>, limit: nat)
    requires IsTop(closest, hits, limit) && IsRanking(ranking, hits)
    ensures |closest| == Min(limit, |Docs(hits)|)
    ensures |ranking| == |Docs(hits)|
    ensures forall i :: 0 <= i < |closest| ==> closest[i].sim == ranking[i].sim
    ensures StrictlySorted(ranking) ==> closest == ranking[..|closest|]
  {
    var cut := ranking[..Min(limit, |ranking|)];
    RankingPrefixIsTop(ranking, hits, limit);
    TopUpToTies(closest, cut, hits, limit);
    DocsExactly(ranking);
    assert forall i :: 0 <= i < |closest| ==> cut[i] == ranking[i];
    if StrictlySorted(ranking) {
      forall i | 0 <= i < |closest|
        ensures closest[i] == ranking[i]
      {
        assert IsBest(closest[i], hits);
        StrictPosition(ranking, hits, closest[i], i);
      }
    }
  }

  /** In a ranking without ties the similarity tells the entry. */
  lemma StrictPosition(ranking: seq<Hit>, hits: seq<Hit>, h: Hit, i: nat)
    requires IsRanking(ranking, hits) && StrictlySorted(ranking) && i < |ranking|
    requires IsBest(h, hits) && h.sim == ranking[i].sim
    ensures h == ranking[i]
  {
    assert h.doc in Docs(hits);
    var j := DocAt(ranking, h.doc);
    assert ranking[j] in ranking;
    assert IsBest(ranking[j], hits);
  }

  // ----- pages

  /** Entries [from, to) of a list, as far as they exist. */
  function Slice<T>(s: seq<T>, from: nat, to: nat): seq<T>
    requires from <= to
  {
    s[Min(from, |s|)..Min(to, |s|)]
  }

  /** The response loop: skip `offset` entries, copy the others into a buffer of `count` entries.
      The write index `idx - skipCount` stays inside the buffer because the list was cut at
      `count + offset`. */
  method CreateResponse(closest: seq<Hit>, count: nat, offset: nat) returns (page: seq<Hit>)
    requires |closest| <= count + offset
    ensures page == Slice(closest, offset, offset + count)
    ensures |page| == Max(0, |closest| - offset) && forall i :: 0 <= i < |page| ==> page[i] == closest[offset + i]
  {
    var documents := new Hit[count](_ => Hit(0, 0.0));
    var skipCount, addCount := 0, 0;
    for idx := 0 to |closest|
      invariant skipCount == Min(idx, offset) && addCount == idx - skipCount
      invariant addCount <= count
      invariant documents[..addCount] == closest[skipCount..idx]
    {
      if idx < offset {
        skipCount := skipCount + 1;
      } else {
        addCount := addCount + 1;
        documents[idx - skipCount] := closest[idx];
        assert documents[..addCount - 1] == closest[skipCount..idx];
      }
    }
    page := documents[..addCount];
  }

  /** `closest` is a valid list for the page of `count` entries at `offset`. */
  ghost predicate Covers(closest: seq<Hit>, hits: seq<Hit>, count: nat, offset: nat) {
    IsTop(closest, hits, offset + count)
  }

  /** `page` is a valid answer to the request for `count` entries at `offset`. */
  ghost predicate IsPage(page: seq<Hit>, hits: seq<Hit>, count: nat, offset: nat) {
    exists closest :: Covers(closest, hits, count, offset) && page == Slice(closest, offset, offset + count)
  }

  /** Without ties a page is exactly its stretch of the ranking. */
  lemma PageOfRanking(page: seq<Hit>, ranking: seq<Hit>, hits: seq<Hit>, count: nat, offset: nat)
    requires IsPage(page, hits, count, offset)
    requires IsRanking(ranking, hits) && StrictlySorted(ranking)
    ensures page == Slice(ranking, offset, offset + count)
  {
    var closest :| Covers(closest, hits, count, offset) && page == Slice(closest, offset, offset + count);
    BatchedIsRanking(closest, ranking, hits, offset + count);
  }

  /** Page number `n` of a list, in pages of `count`. */
  function PageAt(s: seq<Hit>, count: nat, n: nat): seq<Hit> {
    Slice(s, n * count, n * count + count)
  }

  /** Without ties the pages of one size, requested one after the other, tile the ranking. */
  lemma PagesTile(pages: seq<seq<Hit>>, ranking: seq<Hit>, hits: seq<Hit>, count: nat)
    requires IsRanking(ranking, hits) && StrictlySorted(ranking)
    requires forall n: nat :: n < |pages| ==> IsPageNumber(pages[n], hits, count, n)
    ensures Flatten(pages) == Slice(ranking, 0, |pages| * count)
  {
    forall n: nat | n < |pages| ensures pages[n] == PageAt(ranking, count, n) {
      PageNumberOfRanking(pages[n], ranking, hits, count, n);
    }
    SlicesTile(pages, ranking, count);
  }

  lemma PageNumberOfRanking(page: seq<Hit>, ranking: seq<Hit>, hits: seq<Hit>, count: nat, n: nat)
    requires IsPageNumber(page, hits, count, n)
    requires IsRanking(ranking, hits) && StrictlySorted(ranking)
    ensures page == PageAt(ranking, count, n)
  {
    PageOfRanking(page, ranking, hits, count, n * count);
  }

  ghost predicate IsPageNumber(page: seq<Hit>, hits: seq<Hit>, count: nat, n: nat) {
    IsPage(page, hits, count, n * count)
  }

  lemma {:induction false} SlicesTile(pages: seq<seq<Hit>>, ranking: seq<Hit>, count: nat)
    requires forall n: nat :: n < |pages| ==> pages[n] == PageAt(ranking, count, n)
    ensures Flatten(pages) == Slice(ranking, 0, |pages| * count)
  {
    if pages == [] {
    } else {
      var n := |pages| - 1;
      SlicesTile(pages[..n], ranking, count);
      assert pages == pages[..n] + [pages[n]];
      FlattenSnoc(pages[..n], pages[n]);
      LastPage(ranking, count, n);
    }
  }

  lemma LastPage(ranking: seq<Hit>, count: nat, n: nat)
    ensures Slice(ranking, 0, n * count) + PageAt(ranking, count, n) == Slice(ranking, 0, (n + 1) * count)
  {
    NextStart(n, count);
  }

  lemma NextStart(n: nat, count: nat)
    ensures (n + 1) * count == n * count + count
  {
  }

  /** `first` and `second` list no document twice between them. */
  ghost predicate NoOverlap(first: seq<Hit>, second: seq<Hit>) {
    forall a, b | a in first && b in second :: a.doc != b.doc
  }

  /** Two consecutive pages never share a document, whatever the sorts did, exactly when the
      ranking has no tie across the boundary between them. */
  lemma PagesDisjointIff(ranking: seq<Hit>, hits: seq<Hit>, count: nat, offset: nat, boundary: nat)
    requires IsRanking(ranking, hits) && count > 0 && boundary == offset + count < |ranking|
    ensures (forall p1, p2 :: IsPage(p1, hits, count, offset) && IsPage(p2, hits, count, boundary) ==>
               NoOverlap(p1, p2))
            <==> ranking[boundary - 1].sim > ranking[boundary].sim
  {
    if ranking[boundary - 1].sim > ranking[boundary].sim {
      forall p1, p2 | IsPage(p1, hits, count, offset) && IsPage(p2, hits, count, boundary)
        ensures NoOverlap(p1, p2)
      {
        GapSeparates(ranking, hits, count, offset, boundary, p1, p2);
      }
    } else {
      var p1, p2 := TieOverlaps(ranking, hits, count, offset, boundary);
    }
  }

  lemma GapSeparates(ranking: seq<Hit>, hits: seq<Hit>, count: nat, offset: nat, boundary: nat,
                     p1: seq<Hit>, p2: seq<Hit>)
    requires IsRanking(ranking, hits) && 0 < boundary == offset + count < |ranking|
    requires ranking[boundary - 1].sim > ranking[boundary].sim
    requires IsPage(p1, hits, count, offset) && IsPage(p2, hits, count, boundary)
    ensures NoOverlap(p1, p2)
  {
    var first :| Covers(first, hits, count, offset) && p1 == Slice(first, offset, offset + count);
    var second :| Covers(second, hits, count, boundary) && p2 == Slice(second, boundary, boundary + count);
    forall a, b | a in p1 && b in p2
      ensures a.doc != b.doc
    {
      var i := SliceIndex(first, offset, count, a);
      var j := SliceIndex(second, boundary, count, b);
      GapBetween(ranking, hits, boundary, first, i, second, boundary + count, j);
    }
  }

  lemma GapBetween(ranking: seq<Hit>, hits: seq<Hit>, boundary: nat,
                   first: seq<Hit>, i: nat, second: seq<Hit>, limit: nat, j: nat)
    requires IsRanking(ranking, hits) && 0 < boundary < |ranking|
    requires ranking[boundary - 1].sim > ranking[boundary].sim
    requires IsTop(first, hits, boundary) && i < |first|
    requires IsTop(second, hits, limit) && boundary <= j < |second|
    ensures first[i].doc != second[j].doc
  {
    TopMatchesRanking(first, ranking, hits, boundary, i);
    TopMatchesRanking(second, ranking, hits, limit, j);
    assert ranking[i].sim >= ranking[boundary - 1].sim;
    assert ranking[boundary].sim >= ranking[j].sim;
  }

  lemma TopMatchesRanking(closest: seq<Hit>, ranking: seq<Hit>, hits: seq<Hit>, limit: nat, i: nat)
    requires IsTop(closest, hits, limit) && IsRanking(ranking, hits) && i < |closest|
    ensures IsBest(closest[i], hits) && i < |ranking| && closest[i].sim == ranking[i].sim
  {
    BatchedIsRanking(closest, ranking, hits, limit);
    assert closest[i] in closest;
  }

  lemma SliceIndex(s: seq<Hit>, from: nat, count: nat, h: Hit) returns (j: nat)
    requires h in Slice(s, from, from + count)
    ensures from <= j < |s| && s[j] == h && h in s
  {
    var page := Slice(s, from, from + count);
    var i :| 0 <= i < |page| && page[i] == h;
    j := from + i;
  }

  lemma TieOverlaps(ranking: seq<Hit>, hits: seq<Hit>, count: nat, offset: nat, boundary: nat)
    returns (p1: seq<Hit>, p2: seq<Hit>)
    requires IsRanking(ranking, hits) && count > 0 && boundary == offset + count < |ranking|
    requires ranking[boundary - 1].sim <= ranking[boundary].sim
    ensures IsPage(p1, hits, count, offset) && IsPage(p2, hits, count, boundary)
    ensures !NoOverlap(p1, p2)
  {
    var swapped := SwapTie(ranking, hits, boundary - 1, boundary);
    p1 := RankingPage(ranking, hits, count, offset);
    p2 := RankingPage(swapped, hits, count, boundary);
    EdgesMeet(p1, p2, ranking, swapped, count, offset, boundary);
  }

  /** The page cut out of a ranking is valid. */
  lemma RankingPage(ranking: seq<Hit>, hits: seq<Hit>, count: nat, offset: nat) returns (page: seq<Hit>)
    requires IsRanking(ranking, hits)
    ensures page == Slice(ranking, offset, offset + count) && IsPage(page, hits, count, offset)
  {
    RankingPrefixIsTop(ranking, hits, offset + count);
    var closest := ranking[..Min(offset + count, |ranking|)];
    assert Covers(closest, hits, count, offset);
    page := Slice(closest, offset, offset + count);
  }

  lemma EdgesMeet(p1: seq<Hit>, p2: seq<Hit>, first: seq<Hit>, second: seq<Hit>,
                  count: nat, offset: nat, boundary: nat)
    requires count > 0 && boundary == offset + count < |first| && boundary < |second|
    requires p1 == Slice(first, offset, offset + count) && p2 == Slice(second, boundary, boundary + count)
    requires first[boundary - 1] == second[boundary]
    ensures !NoOverlap(p1, p2)
  {
    assert p1[count - 1] == first[boundary - 1] && p2[0] == second[boundary];
    assert p1[count - 1] in p1 && p2[0] in p2;
  }

  /** Exchanging two entries that tie gives another valid ranking. */
  lemma SwapTie(ranking: seq<Hit>, hits: seq<Hit>, i: nat, j: nat) returns (swapped: seq<Hit>)
    requires IsRanking(ranking, hits) && i < j < |ranking|
    requires ranking[i].sim <= ranking[j].sim
    ensures IsRanking(swapped, hits)
    ensures swapped == ranking[i := ranking[j]][j := ranking[i]]
  {
    swapped := ranking[i := ranking[j]][j := ranking[i]];
    assert multiset(swapped) == multiset(ranking);
    forall a, b | 0 <= a < b < |swapped| ensures swapped[a].sim >= swapped[b].sim {
      assert ranking[i].sim == ranking[j].sim;
      assert swapped[a].sim == ranking[a].sim && swapped[b].sim == ranking[b].sim;
    }
    assert DistinctDocs(swapped);
    PermutedRanking(ranking, swapped, hits);
  }

  lemma PermutedRanking(ranking: seq<Hit>, other: seq<Hit>, hits: seq<Hit>)
    requires IsRanking(ranking, hits)
    requires |other| == |ranking| && multiset(other) == multiset(ranking)
    requires Sorted(other) && DistinctDocs(other)
    ensures IsRanking(other, hits)
  {
    PermutationMembers(other, ranking);
    assert Docs(other) == Docs(ranking);
  }

  // ----- choosing more or fewer

  /** Sorting entries of different documents is ranking them. */
  lemma SortedIsRanking(sorted: seq<Hit>, hits: seq<Hit>)
    requires multiset(sorted) == multiset(hits) && Sorted(sorted) && DistinctDocs(hits)
    ensures IsRanking(sorted, hits)
  {
    PermutationMembers(hits, sorted);
    assert Docs(sorted) == Docs(hits);
    forall h | h in sorted ensures IsBest(h, hits) {
      OnlyOne(hits, h);
    }
    assert Distinct(hits);
    forall i, j | 0 <= i < j < |sorted| ensures sorted[i].doc != sorted[j].doc {
      assert sorted[i] in hits && sorted[j] in hits;
      OnlyOne(hits, sorted[i]);
    }
  }

  lemma OnlyOne(hits: seq<Hit>, h: Hit)
    requires DistinctDocs(hits) && h in hits
    ensures forall o | o in hits && o.doc == h.doc :: o == h
  {
    var i :| 0 <= i < |hits| && hits[i] == h;
    forall o | o in hits && o.doc == h.doc ensures o == h {
      var j :| 0 <= j < |hits| && hits[j] == o;
    }
  }

  /** A list as long as the choice leaves nothing out. */
  lemma ChoosingAll(top: seq<Hit>, hits: seq<Hit>)
    requires IsTop(top, hits, |hits|)
    ensures Docs(top) == Docs(hits)
  {
    forall o | o in hits ensures o.doc in Docs(top) {
      if o.doc !in Docs(top) {
        DocsExactly(top);
        DocsAtMost(hits);
        forall h | h in top ensures h.doc in Docs(hits) {
          assert IsBest(h, hits);
        }
        SubsetCard(Docs(top) + {o.doc}, Docs(hits));
      }
    }
    forall h | h in top ensures h.doc in Docs(hits) {
      assert IsBest(h, hits);
    }
  }

  /** A document better than rank `more` is in every list of `more` documents. */
  lemma MustBeListed(ranking: seq<Hit>, hits: seq<Hit>, top: seq<Hit>, more: nat, h: Hit)
    requires IsRanking(ranking, hits) && IsTop(top, hits, more) && IsBest(h, hits)
    requires more < |ranking| ==> h.sim > ranking[more].sim
    ensures h.doc in Docs(top)
  {
    if h.doc !in Docs(top) {
      var crowd := top + [h];
      forall i | 0 <= i < |top| ensures top[i].doc != h.doc {
        assert top[i] in top;
      }
      assert DistinctDocs(crowd);
      forall c | c in crowd ensures exists d | d in ranking :: d.doc == c.doc && d.sim >= h.sim {
        assert IsBest(c, hits);
        assert c.doc in Docs(hits);
        var q := DocAt(ranking, c.doc);
        assert ranking[q] in ranking && IsBest(ranking[q], hits);
      }
      ManyAbove(crowd, ranking, h.sim);
    }
  }

  /** The `fewer` best are among the `more` best, whatever the sorts did, exactly when everything is
      chosen or no tie reaches from inside the fewer to outside the more. */
  lemma ChoicesNestIff(ranking: seq<Hit>, hits: seq<Hit>, fewer: nat, more: nat)
    requires IsRanking(ranking, hits) && 0 < fewer <= more && fewer <= |ranking|
    ensures (forall t1, t2 :: IsTop(t1, hits, fewer) && IsTop(t2, hits, more) ==> Docs(t1) <= Docs(t2))
            <==> more >= |ranking| || ranking[fewer - 1].sim > ranking[more].sim
  {
    if more >= |ranking| || ranking[fewer - 1].sim > ranking[more].sim {
      forall t1, t2 | IsTop(t1, hits, fewer) && IsTop(t2, hits, more)
        ensures Docs(t1) <= Docs(t2)
      {
        GapNests(ranking, hits, fewer, more, t1, t2);
      }
    } else {
      var t1, t2 := TieEscapes(ranking, hits, fewer, more);
    }
  }

  lemma GapNests(ranking: seq<Hit>, hits: seq<Hit>, fewer: nat, more: nat, t1: seq<Hit>, t2: seq<Hit>)
    requires IsRanking(ranking, hits) && 0 < fewer <= more && fewer <= |ranking|
    requires more >= |ranking| || ranking[fewer - 1].sim > ranking[more].sim
    requires IsTop(t1, hits, fewer) && IsTop(t2, hits, more)
    ensures Docs(t1) <= Docs(t2)
  {
    forall doc | doc in Docs(t1) ensures doc in Docs(t2) {
      var i := DocAt(t1, doc);
      TopMatchesRanking(t1, ranking, hits, fewer, i);
      assert ranking[i].sim >= ranking[fewer - 1].sim;
      MustBeListed(ranking, hits, t2, more, t1[i]);
    }
  }

  lemma TieEscapes(ranking: seq<Hit>, hits: seq<Hit>, fewer: nat, more: nat) returns (t1: seq<Hit>, t2: seq<Hit>)
    requires IsRanking(ranking, hits) && 0 < fewer <= more < |ranking|
    requires ranking[fewer - 1].sim <= ranking[more].sim
    ensures IsTop(t1, hits, fewer) && IsTop(t2, hits, more) && !(Docs(t1) <= Docs(t2))
  {
    var swapped := SwapTie(ranking, hits, fewer - 1, more);
    RankingPrefixIsTop(ranking, hits, fewer);
    RankingPrefixIsTop(swapped, hits, more);
    t1, t2 := ranking[..fewer], swapped[..more];
    var lost := ranking[fewer - 1];
    assert lost in t1;
    forall h | h in t2 ensures h.doc != lost.doc {
      var q :| 0 <= q < more && swapped[q] == h;
      assert swapped[more] == lost;
    }
    assert lost.doc in Docs(t1) && lost.doc !in Docs(t2);
  }

  /** A valid list depends only on which hits there are, not on their order. */
  lemma TopOfSameHits(top: seq<Hit>, hits1: seq<Hit>, hits2: seq<Hit>, limit: nat)
    requires IsTop(top, hits1, limit) && forall h :: h in hits1 <==> h in hits2
    ensures IsTop(top, hits2, limit)
  {
    forall h | h in top ensures IsBest(h, hits2) {
      assert IsBest(h, hits1);
    }
  }
}
