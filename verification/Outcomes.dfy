/** Which lists the batched query can end with: exactly the valid ones. What is proved for all valid
    lists is therefore about the outcomes of the unstable sort, and nothing else. */
module Outcomes {
  import opened Sequences
  import opened Ranking

  // ----- outcomes

  function Cut(hits: seq<Hit>, limit: nat): seq<Hit> { hits[..Min(limit, |hits|)] }

  /** One callback can turn `closest` into `next`: for some outcome of the sort. */
  ghost predicate BatchOutcome(closest: seq<Hit>, batch: seq<Hit>, next: seq<Hit>, limit: nat) {
    exists sorted :: IsSorting(sorted, closest + batch) && next == Cut(FirstPerDoc(sorted), limit)
  }

  ghost predicate IsSorting(sorted: seq<Hit>, hits: seq<Hit>) {
    multiset(sorted) == multiset(hits) && Sorted(sorted)
  }

  /** The query can end with `closest` after these batches. */
  ghost predicate Outcome(batches: seq<seq<Hit>>, closest: seq<Hit>, limit: nat)
    decreases |batches|
  {
    if batches == [] then closest == []
    else
      var n := |batches| - 1;
      exists before :: Outcome(batches[..n], before, limit) && BatchOutcome(before, batches[n], closest, limit)
  }

  // ----- inserting into a sorted list

  function InsertAt(s: seq<Hit>, p: nat, h: Hit): seq<Hit>
    requires p <= |s|
  {
    s[..p] + [h] + s[p..]
  }

  lemma InsertedAt(s: seq<Hit>, p: nat, h: Hit)
    requires p <= |s|
    ensures |InsertAt(s, p, h)| == |s| + 1 && multiset(InsertAt(s, p, h)) == multiset(s) + multiset{h}
    ensures forall i :: 0 <= i <= |s| ==>
              InsertAt(s, p, h)[i] == if i < p then s[i] else if i == p then h else s[i - 1]
  {
    assert s == s[..p] + s[p..];
  }

  /** The place of `h`, in front of its ties or behind them. */
  lemma PlaceFor(s: seq<Hit>, h: Hit, front: bool) returns (p: nat)
    requires Sorted(s)
    ensures p <= |s|
    ensures forall i :: 0 <= i < p ==> s[i].sim >= h.sim && (front ==> s[i].sim > h.sim)
    ensures forall i :: p <= i < |s| ==> s[i].sim <= h.sim && (!front ==> s[i].sim < h.sim)
  {
    p := 0;
    while p < |s| && (s[p].sim > h.sim || (!front && s[p].sim == h.sim))
      invariant 0 <= p <= |s|
      invariant forall i :: 0 <= i < p ==> s[i].sim >= h.sim && (front ==> s[i].sim > h.sim)
    {
      p := p + 1;
    }
  }

  lemma InsertedIsSorted(s: seq<Hit>, p: nat, h: Hit)
    requires Sorted(s) && p <= |s|
    requires forall i :: 0 <= i < p ==> s[i].sim >= h.sim
    requires forall i :: p <= i < |s| ==> s[i].sim <= h.sim
    ensures Sorted(InsertAt(s, p, h))
  {
    InsertedAt(s, p, h);
  }

  // ----- deduplication is stable under insertion

  lemma {:induction false} FirstPerDocGrows(a: seq<Hit>, b: seq<Hit>)
    ensures FirstPerDoc(a) <= FirstPerDoc(a + b)
    decreases |b|
  {
    if b == [] {
      assert a + b == a;
    } else {
      var n := |b| - 1;
      FirstPerDocGrows(a, b[..n]);
      assert (a + b)[..|a + b| - 1] == a + b[..n];
    }
  }

  /** A further entry of a document already seen changes nothing. */
  lemma {:induction false} SeenIsSkipped(a: seq<Hit>, o: Hit, b: seq<Hit>)
    requires o.doc in Docs(a)
    ensures FirstPerDoc(a + [o] + b) == FirstPerDoc(a + b)
    decreases |b|
  {
    if b == [] {
      assert a + [o] + b == a + [o] && a + b == a;
    } else {
      var n := |b| - 1;
      SeenIsSkipped(a, o, b[..n]);
      SameDocs(a, o, b[..n]);
      assert a + [o] + b == a + [o] + b[..n] + [b[n]] && a + b == a + b[..n] + [b[n]];
    }
  }

  lemma SameDocs(a: seq<Hit>, o: Hit, b: seq<Hit>)
    requires o.doc in Docs(a)
    ensures Docs(a + [o] + b) == Docs(a + b)
  {
    forall d ensures d in Docs(a + [o] + b) <==> d in Docs(a + b) {
      if d in Docs(a + [o] + b) {
        var h :| h in a + [o] + b && h.doc == d;
        assert h == o || h in a + b;
        if h == o {
          var g :| g in a && g.doc == d;
          assert g in a + b;
        }
      }
      if d in Docs(a + b) {
        var h :| h in a + b && h.doc == d;
        assert h in a + [o] + b;
      }
    }
  }

  lemma {:induction false} OnlyFirsts(hits: seq<Hit>)
    requires DistinctDocs(hits)
    ensures FirstPerDoc(hits) == hits
  {
    if hits == [] {
    } else {
      var n := |hits| - 1;
      OnlyFirsts(hits[..n]);
      assert hits == hits[..n] + [hits[n]];
    }
  }

  /** Both are prefixes of the same list and one has at least as many documents. */
  lemma LongerPrefix(top: seq<Hit>, a: seq<Hit>, unique: seq<Hit>)
    requires top <= unique && FirstPerDoc(a) <= unique
    requires DistinctDocs(top) && Docs(top) <= Docs(a)
    ensures top <= FirstPerDoc(a)
  {
    DocsExactly(top);
    FirstPerDocKeepsDocs(a);
    DocsAtMost(FirstPerDoc(a));
    SubsetCard(Docs(top), Docs(FirstPerDoc(a)));
  }

  // ----- one batch

  /** Behind the list so far: its entries and the entries it may be mixed with. */
  ghost predicate Leads(top: seq<Hit>, sorted: seq<Hit>, rest: multiset<Hit>) {
    multiset(sorted) == multiset(top) + rest && Sorted(sorted) && top <= FirstPerDoc(sorted)
  }

  /** Sorting one more entry in behind its ties keeps `top` in front. */
  lemma InsertKeepsTop(top: seq<Hit>, sorted: seq<Hit>, rest: multiset<Hit>, o: Hit) returns (sorted': seq<Hit>)
    requires Leads(top, sorted, rest) && DistinctDocs(top)
    requires forall h | h in top :: h.doc == o.doc || o.doc !in Docs(top) ==> o.sim <= h.sim
    ensures Leads(top, sorted', rest + multiset{o})
  {
    var p := PlaceFor(sorted, o, false);
    sorted' := InsertAt(sorted, p, o);
    InsertedAt(sorted, p, o);
    InsertedIsSorted(sorted, p, o);
    BehindTop(top, sorted, rest, o, p);
    assert multiset(sorted') == multiset(top) + (rest + multiset{o});
  }

  lemma BeforePlace(sorted: seq<Hit>, p: nat, h: Hit, o: Hit)
    requires p <= |sorted| && h in multiset(sorted) && o.sim <= h.sim
    requires forall i :: p <= i < |sorted| ==> sorted[i].sim < o.sim
    ensures h in sorted[..p]
  {
    var i :| 0 <= i < |sorted| && sorted[i] == h;
    assert sorted[..p][i] == h;
  }

  lemma UnseenIsBehind(top: seq<Hit>, a: seq<Hit>, o: Hit, b: seq<Hit>)
    requires top <= FirstPerDoc(a + b) && DistinctDocs(top) && Docs(top) <= Docs(a)
    ensures top <= FirstPerDoc(a + [o] + b)
  {
    FirstPerDocGrows(a, b);
    LongerPrefix(top, a, FirstPerDoc(a + b));
    FirstPerDocGrows(a, [o] + b);
    assert a + ([o] + b) == a + [o] + b;
  }

  lemma BehindTop(top: seq<Hit>, sorted: seq<Hit>, rest: multiset<Hit>, o: Hit, p: nat)
    requires Leads(top, sorted, rest) && DistinctDocs(top) && p <= |sorted|
    requires forall h | h in top :: h.doc == o.doc || o.doc !in Docs(top) ==> o.sim <= h.sim
    requires forall i :: p <= i < |sorted| ==> sorted[i].sim < o.sim
    ensures top <= FirstPerDoc(InsertAt(sorted, p, o))
  {
    var a, b := sorted[..p], sorted[p..];
    assert sorted == a + b;
    if o.doc in Docs(top) {
      var h :| h in top && h.doc == o.doc;
      BeforePlace(sorted, p, h, o);
      SeenIsSkipped(a, o, b);
    } else {
      forall d | d in Docs(top) ensures d in Docs(a) {
        var h :| h in top && h.doc == d;
        BeforePlace(sorted, p, h, o);
      }
      UnseenIsBehind(top, a, o, b);
    }
  }

  lemma {:induction false} SortBehind(top: seq<Hit>, rest: seq<Hit>) returns (sorted: seq<Hit>)
    requires DistinctDocs(top) && Sorted(top)
    requires forall o, h | o in rest && h in top :: h.doc == o.doc || o.doc !in Docs(top) ==> o.sim <= h.sim
    ensures Leads(top, sorted, multiset(rest))
  {
    if rest == [] {
      sorted := top;
      OnlyFirsts(top);
    } else {
      var n := |rest| - 1;
      sorted := SortBehind(top, rest[..n]);
      sorted := InsertKeepsTop(top, sorted, multiset(rest[..n]), rest[n]);
      assert rest == rest[..n] + [rest[n]];
    }
  }

  /** Every valid list comes out of some sort of all hits. */
  lemma TopIsOutcome(top: seq<Hit>, hits: seq<Hit>, limit: nat) returns (sorted: seq<Hit>)
    requires IsTop(top, hits, limit)
    ensures IsSorting(sorted, hits) && top == Cut(FirstPerDoc(sorted), limit)
  {
    forall i, j | 0 <= i < j < |top| ensures top[i] != top[j] {
      assert top[i].doc != top[j].doc;
    }
    DistinctIsPart(top, hits);
    var rest := RestOf(hits, top);
    forall o, h | o in rest && h in top && (h.doc == o.doc || o.doc !in Docs(top)) ensures o.sim <= h.sim {
      assert o in multiset(hits);
      assert IsBest(h, hits);
    }
    sorted := SortBehind(top, rest);
    CutIsTop(top, hits, limit, sorted);
  }

  /** A list in front of all others is the cut: it is as long as the limit, or nothing follows it. */
  lemma CutIsTop(top: seq<Hit>, hits: seq<Hit>, limit: nat, sorted: seq<Hit>)
    requires IsTop(top, hits, limit) && IsSorting(sorted, hits) && top <= FirstPerDoc(sorted)
    ensures top == Cut(FirstPerDoc(sorted), limit)
  {
    FirstPerDocKeepsDocs(sorted);
    PermutationMembers(sorted, hits);
    if |top| < limit {
      forall d | d in Docs(FirstPerDoc(sorted)) ensures d in Docs(top) {
        var o :| o in sorted && o.doc == d;
      }
      FirstPerDocIsSorted(sorted);
      DocsExactly(FirstPerDoc(sorted));
      DocsAtMost(top);
      SubsetCard(Docs(FirstPerDoc(sorted)), Docs(top));
    }
  }

  // ----- a list before the last batch

  /** Among entries that tie, those of the documents stand in front. */
  ghost predicate Prefers(s: seq<Hit>, docs: set<nat>) {
    forall i, j :: 0 <= i < j < |s| && s[i].sim == s[j].sim && s[j].doc in docs ==> s[i].doc in docs
  }

  lemma {:induction false} SortPreferring(hits: seq<Hit>, docs: set<nat>) returns (sorted: seq<Hit>)
    ensures IsSorting(sorted, hits) && Prefers(sorted, docs)
  {
    if hits == [] {
      sorted := [];
    } else {
      var n := |hits| - 1;
      var before := SortPreferring(hits[..n], docs);
      var p := PlaceFor(before, hits[n], hits[n].doc in docs);
      sorted := InsertAt(before, p, hits[n]);
      InsertedAt(before, p, hits[n]);
      assert hits == hits[..n] + [hits[n]];
    }
  }

  /** Deduplication keeps the order: each entry of the result stands in the list, in the same order. */
  lemma {:induction false} FirstPerDocPrefers(hits: seq<Hit>, docs: set<nat>)
    requires Prefers(hits, docs)
    ensures Prefers(FirstPerDoc(hits), docs)
  {
    if hits == [] {
    } else {
      var n := |hits| - 1;
      var before := FirstPerDoc(hits[..n]);
      FirstPerDocPrefers(hits[..n], docs);
      FirstPerDocKeepsDocs(hits[..n]);
      forall i | 0 <= i < |before| && before[i].sim == hits[n].sim && hits[n].doc in docs
        ensures before[i].doc in docs
      {
        assert before[i] in before;
        var k :| 0 <= k < n && hits[..n][k] == before[i];
        assert hits[k].sim == hits[n].sim;
      }
    }
  }

  lemma FirstsAreRanking(sorted: seq<Hit>, hits: seq<Hit>)
    requires IsSorting(sorted, hits)
    ensures IsRanking(FirstPerDoc(sorted), hits)
  {
    FirstPerDocIsBest(sorted);
    FirstPerDocIsSorted(sorted);
    FirstPerDocKeepsDocs(sorted);
    PermutationMembers(sorted, hits);
    var unique := FirstPerDoc(sorted);
    forall h | h in unique ensures IsBest(h, hits) {
      assert IsBest(h, sorted);
    }
    assert Docs(sorted) == Docs(hits);
  }

  /** The list before a batch, chosen so that it still holds what `next` takes from the earlier hits. */
  lemma Before(next: seq<Hit>, earlier: seq<Hit>, batch: seq<Hit>, limit: nat) returns (top: seq<Hit>)
    requires IsTop(next, earlier + batch, limit)
    ensures IsTop(top, earlier, limit) && IsTop(next, top + batch, limit)
  {
    var sorted := SortPreferring(earlier, Docs(next));
    var ranking := FirstPerDoc(sorted);
    FirstsAreRanking(sorted, earlier);
    FirstPerDocPrefers(sorted, Docs(next));
    RankingPrefixIsTop(ranking, earlier, limit);
    top := ranking[..Min(limit, |ranking|)];
    forall h | h in next ensures h in top + batch {
      assert IsBest(h, earlier + batch);
      if h !in batch {
        StillThere(next, earlier, batch, limit, ranking, h);
      }
    }
    forall h | h in next ensures IsBest(h, top + batch) {
      assert IsBest(h, earlier + batch);
      forall o | o in top + batch && o.doc == h.doc ensures o.sim <= h.sim {
        assert o in top ==> IsBest(o, earlier);
        assert o in earlier + batch;
      }
    }
    forall o | o in top + batch && o.doc !in Docs(next)
      ensures |next| == limit && forall h | h in next :: o.sim <= h.sim
    {
      assert o in top ==> IsBest(o, earlier);
      assert o in earlier + batch;
    }
  }

  lemma StillThere(next: seq<Hit>, earlier: seq<Hit>, batch: seq<Hit>, limit: nat, ranking: seq<Hit>, h: Hit)
    requires IsTop(next, earlier + batch, limit) && IsRanking(ranking, earlier) && Prefers(ranking, Docs(next))
    requires h in next && h !in batch
    ensures h in ranking[..Min(limit, |ranking|)]
  {
    assert IsBest(h, earlier + batch);
    assert h in earlier && h.doc in Docs(earlier);
    var q := DocAt(ranking, h.doc);
    assert ranking[q] in ranking && IsBest(ranking[q], earlier);
    assert ranking[q].sim == h.sim;
    if q >= limit {
      var crowd := ranking[..limit];
      forall d | d in Docs(crowd) ensures d in Docs(next) && d != h.doc {
        var i := DocAt(crowd, d);
        InNext(next, earlier, batch, limit, ranking, h, q, i);
        assert ranking[i].doc != ranking[q].doc;
      }
      DocsExactly(crowd);
      DocsAtMost(next);
      SubsetCard(Docs(crowd) + {h.doc}, Docs(next));
    }
  }

  lemma InNext(next: seq<Hit>, earlier: seq<Hit>, batch: seq<Hit>, limit: nat, ranking: seq<Hit>, h: Hit,
               q: nat, i: nat)
    requires IsTop(next, earlier + batch, limit) && IsRanking(ranking, earlier) && Prefers(ranking, Docs(next))
    requires h in next && i < q < |ranking| && ranking[q].doc == h.doc && ranking[q].sim == h.sim
    ensures ranking[i].doc in Docs(next)
  {
    assert ranking[i] in ranking && IsBest(ranking[i], earlier);
    assert ranking[i] in earlier + batch;
    assert ranking[i].sim >= ranking[q].sim;
  }

  // ----- the whole query

  lemma NothingToList(closest: seq<Hit>, limit: nat)
    requires IsTop(closest, [], limit)
    ensures closest == []
  {
    assert closest != [] ==> closest[0] in closest && IsBest(closest[0], []);
  }

  /** The query can end with a list if and only if the list is valid, whatever the batches are. */
  lemma {:induction false} OutcomesAreTops(batches: seq<seq<Hit>>, closest: seq<Hit>, limit: nat)
    ensures Outcome(batches, closest, limit) <==> IsTop(closest, Flatten(batches), limit)
    decreases |batches|
  {
    if batches == [] {
      if IsTop(closest, [], limit) {
        NothingToList(closest, limit);
      }
    } else {
      var n := |batches| - 1;
      assert batches == batches[..n] + [batches[n]];
      FlattenSnoc(batches[..n], batches[n]);
      var earlier := Flatten(batches[..n]);
      if Outcome(batches, closest, limit) {
        var before :| Outcome(batches[..n], before, limit) && BatchOutcome(before, batches[n], closest, limit);
        OutcomesAreTops(batches[..n], before, limit);
        var sorted :| IsSorting(sorted, before + batches[n]) && closest == Cut(FirstPerDoc(sorted), limit);
        BatchStep(before, batches[n], limit, earlier, sorted);
      }
      if IsTop(closest, Flatten(batches), limit) {
        var before := Before(closest, earlier, batches[n], limit);
        OutcomesAreTops(batches[..n], before, limit);
        var sorted := TopIsOutcome(closest, before + batches[n], limit);
        assert BatchOutcome(before, batches[n], closest, limit);
      }
    }
  }

  /** The choice of centroids has no duplicates to remove: the cuts of sorted lists are exactly the
      valid choices. */
  lemma ChoicesAreTops(hits: seq<Hit>, chosen: seq<Hit>, limit: nat)
    requires DistinctDocs(hits)
    ensures (exists sorted :: IsSorting(sorted, hits) && chosen == Cut(sorted, limit)) <==> IsTop(chosen, hits, limit)
  {
    if sorted :| IsSorting(sorted, hits) && chosen == Cut(sorted, limit) {
      SortedIsRanking(sorted, hits);
      PermutationMembers(hits, sorted);
      RankingPrefixIsTop(sorted, hits, limit);
    }
    if IsTop(chosen, hits, limit) {
      var sorted := TopIsOutcome(chosen, hits, limit);
      SortedIsRanking(sorted, hits);
      OnlyFirsts(sorted);
      assert IsSorting(sorted, hits) && chosen == Cut(sorted, limit);
    }
  }

  /** The query for that page ends with this list. */
  ghost predicate ListOutcome(batches: seq<seq<Hit>>, closest: seq<Hit>, count: nat, offset: nat) {
    Outcome(batches, closest, offset + count)
  }

  /** The query ends with a list whose page of `count` entries at `offset` is `page`. */
  ghost predicate PageOutcome(batches: seq<seq<Hit>>, page: seq<Hit>, count: nat, offset: nat) {
    exists closest :: ListOutcome(batches, closest, count, offset) && page == Slice(closest, offset, offset + count)
  }

  lemma PageOutcomesAreValid(batches: seq<seq<Hit>>, page: seq<Hit>, count: nat, offset: nat)
    ensures PageOutcome(batches, page, count, offset) <==> IsPage(page, Flatten(batches), count, offset)
  {
    if PageOutcome(batches, page, count, offset) {
      var closest :| ListOutcome(batches, closest, count, offset) && page == Slice(closest, offset, offset + count);
      OutcomesAreTops(batches, closest, offset + count);
      assert Covers(closest, Flatten(batches), count, offset);
    }
    if IsPage(page, Flatten(batches), count, offset) {
      var closest :| Covers(closest, Flatten(batches), count, offset)
                     && page == Slice(closest, offset, offset + count);
      OutcomesAreTops(batches, closest, offset + count);
      assert ListOutcome(batches, closest, count, offset);
    }
  }

  /** Two requests for consecutive pages, each with its own sorts, never share a document if and only
      if the ranking has no tie across the boundary. */
  lemma ConsecutivePagesDisjointIff(batches: seq<seq<Hit>>, ranking: seq<Hit>, count: nat, offset: nat, boundary: nat)
    requires IsRanking(ranking, Flatten(batches)) && count > 0 && boundary == offset + count < |ranking|
    ensures (forall p1, p2 :: PageOutcome(batches, p1, count, offset) && PageOutcome(batches, p2, count, boundary)
               ==> NoOverlap(p1, p2))
            <==> ranking[boundary - 1].sim > ranking[boundary].sim
  {
    PagesDisjointIff(ranking, Flatten(batches), count, offset, boundary);
    forall page ensures PageOutcome(batches, page, count, offset) <==> IsPage(page, Flatten(batches), count, offset) {
      PageOutcomesAreValid(batches, page, count, offset);
    }
    forall page ensures PageOutcome(batches, page, count, boundary)
                        <==> IsPage(page, Flatten(batches), count, boundary) {
      PageOutcomesAreValid(batches, page, count, boundary);
    }
  }
}
