/** Moving the embeddings of a category to their nearest new centroids, and the phase that was
    meant to drop small centroids. */
module Reassignment {
  import opened Constants
  import opened Sequences
  import opened Rows
  import opened Cosine
  import Quantization
  import opened Compute
  import opened Tables

  // ----- the centroids of the category

  /** The stored centroids take the new vectors in order; missing ones are added without an id. */
  method UpdateCentroids(stored: seq<Centroid>, vectors: seq<Row>, category: nat)
    returns (updated: seq<Centroid>)
    ensures |updated| == Max(|stored|, |vectors|)
    ensures forall i :: 0 <= i < |vectors| ==> updated[i].vector == vectors[i]
    ensures forall i :: 0 <= i < |stored| ==>
              updated[i].id == stored[i].id && updated[i].category == stored[i].category
    ensures forall i :: |vectors| <= i < |stored| ==> updated[i] == stored[i]
    ensures forall i :: |stored| <= i < |updated| ==> updated[i].id == 0 && updated[i].category == category
  {
    updated := stored;
    for idx := 0 to |vectors|
      invariant |updated| == Max(|stored|, idx)
      invariant forall i :: 0 <= i < idx ==> updated[i].vector == vectors[i]
      invariant forall i :: 0 <= i < |stored| ==>
                  updated[i].id == stored[i].id && updated[i].category == stored[i].category
      invariant forall i :: idx <= i < |stored| ==> updated[i] == stored[i]
      invariant forall i :: |stored| <= i < |updated| ==> updated[i].id == 0 && updated[i].category == category
    {
      if |updated| < idx + 1 {
        updated := updated + [Centroid(0, category, vectors[idx])];
      }
      updated := updated[idx := updated[idx].(vector := vectors[idx])];
    }
  }

  // ----- update groups

  /** The ids that move to centroid `cid`, in order. */
  function Moved(updates: seq<Embedding>, newIds: seq<nat>, cid: nat): seq<nat>
    requires |updates| == |newIds|
  {
    if updates == [] then []
    else
      var n := |updates| - 1;
      Moved(updates[..n], newIds[..n], cid)
      + (if newIds[n] == cid && updates[n].centroid != cid then [updates[n].id] else [])
  }

  /** The update map of a batch: a group for each centroid that gains embeddings, and no other. */
  ghost predicate IsGrouping(groups: map<nat, seq<nat>>, updates: seq<Embedding>, newIds: seq<nat>)
    requires |updates| == |newIds|
  {
    forall cid: nat :: if cid in groups then groups[cid] == Moved(updates, newIds, cid) != []
                       else Moved(updates, newIds, cid) == []
  }

  lemma MovedSnoc(updates: seq<Embedding>, newIds: seq<nat>, u: Embedding, newId: nat, cid: nat)
    requires |updates| == |newIds|
    ensures Moved(updates + [u], newIds + [newId], cid)
         == Moved(updates, newIds, cid) + (if newId == cid && u.centroid != cid then [u.id] else [])
  {
    assert (updates + [u])[..|updates|] == updates && (newIds + [newId])[..|newIds|] == newIds;
  }

  method GroupUpdates(updates: seq<Embedding>, newIds: seq<nat>) returns (groups: map<nat, seq<nat>>)
    requires |updates| == |newIds|
    ensures IsGrouping(groups, updates, newIds)
  {
    groups := map[];
    for i := 0 to |updates|
      invariant IsGrouping(groups, updates[..i], newIds[..i])
    {
      assert updates[..i + 1] == updates[..i] + [updates[i]] && newIds[..i + 1] == newIds[..i] + [newIds[i]];
      forall cid: nat
        ensures Moved(updates[..i + 1], newIds[..i + 1], cid)
             == Moved(updates[..i], newIds[..i], cid)
                + (if newIds[i] == cid && updates[i].centroid != cid then [updates[i].id] else [])
      {
        MovedSnoc(updates[..i], newIds[..i], updates[i], newIds[i], cid);
      }
      var centroidId := newIds[i];
      if updates[i].centroid != centroidId {
        var current := if centroidId in groups then groups[centroidId] else [];
        groups := groups[centroidId := current + [updates[i].id]];
      }
    }
    assert updates[..|updates|] == updates && newIds[..|updates|] == newIds;
  }

  lemma {:induction false} MovedIff(updates: seq<Embedding>, newIds: seq<nat>, cid: nat, i: nat)
    requires |updates| == |newIds| && i < |updates| && DistinctIds(updates)
    ensures updates[i].id in Moved(updates, newIds, cid)
            <==> newIds[i] == cid && updates[i].centroid != cid
  {
    var n := |updates| - 1;
    if i < n {
      MovedIff(updates[..n], newIds[..n], cid, i);
      assert updates[i].id != updates[n].id;
    } else {
      MovedAreMembers(updates[..n], newIds[..n], cid);
      forall x | x in Moved(updates[..n], newIds[..n], cid) ensures x != updates[n].id {
        var j :| 0 <= j < n && updates[..n][j].id == x;
        assert updates[j].id != updates[n].id;
      }
    }
  }

  lemma {:induction false} MovedAreMembers(updates: seq<Embedding>, newIds: seq<nat>, cid: nat)
    requires |updates| == |newIds|
    ensures forall x | x in Moved(updates, newIds, cid) ::
              exists j :: 0 <= j < |updates| && updates[j].id == x
  {
    if updates == [] {
    } else {
      var n := |updates| - 1;
      MovedAreMembers(updates[..n], newIds[..n], cid);
      forall x | x in Moved(updates, newIds, cid)
        ensures exists j :: 0 <= j < |updates| && updates[j].id == x
      {
        if x in Moved(updates[..n], newIds[..n], cid) {
          var j :| 0 <= j < n && updates[..n][j].id == x;
          assert updates[j].id == x;
        } else {
          assert updates[n].id == x;
        }
      }
    }
  }

  /** Each embedding whose nearest centroid changed is in exactly one group, the others in none. */
  lemma GroupsPartition(groups: map<nat, seq<nat>>, updates: seq<Embedding>, newIds: seq<nat>, i: nat)
    requires |updates| == |newIds| && i < |updates| && DistinctIds(updates)
    requires IsGrouping(groups, updates, newIds)
    ensures forall cid :: cid in groups && updates[i].id in groups[cid]
              ==> cid == newIds[i] && updates[i].centroid != cid
    ensures updates[i].centroid != newIds[i] ==>
              newIds[i] in groups && updates[i].id in groups[newIds[i]]
  {
    forall cid | cid in groups && updates[i].id in groups[cid]
      ensures cid == newIds[i] && updates[i].centroid != cid
    {
      MovedIff(updates, newIds, cid, i);
    }
    MovedIff(updates, newIds, newIds[i], i);
  }

  // ----- applying the groups

  /** `UPDATE embeddings SET centroid_id = cid WHERE id IN ids`. */
  function ApplyGroup(table: map<nat, Embedding>, cid: nat, ids: seq<nat>): map<nat, Embedding> {
    map id | id in table :: if id in ids then table[id].(centroid := cid) else table[id]
  }

  /** The groups applied in the given order of centroids. */
  function ApplyAll(table: map<nat, Embedding>, groups: map<nat, seq<nat>>, order: seq<nat>): map<nat, Embedding>
    requires forall i :: 0 <= i < |order| ==> order[i] in groups
  {
    if order == [] then table
    else
      var n := |order| - 1;
      ApplyGroup(ApplyAll(table, groups, order[..n]), order[n], groups[order[n]])
  }

  ghost predicate InNone(id: nat, groups: map<nat, seq<nat>>, order: seq<nat>) {
    forall i :: 0 <= i < |order| ==> order[i] in groups ==> id !in groups[order[i]]
  }

  lemma {:induction false} UntouchedStays(table: map<nat, Embedding>, groups: map<nat, seq<nat>>, order: seq<nat>,
                                          id: nat)
    requires forall i :: 0 <= i < |order| ==> order[i] in groups
    requires id in table && InNone(id, groups, order)
    ensures id in ApplyAll(table, groups, order) && ApplyAll(table, groups, order)[id] == table[id]
  {
    if order == [] {
    } else {
      UntouchedStays(table, groups, order[..|order| - 1], id);
    }
  }

  lemma {:induction false} TouchedMoves(table: map<nat, Embedding>, groups: map<nat, seq<nat>>, order: seq<nat>,
                                        id: nat, cid: nat)
    requires forall i :: 0 <= i < |order| ==> order[i] in groups
    requires id in table && cid in order && id in groups[cid]
    requires forall other :: other in groups && id in groups[other] ==> other == cid
    ensures id in ApplyAll(table, groups, order)
    ensures ApplyAll(table, groups, order)[id] == table[id].(centroid := cid)
  {
    var n := |order| - 1;
    if cid in order[..n] {
      TouchedMoves(table, groups, order[..n], id, cid);
    } else {
      assert order[n] == cid;
      UntouchedStays(table, groups, order[..n], id);
    }
  }

  lemma {:induction false} ApplyKeepsKeys(table: map<nat, Embedding>, groups: map<nat, seq<nat>>, order: seq<nat>)
    requires forall i :: 0 <= i < |order| ==> order[i] in groups
    ensures ApplyAll(table, groups, order).Keys == table.Keys
  {
    if order == [] {
    } else {
      ApplyKeepsKeys(table, groups, order[..|order| - 1]);
    }
  }

  ghost predicate ReadFrom(table: map<nat, Embedding>, updates: seq<Embedding>) {
    forall i :: 0 <= i < |updates| ==> updates[i].id in table && table[updates[i].id] == updates[i]
  }

  /** Exactly the embeddings read have the new centroid, everything else is as before. */
  ghost predicate IsReassigned(before: map<nat, Embedding>, after: map<nat, Embedding>,
                               updates: seq<Embedding>, newIds: seq<nat>)
    requires |updates| == |newIds|
  {
    && after.Keys == before.Keys
    && (forall i :: 0 <= i < |updates| ==>
          updates[i].id in after && after[updates[i].id] == updates[i].(centroid := newIds[i]))
    && (forall id :: id in before && (forall i :: 0 <= i < |updates| ==> updates[i].id != id) ==>
          after[id] == before[id])
  }

  /** Whatever the order in which the groups are applied, every embedding ends at its new centroid. */
  lemma AnyOrderReassigns(table: map<nat, Embedding>, updates: seq<Embedding>, newIds: seq<nat>,
                          groups: map<nat, seq<nat>>, order: seq<nat>)
    requires |updates| == |newIds| && DistinctIds(updates) && ReadFrom(table, updates)
    requires IsGrouping(groups, updates, newIds)
    requires forall cid :: cid in order <==> cid in groups
    ensures IsReassigned(table, ApplyAll(table, groups, order), updates, newIds)
  {
    var after := ApplyAll(table, groups, order);
    ApplyKeepsKeys(table, groups, order);
    forall i | 0 <= i < |updates|
      ensures updates[i].id in after && after[updates[i].id] == updates[i].(centroid := newIds[i])
    {
      GroupsPartition(groups, updates, newIds, i);
      if updates[i].centroid != newIds[i] {
        TouchedMoves(table, groups, order, updates[i].id, newIds[i]);
      } else {
        UntouchedStays(table, groups, order, updates[i].id);
      }
    }
    forall id | id in table && (forall i :: 0 <= i < |updates| ==> updates[i].id != id)
      ensures after[id] == table[id]
    {
      forall i | 0 <= i < |order| && order[i] in groups ensures id !in groups[order[i]] {
        MovedAreMembers(updates, newIds, order[i]);
      }
      UntouchedStays(table, groups, order, id);
    }
  }

  /** A second pass over what the first one wrote finds nothing to update. */
  lemma SecondPassIsEmpty(updates: seq<Embedding>, newIds: seq<nat>, groups: map<nat, seq<nat>>)
    requires |updates| == |newIds| && IsGrouping(groups, updates, newIds)
    requires forall i :: 0 <= i < |updates| ==> updates[i].centroid == newIds[i]
    ensures groups == map[]
  {
    if groups != map[] {
      var cid :| cid in groups;
      NothingMoved(updates, newIds, cid);
    }
  }

  lemma {:induction false} NothingMoved(updates: seq<Embedding>, newIds: seq<nat>, cid: nat)
    requires |updates| == |newIds|
    requires forall i :: 0 <= i < |updates| ==> updates[i].centroid == newIds[i]
    ensures Moved(updates, newIds, cid) == []
  {
    if updates == [] {
    } else {
      NothingMoved(updates[..|updates| - 1], newIds[..|updates| - 1], cid);
    }
  }

  // ----- the whole pass

  /** The id of the centroid nearest to each embedding: position i of `ids` belongs to `vectors[i]`. */
  function NewIds(rows: seq<Embedding>, vectors: seq<Row>, ids: seq<nat>, dim: nat, sqrt: real -> real): (r: seq<nat>)
    requires 0 < |vectors| <= |ids| && EvenRows(vectors, dim) && EvenEmbeddings(rows, dim)
    ensures |r| == |rows|
  {
    seq(|rows|, i requires 0 <= i < |rows| =>
      ids[Nearest(DequantizeAll(vectors), Quantization.DequantizeVector(rows[i].vector), sqrt)])
  }

  /** The new id is that of the centroid nearest to the row. */
  lemma NewIdIsNearest(rows: seq<Embedding>, vectors: seq<Row>, ids: seq<nat>, dim: nat, sqrt: real -> real, i: nat)
    returns (k: nat)
    requires 0 < |vectors| <= |ids| && EvenRows(vectors, dim) && EvenEmbeddings(rows, dim) && i < |rows|
    ensures IsNearestRow(k, vectors, rows[i].vector, sqrt) && NewIds(rows, vectors, ids, dim, sqrt)[i] == ids[k]
  {
    k := Nearest(DequantizeAll(vectors), Quantization.DequantizeVector(rows[i].vector), sqrt);
    NearestRowIff(k, vectors, rows[i].vector, sqrt);
  }

  /** The groups of a map in whatever order the iteration yields them. */
  method GroupOrder(groups: map<nat, seq<nat>>) returns (order: seq<nat>)
    ensures forall cid :: cid in order <==> cid in groups
  {
    order := [];
    var todo := groups.Keys;
    while todo != {}
      invariant todo <= groups.Keys
      invariant forall cid :: cid in order <==> cid in groups && cid !in todo
      decreases todo
    {
      var cid :| cid in todo;
      order := order + [cid];
      todo := todo - {cid};
    }
  }

  /** One batch: nearest centroids, groups, and the updates in any order. */
  method ReassignBatch(table: map<nat, Embedding>, updates: seq<Embedding>, vectors: seq<Row>, ids: seq<nat>,
                       dim: nat, sqrt: real -> real)
    returns (after: map<nat, Embedding>)
    requires 0 < |vectors| <= |ids| && EvenRows(vectors, dim) && EvenEmbeddings(updates, dim)
    requires dim > 0 && IsSqrt(sqrt) && updates != []
    requires DistinctIds(updates) && ReadFrom(table, updates)
    ensures IsReassigned(table, after, updates, NewIds(updates, vectors, ids, dim, sqrt))
  {
    var centroidIndexes := NearestRows(vectors, VectorsOf(updates), dim, sqrt);
    var newIds := seq(|updates|, i requires 0 <= i < |updates| => ids[centroidIndexes[i]]);
    assert newIds == NewIds(updates, vectors, ids, dim, sqrt);
    var groups := GroupUpdates(updates, newIds);
    var order := GroupOrder(groups);
    after := ApplyAll(table, groups, order);
    AnyOrderReassigns(table, updates, newIds, groups, order);
  }

  lemma NewIdsAppend(a: seq<Embedding>, b: seq<Embedding>, vectors: seq<Row>, ids: seq<nat>, dim: nat,
                     sqrt: real -> real)
    requires 0 < |vectors| <= |ids| && EvenRows(vectors, dim)
    requires EvenEmbeddings(a, dim) && EvenEmbeddings(b, dim)
    ensures EvenEmbeddings(a + b, dim)
    ensures NewIds(a + b, vectors, ids, dim, sqrt)
         == NewIds(a, vectors, ids, dim, sqrt) + NewIds(b, vectors, ids, dim, sqrt)
  {
    var all := a + b;
    assert forall i :: 0 <= i < |a| ==> all[i] == a[i];
    assert forall i :: 0 <= i < |b| ==> all[|a| + i] == b[i];
  }

  lemma JoinReassigned(t0: map<nat, Embedding>, t1: map<nat, Embedding>, t2: map<nat, Embedding>,
                       a: seq<Embedding>, b: seq<Embedding>, ia: seq<nat>, ib: seq<nat>)
    requires |a| == |ia| && |b| == |ib| && DistinctIds(a + b)
    requires IsReassigned(t0, t1, a, ia) && IsReassigned(t1, t2, b, ib)
    ensures IsReassigned(t0, t2, a + b, ia + ib)
  {
    var all := a + b;
    forall i | 0 <= i < |all|
      ensures all[i].id in t2 && t2[all[i].id] == all[i].(centroid := (ia + ib)[i])
    {
      if i < |a| {
        forall j | 0 <= j < |b| ensures b[j].id != all[i].id {
          assert all[|a| + j] == b[j];
        }
        assert all[i].id in t1;
      } else {
        assert all[i] == b[i - |a|];
      }
    }
    forall id | id in t0 && (forall i :: 0 <= i < |all| ==> all[i].id != id)
      ensures t2[id] == t0[id]
    {
      forall i | 0 <= i < |a| ensures a[i].id != id { assert all[i] == a[i]; }
      forall i | 0 <= i < |b| ensures b[i].id != id { assert all[|a| + i] == b[i]; }
    }
  }

  lemma DistinctPrefix(a: seq<Embedding>, b: seq<Embedding>, c: seq<Embedding>)
    requires DistinctIds(a + b + c)
    ensures DistinctIds(a + b) && DistinctIds(b)
    ensures forall i, j :: 0 <= i < |a| && 0 <= j < |b| ==> a[i].id != b[j].id
  {
    var all := a + b + c;
    assert forall i :: 0 <= i < |a| ==> all[i] == a[i];
    assert forall j :: 0 <= j < |b| ==> all[|a| + j] == b[j] == (a + b)[|a| + j];
  }

  /** The whole pass over the embeddings of the category, in batches of any size: each of them ends
      at its nearest centroid. */
  method ReassignPass(table: map<nat, Embedding>, rows: seq<Embedding>, vectors: seq<Row>, ids: seq<nat>,
                      dim: nat, sqrt: real -> real, batchSize: nat)
    returns (after: map<nat, Embedding>)
    requires 0 < |vectors| <= |ids| && EvenRows(vectors, dim) && EvenEmbeddings(rows, dim)
    requires dim > 0 && IsSqrt(sqrt) && batchSize > 0
    requires DistinctIds(rows) && ReadFrom(table, rows)
    ensures IsReassigned(table, after, rows, NewIds(rows, vectors, ids, dim, sqrt))
  {
    var batches := InBatches(rows, batchSize);
    after := table;
    ghost var done: seq<Embedding> := [];
    for n := 0 to |batches|
      invariant done + Flatten(batches[n..]) == rows && EvenEmbeddings(done, dim)
      invariant IsReassigned(table, after, done, NewIds(done, vectors, ids, dim, sqrt))
    {
      var updates := batches[n];
      assert batches[n..][1..] == batches[n + 1..];
      ghost var rest := Flatten(batches[n + 1..]);
      assert done + updates + rest == rows;
      Untouched(table, after, done, updates, rest, NewIds(done, vectors, ids, dim, sqrt), dim);
      ghost var before := after;
      after := ReassignBatch(after, updates, vectors, ids, dim, sqrt);
      DistinctPrefix(done, updates, rest);
      NewIdsAppend(done, updates, vectors, ids, dim, sqrt);
      JoinReassigned(table, before, after, done, updates, NewIds(done, vectors, ids, dim, sqrt),
                     NewIds(updates, vectors, ids, dim, sqrt));
      done := done + updates;
    }
    assert batches[|batches|..] == [];
    assert done == rows;
  }

  /** The rows of a later batch are still as they were read. */
  lemma Untouched(table: map<nat, Embedding>, after: map<nat, Embedding>, done: seq<Embedding>,
                  updates: seq<Embedding>, rest: seq<Embedding>, newIds: seq<nat>, dim: nat)
    requires |done| == |newIds| && IsReassigned(table, after, done, newIds)
    requires DistinctIds(done + updates + rest) && ReadFrom(table, done + updates + rest)
    requires EvenEmbeddings(done + updates + rest, dim)
    ensures DistinctIds(updates) && ReadFrom(after, updates) && EvenEmbeddings(updates, dim)
  {
    var all := done + updates + rest;
    DistinctPrefix(done, updates, rest);
    forall j | 0 <= j < |updates|
      ensures updates[j].id in after && after[updates[j].id] == updates[j] && |updates[j].vector.codes| == dim
    {
      assert all[|done| + j] == updates[j];
    }
  }

  // ----- the drop phase

  /** A centroid with its number of embeddings. */
  datatype Counted = Counted(id: nat, vector: Row, total: nat)

  function AscendingKey(c: Counted): real { -(c.total as real) }

  predicate IsSmall(c: Counted) { c.total < CENTROID_SIZE / 10 }

  /** Fewest embeddings first. */
  ghost predicate SortedUp(results: seq<Counted>) {
    forall i, j :: 0 <= i < j < |results| ==> results[i].total <= results[j].total
  }

  /** What the phase is for: all small centroids except the largest of all. */
  function SmallOnes(results: seq<Counted>): seq<Counted> {
    if |results| <= 1 || !IsSmall(results[0]) then [] else [results[0]] + SmallOnes(results[1..])
  }

  lemma {:induction false} SmallOnesAreAllSmall(results: seq<Counted>)
    requires SortedUp(results)
    ensures var small := SmallOnes(results);
      && small <= results && (forall i :: 0 <= i < |small| ==> IsSmall(results[i]))
      && forall i :: |small| <= i < |results| - 1 ==> !IsSmall(results[i])
  {
    if |results| <= 1 || !IsSmall(results[0]) {
    } else {
      SmallOnesAreAllSmall(results[1..]);
      assert forall i :: 1 <= i < |results| ==> results[i] == results[1..][i - 1];
    }
  }

  /** Dropping nothing is what was meant exactly when there is at most one centroid or none at all is
      small. */
  lemma DropIsAsMeantIff(counted: seq<Counted>, results: seq<Counted>)
    requires multiset(results) == multiset(counted) && SortedUp(results)
    ensures SmallOnes(results) == [] <==> |counted| <= 1 || forall c :: c in counted ==> !IsSmall(c)
    ensures |results| == |counted|
  {
    PermutationMembers(counted, results);
    SmallOnesAreAllSmall(results);
    if |results| > 1 {
      assert results[0] in results;
      forall c | c in results && IsSmall(c) ensures IsSmall(results[0]) {
        var i :| 0 <= i < |results| && results[i] == c;
        assert results[0].total <= results[i].total;
      }
    }
  }

  /** The choice of the centroids to drop. The scan over the ascending list stops at the first small
      one, which is the first of all, so nothing stands before it and nothing is dropped. */
  method SelectSmall(counted: seq<Counted>) returns (oldCentroids: seq<Counted>, results: seq<Counted>)
    ensures oldCentroids == []
    ensures multiset(results) == multiset(counted)
    ensures |counted| > 1 ==> SortedUp(results)
    ensures oldCentroids == SmallOnes(results)
            <==> |counted| <= 1 || forall c :: c in counted ==> !IsSmall(c)
  {
    oldCentroids, results := [], counted;
    if |counted| <= 1 {
      return;
    }
    results := SortFunc(counted, AscendingKey);
    assert SortedUp(results) by {
      assert forall i, j :: 0 <= i < j < |results| ==> AscendingKey(results[i]) >= AscendingKey(results[j]);
    }
    DropIsAsMeantIff(counted, results);
    ghost var sorted := results;
    var idx := 0;
    while idx < |results| - 1
      invariant 0 <= idx < |results|
      invariant results == sorted && oldCentroids == []
      invariant forall i :: 0 <= i < idx ==> !IsSmall(results[i])
    {
      assert idx > 0 ==> results[0].total <= results[idx].total;
      if IsSmall(results[idx]) {
        assert results[idx..] == results;
        oldCentroids := results[..idx];
        results := results[idx..];
        break;
      }
      idx := idx + 1;
    }
  }
}
