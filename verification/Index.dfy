/** The index as a whole: which centroid an embedding may point to, over every run of uploads and
    rebuilds. */
module Index {
  import opened Sequences
  import opened Rows
  import opened Cosine
  import opened Compute
  import opened Tables
  import opened Reassignment
  import opened Upload

  /** Keys are ids, and each embedding belongs to a document and to a centroid of its category. */
  ghost predicate Placed(s: Store) {
    && (forall id :: id in s.centroids ==> s.centroids[id].id == id)
    && (forall id :: id in s.embeddings ==> IsPlaced(s, id, s.embeddings[id]))
  }

  ghost predicate IsPlaced(s: Store, id: nat, e: Embedding) {
    && e.id == id && e.document in s.documents && e.centroid in s.centroids
    && s.centroids[e.centroid].category == s.documents[e.document]
  }

  /** A list of centroids of the category, as read from the table or from the cache. */
  ghost predicate ListedFor(s: Store, category: nat, listed: seq<Centroid>) {
    forall i :: 0 <= i < |listed| ==>
      listed[i].id in s.centroids && s.centroids[listed[i].id].category == category
  }

  /** The embeddings of a category, in any order. */
  ghost predicate IsCategory(s: Store, category: nat, rows: seq<Embedding>) {
    forall e :: e in rows <==>
      e.id in s.embeddings && s.embeddings[e.id] == e
      && e.document in s.documents && s.documents[e.document] == category
  }

  /** The embedding rows of an upload: the pieces of each document, under the ids the database gives
      them one after the other. */
  function NewRows(docIds: seq<nat>, groups: seq<seq<Piece>>, ids: seq<nat>): (rows: seq<Embedding>)
    requires |docIds| == |groups| && |ids| == |Flatten(groups)|
    ensures |rows| == |ids|
    decreases |groups|
  {
    if groups == [] then []
    else
      var n := |groups[0]|;
      RowsOfOne(docIds[0], groups[0], ids[..n]) + NewRows(docIds[1..], groups[1..], ids[n..])
  }

  function RowsOfOne(doc: nat, pieces: seq<Piece>, ids: seq<nat>): (rows: seq<Embedding>)
    requires |ids| == |pieces|
    ensures |rows| == |ids|
  {
    seq(|pieces|, j requires 0 <= j < |pieces| => Embedding(ids[j], doc, pieces[j].centroid, pieces[j].vector))
  }

  /** What changes the tables: the first centroid of a category; new documents with their pieces;
      centroids saved with new vectors or as new rows, at the start of a rebuild and again when they
      are recentred; and the reassignment of a category to the saved centroids. */
  datatype Op =
    | FirstCentroid(c: Centroid)
    | AddDocuments(category: nat, docIds: seq<nat>, groups: seq<seq<Piece>>, ids: seq<nat>, listed: seq<Centroid>)
    | SaveCentroids(category: nat, saved: seq<Centroid>)
    | ReassignAll(category: nat, rows: seq<Embedding>, saved: seq<Centroid>, vectors: seq<Row>, dim: nat)

  /** The ids are new to the table and different from each other. */
  ghost predicate FreshIds<T>(ids: seq<nat>, table: map<nat, T>) {
    Distinct(ids) && forall id :: id in ids ==> id !in table
  }

  /** Every piece names a centroid of the list. */
  ghost predicate PiecesListed(groups: seq<seq<Piece>>, listed: seq<Centroid>) {
    forall p :: p in Flatten(groups) ==> p.centroid in IdsOfCentroids(listed)
  }

  ghost predicate Does(op: Op, s: Store, s': Store, sqrt: real -> real) {
    match op
    case FirstCentroid(c) => c.id !in s.centroids && s' == s.(centroids := s.centroids[c.id := c])
    case AddDocuments(category, docIds, groups, ids, listed) =>
      && |docIds| == |groups| && |ids| == |Flatten(groups)|
      && FreshIds(docIds, s.documents) && FreshIds(ids, s.embeddings)
      && ListedFor(s, category, listed) && PiecesListed(groups, listed)
      && s' == s.(documents := s.documents + map d | d in docIds :: category,
                  embeddings := Written(s.embeddings, NewRows(docIds, groups, ids), IdOfEmbedding))
    case SaveCentroids(category, saved) =>
      && (forall i :: 0 <= i < |saved| ==> saved[i].category == category)
      && (forall i :: 0 <= i < |saved| && saved[i].id in s.centroids ==>
            s.centroids[saved[i].id].category == category)
      && s' == s.(centroids := Written(s.centroids, saved, IdOfCentroid))
    case ReassignAll(category, rows, saved, vectors, dim) =>
      && IsCategory(s, category, rows) && ListedFor(s, category, saved)
      && 0 < |vectors| <= |saved| && EvenRows(vectors, dim) && EvenEmbeddings(rows, dim)
      && s'.documents == s.documents && s'.centroids == s.centroids
      && IsReassigned(s.embeddings, s'.embeddings, rows,
                      NewIds(rows, vectors, IdsOfCentroids(saved), dim, sqrt))
  }

  /** A new row belongs to a new document, and its vector and centroid are those of a piece. */
  lemma {:induction false} NewRowsAre(docIds: seq<nat>, groups: seq<seq<Piece>>, ids: seq<nat>)
    requires |docIds| == |groups| && |ids| == |Flatten(groups)|
    ensures forall k :: 0 <= k < |ids| ==>
              && NewRows(docIds, groups, ids)[k].id == ids[k]
              && NewRows(docIds, groups, ids)[k].document in docIds
              && Piece(NewRows(docIds, groups, ids)[k].vector, NewRows(docIds, groups, ids)[k].centroid)
                 == Flatten(groups)[k]
    decreases |groups|
  {
    if groups == [] {
    } else {
      NewRowsAre(docIds[1..], groups[1..], ids[|groups[0]|..]);
    }
  }

  /** Row `j` of document `i` stands behind the rows of the documents before it. */
  lemma {:induction false} NewRowsInPlace(docIds: seq<nat>, groups: seq<seq<Piece>>, ids: seq<nat>, i: nat, j: nat)
    requires |docIds| == |groups| && |ids| == |Flatten(groups)| && i < |groups| && j < |groups[i]|
    ensures var p := StartOf(Sizes(groups), i) + j;
      && p < |ids| && Flatten(groups)[p] == groups[i][j]
      && NewRows(docIds, groups, ids)[p]
         == Embedding(ids[p], docIds[i], groups[i][j].centroid, groups[i][j].vector)
    decreases i
  {
    FlatSlice(groups, i);
    var start, n := StartOf(Sizes(groups), i), |groups[0]|;
    assert Flatten(groups)[start..start + |groups[i]|][j] == Flatten(groups)[start + j];
    if i == 0 {
    } else {
      NewRowsInPlace(docIds[1..], groups[1..], ids[n..], i - 1, j);
      assert Sizes(groups)[..i][1..] == Sizes(groups[1..])[..i - 1];
      assert start == n + StartOf(Sizes(groups[1..]), i - 1);
    }
  }

  lemma AddKeepsPlaced(op: Op, s: Store, s': Store, sqrt: real -> real)
    requires Placed(s) && op.AddDocuments? && Does(op, s, s', sqrt)
    ensures Placed(s')
  {
    var rows := NewRows(op.docIds, op.groups, op.ids);
    WrittenFrom(s.embeddings, rows, IdOfEmbedding);
    NewRowsAre(op.docIds, op.groups, op.ids);
    forall id | id in s'.embeddings ensures IsPlaced(s', id, s'.embeddings[id]) {
      if k :| 0 <= k < |rows| && rows[k].id == id && s'.embeddings[id] == rows[k] {
        assert Flatten(op.groups)[k] in Flatten(op.groups);
      } else {
        assert IsPlaced(s, id, s.embeddings[id]);
      }
    }
  }

  /** Saving centroids keeps ids and categories. */
  lemma SaveKeepsCategories(op: Op, s: Store, s': Store, sqrt: real -> real)
    requires Placed(s) && op.SaveCentroids? && Does(op, s, s', sqrt)
    ensures forall id :: id in s.centroids ==>
              id in s'.centroids && s'.centroids[id].category == s.centroids[id].category
    ensures forall id :: id in s'.centroids ==> s'.centroids[id].id == id
  {
    WrittenFrom(s.centroids, op.saved, IdOfCentroid);
  }

  lemma SaveKeepsPlaced(op: Op, s: Store, s': Store, sqrt: real -> real)
    requires Placed(s) && op.SaveCentroids? && Does(op, s, s', sqrt)
    ensures Placed(s')
  {
    SaveKeepsCategories(op, s, s', sqrt);
    forall id | id in s'.embeddings ensures IsPlaced(s', id, s'.embeddings[id]) {
      assert IsPlaced(s, id, s.embeddings[id]);
    }
  }

  lemma ReassignKeepsPlaced(op: Op, s: Store, s': Store, sqrt: real -> real)
    requires Placed(s) && op.ReassignAll? && Does(op, s, s', sqrt)
    ensures Placed(s')
  {
    var ids := IdsOfCentroids(op.saved);
    var newIds := NewIds(op.rows, op.vectors, ids, op.dim, sqrt);
    forall id | id in s'.embeddings ensures IsPlaced(s', id, s'.embeddings[id]) {
      assert IsPlaced(s, id, s.embeddings[id]);
      if i :| 0 <= i < |op.rows| && op.rows[i].id == id {
        assert op.rows[i] in op.rows;
        assert s'.embeddings[id] == op.rows[i].(centroid := newIds[i]);
        NewIdListed(op.rows, op.vectors, ids, op.dim, sqrt, i);
        NamedCentroid(s, op.category, op.saved, newIds[i]);
      }
    }
  }

  lemma NamedCentroid(s: Store, category: nat, listed: seq<Centroid>, id: nat)
    requires ListedFor(s, category, listed) && id in IdsOfCentroids(listed)
    ensures id in s.centroids && s.centroids[id].category == category
  {
    var k :| 0 <= k < |listed| && IdsOfCentroids(listed)[k] == id;
    assert listed[k].id == id;
  }

  lemma NewIdListed(rows: seq<Embedding>, vectors: seq<Row>, ids: seq<nat>, dim: nat, sqrt: real -> real, i: nat)
    requires 0 < |vectors| <= |ids| && EvenRows(vectors, dim) && EvenEmbeddings(rows, dim) && i < |rows|
    ensures NewIds(rows, vectors, ids, dim, sqrt)[i] in ids
  {
  }

  lemma OpKeepsPlaced(op: Op, s: Store, s': Store, sqrt: real -> real)
    requires Placed(s) && Does(op, s, s', sqrt)
    ensures Placed(s')
  {
    match op
    case FirstCentroid(c) =>
      forall id | id in s'.embeddings ensures IsPlaced(s', id, s'.embeddings[id]) {
        assert IsPlaced(s, id, s.embeddings[id]);
      }
    case AddDocuments(_, _, _, _, _) => AddKeepsPlaced(op, s, s', sqrt);
    case SaveCentroids(_, _) => SaveKeepsPlaced(op, s, s', sqrt);
    case ReassignAll(_, _, _, _, _) => ReassignKeepsPlaced(op, s, s', sqrt);
  }

  ghost predicate Run(states: seq<Store>, ops: seq<Op>, sqrt: real -> real) {
    |states| == |ops| + 1 && forall i :: 0 <= i < |ops| ==> Does(ops[i], states[i], states[i + 1], sqrt)
  }

  /** Over every run each embedding points to a centroid of its own category. */
  lemma {:induction false} RunKeepsPlaced(states: seq<Store>, ops: seq<Op>, sqrt: real -> real, n: nat)
    requires Run(states, ops, sqrt) && Placed(states[0]) && n <= |ops|
    ensures Placed(states[n])
  {
    if n == 0 {
    } else {
      RunKeepsPlaced(states, ops, sqrt, n - 1);
      OpKeepsPlaced(ops[n - 1], states[n - 1], states[n], sqrt);
    }
  }

  /** A list of centroids of a category stays one, so the cached list may be old. */
  lemma ListedStays(op: Op, s: Store, s': Store, sqrt: real -> real, category: nat, listed: seq<Centroid>)
    requires Placed(s) && Does(op, s, s', sqrt) && ListedFor(s, category, listed)
    ensures ListedFor(s', category, listed)
  {
    if op.SaveCentroids? {
      SaveKeepsCategories(op, s, s', sqrt);
    }
  }

  lemma {:induction false} RunKeepsListed(states: seq<Store>, ops: seq<Op>, sqrt: real -> real, n: nat,
                                          category: nat, listed: seq<Centroid>)
    requires Run(states, ops, sqrt) && Placed(states[0]) && n <= |ops|
    requires ListedFor(states[0], category, listed)
    ensures ListedFor(states[n], category, listed)
  {
    if n == 0 {
    } else {
      RunKeepsListed(states, ops, sqrt, n - 1, category, listed);
      RunKeepsPlaced(states, ops, sqrt, n - 1);
      ListedStays(ops[n - 1], states[n - 1], states[n], sqrt, category, listed);
    }
  }

  /** After a reassignment every embedding of the category is at its nearest centroid, so grouping it
      again with the same centroids yields no update at all. */
  lemma ReassignIsIdempotent(op: Op, s: Store, s': Store, sqrt: real -> real, rows': seq<Embedding>,
                             groups: map<nat, seq<nat>>)
    requires op.ReassignAll? && Does(op, s, s', sqrt)
    requires |rows'| == |op.rows|
    requires forall i :: 0 <= i < |rows'| ==>
               op.rows[i].id in s'.embeddings && rows'[i] == s'.embeddings[op.rows[i].id]
    requires EvenEmbeddings(rows', op.dim)
    requires IsGrouping(groups, rows', NewIds(rows', op.vectors, IdsOfCentroids(op.saved), op.dim, sqrt))
    ensures groups == map[]
  {
    var ids := IdsOfCentroids(op.saved);
    var first := NewIds(op.rows, op.vectors, ids, op.dim, sqrt);
    var again := NewIds(rows', op.vectors, ids, op.dim, sqrt);
    forall i | 0 <= i < |rows'| ensures rows'[i].centroid == again[i] {
      assert rows'[i] == op.rows[i].(centroid := first[i]);
    }
    SecondPassIsEmpty(rows', again, groups);
  }
}
