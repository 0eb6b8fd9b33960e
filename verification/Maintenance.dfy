/** The two writers of the index, an upload and a rebuild of a category, as methods on the tables:
    what each writes is a run of the operations of `Index`. */
module Maintenance {
  import opened Constants
  import opened Sequences
  import opened Rows
  import opened Cosine
  import opened Compute
  import opened KMeans
  import opened Tables
  import opened Reassignment
  import opened Recentring
  import opened Upload
  import opened Index

  // ----- runs

  /** `states` goes from `s` to `s'` by the operations. */
  ghost predicate Leads(states: seq<Store>, ops: seq<Op>, s: Store, s': Store, sqrt: real -> real) {
    Index.Run(states, ops, sqrt) && states[0] == s && states[|ops|] == s'
  }

  lemma LeadsKeepsPlaced(states: seq<Store>, ops: seq<Op>, s: Store, s': Store, sqrt: real -> real)
    requires Leads(states, ops, s, s', sqrt) && Placed(s)
    ensures Placed(s')
  {
    RunKeepsPlaced(states, ops, sqrt, |ops|);
  }

  // ----- upload

  /** The rows made for the first `idx` documents, which took the first `at` ids. */
  ghost predicate Making(made: seq<Embedding>, docIds: seq<nat>, groups: seq<seq<Piece>>, ids: seq<nat>,
                         idx: nat, at: nat)
  {
    && idx <= |groups| == |docIds| && |ids| == |Flatten(groups)|
    && at + |Flatten(groups[idx..])| == |ids|
    && made + NewRows(docIds[idx..], groups[idx..], ids[at..]) == NewRows(docIds, groups, ids)
  }

  /** The embedding rows, document by document. */
  method MakeRows(docIds: seq<nat>, groups: seq<seq<Piece>>, ids: seq<nat>) returns (newEmbeddings: seq<Embedding>)
    requires |docIds| == |groups| && |ids| == |Flatten(groups)|
    ensures newEmbeddings == NewRows(docIds, groups, ids)
  {
    newEmbeddings := [];
    var at: nat := 0;
    for idx := 0 to |groups|
      invariant Making(newEmbeddings, docIds, groups, ids, idx, at)
    {
      newEmbeddings := newEmbeddings + RowsOfOne(docIds[idx], groups[idx], ids[at..at + |groups[idx]|]);
      at := at + |groups[idx]|;
    }
  }

  /** The pieces an upload makes name centroids of the list it worked with. */
  lemma PiecesAreListed(groups: seq<seq<Piece>>, vectors: seq<Row>, cs: seq<Centroid>, dim: nat, sqrt: real -> real)
    requires cs != []
    requires SameWidth(DequantizeAll(VectorsOfCentroids(cs)), dim) && SameWidth(DequantizeAll(vectors), dim)
    requires Flatten(groups) == PiecesWithNearest(vectors, cs, dim, sqrt)
    ensures PiecesListed(groups, cs)
  {
  }

  /** The embedding is stored under the document, with the vector and the centroid nearest to it. */
  ghost predicate IsStoredAs(s: Store, id: nat, doc: nat, vector: Row, listed: seq<Centroid>, sqrt: real -> real) {
    && id in s.embeddings && s.embeddings[id].document == doc && s.embeddings[id].vector == vector
    && exists k: nat :: IsNearestRow(k, VectorsOfCentroids(listed), vector, sqrt)
                        && s.embeddings[id].centroid == listed[k].id
  }

  /** Section `j` of document `i` is stored under that document, with its own vector. */
  ghost predicate AreStored(s: Store, docIds: seq<nat>, ids: seq<nat>, vectors: seq<Row>, sizes: seq<nat>,
                            listed: seq<Centroid>, sqrt: real -> real)
  {
    && |sizes| == |docIds| && |ids| == |vectors|
    && forall i: nat, j: nat :: i < |sizes| && j < sizes[i] ==>
         SectionStored(s, docIds[i], ids, vectors, StartOf(sizes, i), j, listed, sqrt)
  }

  /** Section `j` of a document whose sections begin at `start`. */
  ghost predicate SectionStored(s: Store, doc: nat, ids: seq<nat>, vectors: seq<Row>, start: nat, j: nat,
                                listed: seq<Centroid>, sqrt: real -> real)
  {
    start + j < |ids| == |vectors| && IsStoredAs(s, ids[start + j], doc, vectors[start + j], listed, sqrt)
  }

  lemma PieceIsStored(s: Store, s': Store, op: Op, vectors: seq<Row>, dim: nat, sqrt: real -> real, i: nat, j: nat)
    requires op.AddDocuments? && Does(op, s, s', sqrt) && op.listed != []
    requires EvenRows(VectorsOfCentroids(op.listed), dim) && EvenRows(vectors, dim)
    requires SameWidth(DequantizeAll(VectorsOfCentroids(op.listed)), dim) && SameWidth(DequantizeAll(vectors), dim)
    requires Flatten(op.groups) == PiecesWithNearest(vectors, op.listed, dim, sqrt)
    requires i < |op.groups| && j < |op.groups[i]|
    ensures SectionStored(s', op.docIds[i], op.ids, vectors, StartOf(Sizes(op.groups), i), j, op.listed, sqrt)
  {
    var p := StartOf(Sizes(op.groups), i) + j;
    var rows := NewRows(op.docIds, op.groups, op.ids);
    NewRowsInPlace(op.docIds, op.groups, op.ids, i, j);
    NewRowsAre(op.docIds, op.groups, op.ids);
    WrittenRow(s.embeddings, rows, IdOfEmbedding, p);
    PieceIsNearest(vectors, op.listed, dim, sqrt, p);
  }

  method SaveDocuments(s: Store, category: nat, docIds: seq<nat>, groups: seq<seq<Piece>>, ids: seq<nat>,
                       ghost listed: seq<Centroid>, ghost sqrt: real -> real)
    returns (s': Store)
    requires |docIds| == |groups| && |ids| == |Flatten(groups)|
    requires FreshIds(docIds, s.documents) && FreshIds(ids, s.embeddings)
    requires ListedFor(s, category, listed) && PiecesListed(groups, listed)
    ensures Does(AddDocuments(category, docIds, groups, ids, listed), s, s', sqrt)
  {
    var newEmbeddings := MakeRows(docIds, groups, ids);
    var embeddings := WriteAll(s.embeddings, newEmbeddings, IdOfEmbedding);
    s' := s.(documents := s.documents + (map d | d in docIds :: category), embeddings := embeddings);
  }

  /** What an upload leaves in the tables: its sections, its documents, and everything that was there. */
  lemma UploadStores(s: Store, s': Store, op: Op, vectors: seq<Row>, dim: nat, sqrt: real -> real)
    requires op.AddDocuments? && Does(op, s, s', sqrt) && op.listed != []
    requires EvenRows(VectorsOfCentroids(op.listed), dim) && EvenRows(vectors, dim)
    requires SameWidth(DequantizeAll(VectorsOfCentroids(op.listed)), dim) && SameWidth(DequantizeAll(vectors), dim)
    requires Flatten(op.groups) == PiecesWithNearest(vectors, op.listed, dim, sqrt)
    ensures AreStored(s', op.docIds, op.ids, vectors, Sizes(op.groups), op.listed, sqrt)
    ensures s'.documents == s.documents + map d | d in op.docIds :: op.category
    ensures forall id :: id in s.embeddings ==> id in s'.embeddings && s'.embeddings[id] == s.embeddings[id]
  {
    var sizes := Sizes(op.groups);
    forall i: nat, j: nat | i < |sizes| && j < sizes[i]
      ensures SectionStored(s', op.docIds[i], op.ids, vectors, StartOf(sizes, i), j, op.listed, sqrt)
    {
      PieceIsStored(s, s', op, vectors, dim, sqrt, i, j);
    }
    OldRowsStay(s, s', op, sqrt);
  }

  lemma OldRowsStay(s: Store, s': Store, op: Op, sqrt: real -> real)
    requires op.AddDocuments? && Does(op, s, s', sqrt)
    ensures forall id :: id in s.embeddings ==> id in s'.embeddings && s'.embeddings[id] == s.embeddings[id]
  {
    var rows := NewRows(op.docIds, op.groups, op.ids);
    NewRowsAre(op.docIds, op.groups, op.ids);
    WrittenFrom(s.embeddings, rows, IdOfEmbedding);
    forall id, k | id in s.embeddings && 0 <= k < |rows| ensures IdOfEmbedding(rows[k]) != id {
      assert op.ids[k] in op.ids;
    }
  }

  /** The operations of an upload. */
  method UploadOperations(s: Store, docs: seq<Document>, ctxNum: int, embedded: Option<seq<Row>>,
                         found: seq<Centroid>, category: nat, newId: nat, docIds: seq<nat>, ids: seq<nat>,
                         dim: nat, sqrt: real -> real)
    returns (ok: bool, s': Store, ghost ops: seq<Op>, ghost states: seq<Store>, ghost mid: Store)
    requires Placed(s) && dim > 0 && IsSqrt(sqrt)
    requires ListedFor(s, category, found) && EvenRows(VectorsOfCentroids(found), dim)
    requires embedded.Some? ==> EvenRows(embedded.value, dim) && |ids| == |embedded.value|
    requires newId !in s.centroids && |docIds| == |docs|
    requires FreshIds(docIds, s.documents) && FreshIds(ids, s.embeddings)
    ensures ok <==> docs != [] && embedded.Some? && |embedded.value| == |Flatten(AllSections(docs, ctxNum))|
    ensures ok ==> embedded.value != []
    ensures !ok ==> s' == s
    ensures Leads(states, ops, s, s', sqrt) && Placed(s')
    ensures ok ==> ops != [] && var last := ops[|ops| - 1];
              && last.AddDocuments? && last.category == category && last.docIds == docIds && last.ids == ids
              && Sizes(last.groups) == Sizes(AllSections(docs, ctxNum))
              && last.listed == CentroidsFor(found, embedded.value[0], category, newId)
              && EvenRows(VectorsOfCentroids(last.listed), dim)
              && Flatten(last.groups) == PiecesWithNearest(embedded.value, last.listed, dim, sqrt)
    ensures ok ==> Does(ops[|ops| - 1], mid, s', sqrt) && mid == s.(centroids := mid.centroids)
    ensures ok && found == [] ==> newId in mid.centroids
                                  && mid.centroids[newId] == Centroid(newId, category, embedded.value[0])
  {
    var r, centroids := Upload.Upload(docs, ctxNum, embedded, found, category, newId, dim, sqrt);
    ok, s', ops, states, mid := r.Ok?, s, [], [s], s;
    if !ok {
      return;
    }
    if found == [] {
      var first := centroids[0];
      s' := s.(centroids := s.centroids[first.id := first]);
      ops, states := ops + [FirstCentroid(first)], states + [s'];
    }
    var groups := r.value;
    PiecesAreListed(groups, embedded.value, centroids, dim, sqrt);
    mid := s';
    s' := SaveDocuments(s', category, docIds, groups, ids, centroids, sqrt);
    ghost var add := AddDocuments(category, docIds, groups, ids, centroids);
    ops, states := ops + [add], states + [s'];
    LeadsKeepsPlaced(states, ops, s, s', sqrt);
  }

  /** An upload of documents to a category: the first centroid if there is none, then the documents
      with their embeddings. `found` is the cached centroid list, the other ids are new. */
  method UploadDocuments(s: Store, docs: seq<Document>, ctxNum: int, embedded: Option<seq<Row>>,
                         found: seq<Centroid>, category: nat, newId: nat, docIds: seq<nat>, ids: seq<nat>,
                         dim: nat, sqrt: real -> real)
    returns (ok: bool, s': Store, ghost ops: seq<Op>, ghost states: seq<Store>)
    requires Placed(s) && dim > 0 && IsSqrt(sqrt)
    requires ListedFor(s, category, found) && EvenRows(VectorsOfCentroids(found), dim)
    requires embedded.Some? ==> EvenRows(embedded.value, dim) && |ids| == |embedded.value|
    requires newId !in s.centroids && |docIds| == |docs|
    requires FreshIds(docIds, s.documents) && FreshIds(ids, s.embeddings)
    ensures ok <==> docs != [] && embedded.Some? && |embedded.value| == |Flatten(AllSections(docs, ctxNum))|
    ensures ok ==> embedded.value != []
    ensures !ok ==> s' == s
    ensures Leads(states, ops, s, s', sqrt) && Placed(s')
    ensures ok ==> exists listed ::
              && AreStored(s', docIds, ids, embedded.value, Sizes(AllSections(docs, ctxNum)), listed, sqrt)
              && IsListUsed(listed, found, embedded.value[0], category, newId, s')
    ensures ok ==> s'.documents == s.documents + map d | d in docIds :: category
    ensures forall id :: id in s.embeddings ==> id in s'.embeddings && s'.embeddings[id] == s.embeddings[id]
  {
    ghost var mid;
    ok, s', ops, states, mid := UploadOperations(s, docs, ctxNum, embedded, found, category, newId, docIds, ids,
                                                 dim, sqrt);
    if ok {
      UploadStores(mid, s', ops[|ops| - 1], embedded.value, dim, sqrt);
    }
  }

  /** The centroids the upload worked with: those it found, or a first one at the first vector, which
      is then stored. */
  ghost predicate IsListUsed(listed: seq<Centroid>, found: seq<Centroid>, first: Row, category: nat, newId: nat,
                             s: Store)
  {
    if found != [] then listed == found
    else
      |listed| == 1 && listed[0] == Centroid(newId, category, first)
      && newId in s.centroids && s.centroids[newId] == listed[0]
  }

  // ----- rebuild

  /** All rows of one embedding model. */
  ghost predicate OneWidth(s: Store, dim: nat) {
    forall id :: id in s.embeddings ==> |s.embeddings[id].vector.codes| == dim
  }

  method QueryCategory(s: Store, category: nat) returns (rows: seq<Embedding>)
    requires Placed(s)
    ensures IsCategory(s, category, rows) && DistinctIds(rows) && ReadFrom(s.embeddings, rows)
  {
    var inCategory := (e: Embedding) => e.document in s.documents && s.documents[e.document] == category;
    ghost var ids;
    rows, ids := Find(s.embeddings, inCategory);
    FoundRows(s, inCategory, rows, ids);
  }

  lemma FoundRows(s: Store, where: Embedding -> bool, rows: seq<Embedding>, ids: seq<nat>)
    requires Placed(s) && |ids| == |rows| && Distinct(ids)
    requires forall i :: 0 <= i < |ids| ==>
               ids[i] in s.embeddings && rows[i] == s.embeddings[ids[i]] && where(rows[i])
    requires forall id :: id in s.embeddings && where(s.embeddings[id]) ==> id in ids
    ensures DistinctIds(rows) && ReadFrom(s.embeddings, rows)
    ensures forall e :: e in rows <==> e.id in s.embeddings && s.embeddings[e.id] == e && where(e)
  {
    forall i | 0 <= i < |rows| ensures rows[i].id == ids[i] {
      assert IsPlaced(s, ids[i], s.embeddings[ids[i]]);
    }
    forall e ensures e in rows <==> e.id in s.embeddings && s.embeddings[e.id] == e && where(e) {
      if e.id in s.embeddings && s.embeddings[e.id] == e && where(e) {
        var i :| 0 <= i < |ids| && ids[i] == e.id;
        assert rows[i] == e;
      }
    }
  }

  method QueryMembers(s: Store, cid: nat) returns (members: seq<Embedding>)
    requires Placed(s)
    ensures IsMembers(s.embeddings, cid, members)
  {
    var isMember := (e: Embedding) => e.centroid == cid;
    ghost var ids;
    members, ids := Find(s.embeddings, isMember);
    FoundRows(s, isMember, members, ids);
  }

  /** The centroid rows as they are saved: `stored` with the new vectors, and further ones under new
      ids. */
  ghost predicate IsSaved(saved: seq<Centroid>, s: Store, category: nat, vectors: seq<Row>) {
    && |vectors| <= |saved| && DistinctCentroidIds(saved)
    && (forall i :: 0 <= i < |saved| ==> saved[i].category == category)
    && (forall i :: 0 <= i < |vectors| ==> saved[i].vector == vectors[i])
    && (forall i :: 0 <= i < |saved| && saved[i].id in s.centroids ==>
          s.centroids[saved[i].id].category == category)
    && (forall id :: id in s.centroids && s.centroids[id].category == category ==> id in IdsOfCentroids(saved))
  }

  /** The update of the centroid rows; the database gives new rows an id. */
  method NewCentroids(s: Store, category: nat, vectors: seq<Row>, newIds: seq<nat>)
    returns (saved: seq<Centroid>)
    requires Placed(s) && FreshIds(newIds, s.centroids) && |newIds| == |vectors|
    ensures IsSaved(saved, s, category, vectors)
  {
    var ofCategory := (c: Centroid) => c.category == category;
    var stored;
    ghost var ids;
    stored, ids := Find(s.centroids, ofCategory);
    var updated := UpdateCentroids(stored, vectors, category);
    saved := WithIds(updated, |stored|, newIds);
    forall i, j | 0 <= i < j < |saved| ensures saved[i].id != saved[j].id {
      assert i < |stored| ==> saved[i].id == ids[i];
      assert j < |stored| ==> saved[j].id == ids[j];
      assert j >= |stored| ==> saved[j].id == newIds[j - |stored|] && newIds[j - |stored|] in newIds;
    }
    forall id | id in s.centroids && s.centroids[id].category == category ensures id in IdsOfCentroids(saved) {
      var i :| 0 <= i < |ids| && ids[i] == id;
      assert IdsOfCentroids(saved)[i] == id;
    }
  }

  function WithIds(updated: seq<Centroid>, stored: nat, newIds: seq<nat>): (saved: seq<Centroid>)
    requires stored <= |updated| && |updated| - stored <= |newIds|
    ensures |saved| == |updated|
  {
    seq(|updated|, i requires 0 <= i < |updated| =>
      if i < stored then updated[i] else updated[i].(id := newIds[i - stored]))
  }

  lemma SavedAreListed(s: Store, saved: seq<Centroid>, category: nat, vectors: seq<Row>, s': Store)
    requires IsSaved(saved, s, category, vectors)
    requires s'.centroids == Written(s.centroids, saved, IdOfCentroid)
    ensures ListedFor(s', category, saved)
    ensures forall i :: 0 <= i < |saved| ==> s'.centroids[saved[i].id] == saved[i]
  {
    forall i | 0 <= i < |saved| ensures saved[i].id in s'.centroids && s'.centroids[saved[i].id] == saved[i] {
      WrittenRow(s.centroids, saved, IdOfCentroid, i);
    }
  }

  /** The saved vector: the mean of the members, or `undefined` where the mean is. */
  ghost predicate IsRecentred(c: Centroid, saved: Centroid, s: Store, undefined: Row, dim: nat) {
    && c.id == saved.id && c.category == saved.category
    && exists members :: IsMembers(s.embeddings, saved.id, members) && EvenEmbeddings(members, dim)
                         && c.vector == OrElse(Recentred(members, dim), undefined)
  }

  function OrElse(vector: Option<Row>, undefined: Row): Row {
    if vector.Some? then vector.value else undefined
  }

  lemma MembersEven(s: Store, cid: nat, members: seq<Embedding>, dim: nat)
    requires OneWidth(s, dim) && IsMembers(s.embeddings, cid, members)
    ensures EvenEmbeddings(members, dim)
  {
    forall i | 0 <= i < |members| ensures |members[i].vector.codes| == dim {
      assert members[i] in members;
    }
  }

  method RecenterAll(s: Store, saved: seq<Centroid>, undefined: Row, dim: nat) returns (recentred: seq<Centroid>)
    requires Placed(s) && OneWidth(s, dim)
    ensures |recentred| == |saved|
    ensures forall c :: 0 <= c < |saved| ==> IsRecentred(recentred[c], saved[c], s, undefined, dim)
  {
    recentred := [];
    for c := 0 to |saved|
      invariant |recentred| == c
      invariant forall i :: 0 <= i < c ==> IsRecentred(recentred[i], saved[i], s, undefined, dim)
    {
      var members := QueryMembers(s, saved[c].id);
      MembersEven(s, saved[c].id, members, dim);
      var vector := RecenterCentroid(members, dim, BATCH_SIZE_DATABASE);
      recentred := recentred + [saved[c].(vector := OrElse(vector, undefined))];
    }
  }

  /** The centroids the builder found, as the start of an iteration; the means do not matter for a
      cluster that has members. */
  function Beginning(vectors: seq<Row>, dim: nat): Stage { Stage(vectors, ZeroMeans(|vectors|, dim)) }

  /** What a rebuild makes of centroid `c`. */
  function Rebuilt(points: seq<Vector>, vectors: seq<Row>, c: nat, undefined: Row, dim: nat, sqrt: real -> real): Row
    requires SameWidth(points, dim) && vectors != [] && EvenRows(vectors, dim)
  {
    var st := Beginning(vectors, dim);
    if c < |vectors| && c in LabelsOf(points, st, dim, sqrt) then Iterate(points, st, dim, sqrt).centroids[c]
    else undefined
  }

  lemma RecentredIsRebuilt(op: Op, s: Store, s': Store, sqrt: real -> real, c: nat, centroid: Centroid, undefined: Row)
    requires Placed(s) && op.ReassignAll? && Does(op, s, s', sqrt)
    requires DistinctIds(op.rows) && DistinctCentroidIds(op.saved) && c < |op.saved|
    requires IsRecentred(centroid, op.saved[c], s', undefined, op.dim)
    ensures SameWidth(DequantizeAll(VectorsOf(op.rows)), op.dim)
    ensures centroid.vector
         == Rebuilt(DequantizeAll(VectorsOf(op.rows)), op.vectors, c, undefined, op.dim, sqrt)
  {
    var members :| IsMembers(s'.embeddings, op.saved[c].id, members) && EvenEmbeddings(members, op.dim)
                   && centroid.vector == OrElse(Recentred(members, op.dim), undefined);
    MembersRebuild(op, s, s', sqrt, c, members, undefined);
  }

  lemma MembersRebuild(op: Op, s: Store, s': Store, sqrt: real -> real, c: nat, members: seq<Embedding>,
                       undefined: Row)
    requires Placed(s) && op.ReassignAll? && Does(op, s, s', sqrt)
    requires DistinctIds(op.rows) && DistinctCentroidIds(op.saved) && c < |op.saved|
    requires IsMembers(s'.embeddings, op.saved[c].id, members) && EvenEmbeddings(members, op.dim)
    ensures SameWidth(DequantizeAll(VectorsOf(op.rows)), op.dim)
    ensures OrElse(Recentred(members, op.dim), undefined)
         == Rebuilt(DequantizeAll(VectorsOf(op.rows)), op.vectors, c, undefined, op.dim, sqrt)
  {
    if c < |op.vectors| {
      RebuildIsIteration(op, s, s', sqrt, c, members, Beginning(op.vectors, op.dim));
    } else {
      LeftOverIsEmpty(op, s, s', sqrt, c, members);
    }
  }

  lemma StillOneWidth(s: Store, s': Store, op: Op, sqrt: real -> real, dim: nat)
    requires OneWidth(s, dim) && op.ReassignAll? && Does(op, s, s', sqrt)
    requires ReadFrom(s.embeddings, op.rows)
    ensures OneWidth(s', dim)
  {
    forall id | id in s'.embeddings ensures |s'.embeddings[id].vector.codes| == dim {
      if i :| 0 <= i < |op.rows| && op.rows[i].id == id {
        assert s.embeddings[id] == op.rows[i];
      }
    }
  }

  method SaveBuilt(s: Store, category: nat, vectors: seq<Row>, newIds: seq<nat>, sqrt: real -> real)
    returns (s': Store, saved: seq<Centroid>)
    requires Placed(s) && FreshIds(newIds, s.centroids) && |newIds| == |vectors|
    ensures Does(SaveCentroids(category, saved), s, s', sqrt) && Placed(s')
    ensures IsSaved(saved, s, category, vectors) && ListedFor(s', category, saved)
    ensures s' == s.(centroids := s'.centroids)
  {
    saved := NewCentroids(s, category, vectors, newIds);
    var centroids := WriteAll(s.centroids, saved, IdOfCentroid);
    s' := s.(centroids := centroids);
    SaveKeepsPlaced(SaveCentroids(category, saved), s, s', sqrt);
    SavedAreListed(s, saved, category, vectors, s');
  }

  method ReassignCategory(s: Store, category: nat, saved: seq<Centroid>, vectors: seq<Row>, dim: nat,
                          sqrt: real -> real)
    returns (s': Store, ghost rows: seq<Embedding>)
    requires Placed(s) && OneWidth(s, dim) && dim > 0 && IsSqrt(sqrt)
    requires 0 < |vectors| <= |saved| && EvenRows(vectors, dim) && ListedFor(s, category, saved)
    ensures DistinctIds(rows) && IsCategory(s, category, rows) && EvenEmbeddings(rows, dim)
    ensures Does(ReassignAll(category, rows, saved, vectors, dim), s, s', sqrt)
    ensures Placed(s') && OneWidth(s', dim) && s' == s.(embeddings := s'.embeddings)
  {
    var found := QueryCategory(s, category);
    rows := found;
    forall i | 0 <= i < |rows| ensures |rows[i].vector.codes| == dim {
      assert rows[i].id in s.embeddings;
    }
    var embeddings := ReassignPass(s.embeddings, found, vectors, IdsOfCentroids(saved), dim, sqrt,
                                   BATCH_SIZE_DATABASE);
    s' := s.(embeddings := embeddings);
    ghost var op := ReassignAll(category, rows, saved, vectors, dim);
    ReassignKeepsPlaced(op, s, s', sqrt);
    StillOneWidth(s, s', op, sqrt, dim);
  }

  method RecenterCentroids(s: Store, category: nat, saved: seq<Centroid>, undefined: Row, dim: nat, sqrt: real -> real)
    returns (s': Store, ghost recentred: seq<Centroid>)
    requires Placed(s) && OneWidth(s, dim) && ListedFor(s, category, saved) && DistinctCentroidIds(saved)
    requires forall c :: 0 <= c < |saved| ==> saved[c].category == category
    ensures Does(SaveCentroids(category, recentred), s, s', sqrt)
    ensures |recentred| == |saved| && s' == s.(centroids := s'.centroids)
    ensures forall c :: 0 <= c < |saved| ==>
              && IsRecentred(recentred[c], saved[c], s, undefined, dim)
              && saved[c].id in s'.centroids && s'.centroids[saved[c].id] == recentred[c]
  {
    var found := RecenterAll(s, saved, undefined, dim);
    recentred := found;
    var centroids := WriteAll(s.centroids, found, IdOfCentroid);
    s' := s.(centroids := centroids);
    forall c | 0 <= c < |saved|
      ensures saved[c].id in s'.centroids && s'.centroids[saved[c].id] == recentred[c]
    {
      WrittenRow(s.centroids, recentred, IdOfCentroid, c);
    }
  }

  /** What a rebuild did: reassign, then recentre. */
  ghost predicate IsRebuilt(s: Store, s': Store, category: nat, rows: seq<Embedding>, saved: seq<Centroid>,
                            vectors: seq<Row>, undefined: Row, dim: nat, sqrt: real -> real)
  {
    && 0 < |vectors| <= |saved| && EvenRows(vectors, dim)
    && IsCategory(s, category, rows) && EvenEmbeddings(rows, dim)
    && SameWidth(DequantizeAll(VectorsOf(rows)), dim)
    && s'.documents == s.documents
    && IsReassigned(s.embeddings, s'.embeddings, rows, NewIds(rows, vectors, IdsOfCentroids(saved), dim, sqrt))
    && forall c :: 0 <= c < |saved| ==>
         && saved[c].id in s'.centroids
         && s'.centroids[saved[c].id].vector
            == Rebuilt(DequantizeAll(VectorsOf(rows)), vectors, c, undefined, dim, sqrt)
  }

  lemma PhasesRebuild(s: Store, s1: Store, s2: Store, s': Store, op: Op, undefined: Row, recentred: seq<Centroid>,
                      sqrt: real -> real)
    requires s1 == s.(centroids := s1.centroids) && Placed(s1)
    requires op.ReassignAll? && Does(op, s1, s2, sqrt) && s' == s2.(centroids := s'.centroids)
    requires DistinctIds(op.rows) && DistinctCentroidIds(op.saved) && |recentred| == |op.saved|
    requires forall c :: 0 <= c < |op.saved| ==>
               && IsRecentred(recentred[c], op.saved[c], s2, undefined, op.dim)
               && op.saved[c].id in s'.centroids && s'.centroids[op.saved[c].id] == recentred[c]
    ensures IsRebuilt(s, s', op.category, op.rows, op.saved, op.vectors, undefined, op.dim, sqrt)
  {
    forall c | 0 <= c < |op.saved|
      ensures SameWidth(DequantizeAll(VectorsOf(op.rows)), op.dim)
      ensures s'.centroids[op.saved[c].id].vector
           == Rebuilt(DequantizeAll(VectorsOf(op.rows)), op.vectors, c, undefined, op.dim, sqrt)
    {
      RecentredIsRebuilt(op, s1, s2, sqrt, c, recentred[c], undefined);
    }
    assert IsCategory(s, op.category, op.rows);
  }

  lemma ThreeOps(a: Op, b: Op, c: Op, s: Store, s1: Store, s2: Store, s': Store, sqrt: real -> real)
    requires Does(a, s, s1, sqrt) && Does(b, s1, s2, sqrt) && Does(c, s2, s', sqrt)
    ensures Leads([s, s1, s2, s'], [a, b, c], s, s', sqrt)
  {
  }

  ghost predicate InCategory(s: Store, id: nat, category: nat) {
    && id in s.embeddings && s.embeddings[id].document in s.documents
    && s.documents[s.embeddings[id].document] == category
  }

  /** The embedding points to the saved centroid whose new vector is nearest to it. */
  ghost predicate MovedToNearest(s: Store, s': Store, id: nat, saved: seq<Centroid>, vectors: seq<Row>,
                                 sqrt: real -> real)
  {
    && id in s.embeddings && id in s'.embeddings
    && exists k: nat :: k < |saved| && IsNearestRow(k, vectors, s.embeddings[id].vector, sqrt)
                        && s'.embeddings[id] == s.embeddings[id].(centroid := saved[k].id)
  }

  /** The stored vector is the quantised average of exactly the embeddings that point to the centroid, or
      `undefined` if there are none. */
  ghost predicate IsCentred(s: Store, cid: nat, undefined: Row, dim: nat) {
    && cid in s.centroids
    && exists members :: IsMembers(s.embeddings, cid, members)
         && if members == [] then s.centroids[cid].vector == undefined
            else IsMeanRow(s.centroids[cid].vector, VectorsOf(members), dim)
  }

  lemma RebuildMoves(s: Store, s': Store, category: nat, rows: seq<Embedding>, saved: seq<Centroid>,
                     vectors: seq<Row>, undefined: Row, dim: nat, sqrt: real -> real, id: nat)
    requires Placed(s) && IsRebuilt(s, s', category, rows, saved, vectors, undefined, dim, sqrt)
    requires id in s.embeddings
    ensures InCategory(s, id, category) ==> MovedToNearest(s, s', id, saved, vectors, sqrt)
    ensures !InCategory(s, id, category) ==> id in s'.embeddings && s'.embeddings[id] == s.embeddings[id]
  {
    assert IsPlaced(s, id, s.embeddings[id]);
    if InCategory(s, id, category) {
      assert s.embeddings[id] in rows;
      var i :| 0 <= i < |rows| && rows[i] == s.embeddings[id];
      var k := NewIdIsNearest(rows, vectors, IdsOfCentroids(saved), dim, sqrt, i);
    } else {
      forall i | 0 <= i < |rows| ensures rows[i].id != id {
        assert rows[i] in rows;
      }
    }
  }

  lemma RecentredIsCentred(c: Centroid, saved: Centroid, s: Store, s': Store, undefined: Row, dim: nat)
    requires IsRecentred(c, saved, s, undefined, dim) && s'.embeddings == s.embeddings
    requires saved.id in s'.centroids && s'.centroids[saved.id] == c
    ensures IsCentred(s', saved.id, undefined, dim)
  {
    var members :| IsMembers(s.embeddings, saved.id, members) && EvenEmbeddings(members, dim)
                   && c.vector == OrElse(Recentred(members, dim), undefined);
    RecentredIsMeanRow(members, dim);
  }

  /** A rebuild of a category from the centroids the builder found: it saves them, reassigns all
      embeddings, looks for small centroids, of which it selects none, and recentres. */
  method Rebuild(s: Store, category: nat, vectors: seq<Row>, newIds: seq<nat>, counted: seq<Counted>,
                 undefined: Row, dim: nat, sqrt: real -> real)
    returns (s': Store, ghost ops: seq<Op>, ghost states: seq<Store>, ghost saved: seq<Centroid>,
             ghost rows: seq<Embedding>)
    requires Placed(s) && OneWidth(s, dim) && dim > 0 && IsSqrt(sqrt)
    requires vectors != [] && EvenRows(vectors, dim)
    requires FreshIds(newIds, s.centroids) && |newIds| == |vectors|
    ensures Leads(states, ops, s, s', sqrt) && Placed(s')
    ensures IsSaved(saved, s, category, vectors)
    ensures IsRebuilt(s, s', category, rows, saved, vectors, undefined, dim, sqrt)
    ensures forall id :: InCategory(s, id, category) ==> MovedToNearest(s, s', id, saved, vectors, sqrt)
    ensures forall id :: id in s.embeddings && !InCategory(s, id, category) ==>
              id in s'.embeddings && s'.embeddings[id] == s.embeddings[id]
    ensures forall c :: 0 <= c < |saved| ==> IsCentred(s', saved[c].id, undefined, dim)
  {
    var s1, updated := SaveBuilt(s, category, vectors, newIds, sqrt);
    var s2;
    s2, rows := ReassignCategory(s1, category, updated, vectors, dim, sqrt);
    var oldCentroids, results := SelectSmall(counted);
    assert oldCentroids == [];
    ghost var recentred;
    s', recentred := RecenterCentroids(s2, category, updated, undefined, dim, sqrt);
    saved := updated;
    ghost var reassign := ReassignAll(category, rows, saved, vectors, dim);
    PhasesRebuild(s, s1, s2, s', reassign, undefined, recentred, sqrt);
    ops := [SaveCentroids(category, saved), reassign, SaveCentroids(category, recentred)];
    states := [s, s1, s2, s'];
    ThreeOps(ops[0], ops[1], ops[2], s, s1, s2, s', sqrt);
    LeadsKeepsPlaced(states, ops, s, s', sqrt);
    forall id | id in s.embeddings
      ensures InCategory(s, id, category) ==> MovedToNearest(s, s', id, saved, vectors, sqrt)
      ensures !InCategory(s, id, category) ==> id in s'.embeddings && s'.embeddings[id] == s.embeddings[id]
    {
      RebuildMoves(s, s', category, rows, saved, vectors, undefined, dim, sqrt, id);
    }
    forall c | 0 <= c < |saved| ensures IsCentred(s', saved[c].id, undefined, dim) {
      RecentredIsCentred(recentred[c], saved[c], s2, s', undefined, dim);
    }
  }
}
