/** Uploading documents: cutting them into sections, and handing the flat list of embeddings back to
    the documents they belong to. */
module Upload {
  import opened Sequences
  import opened Rows
  import opened Quantization
  import opened Cosine
  import opened Compute
  import opened Tables
  import opened Format

  /** A document with its flattened text. */
  datatype Document = Document(name: string, text: string)

  // ----- sections

  function TrimLeft(s: string): string {
    if s != "" && IsSpace(s[0]) then TrimLeft(s[1..]) else s
  }

  function TrimRight(s: string): string {
    if s != "" && IsSpace(s[|s| - 1]) then TrimRight(s[..|s| - 1]) else s
  }

  function TrimDot(s: string): string {
    if s != "" && s[|s| - 1] == '.' then s[..|s| - 1] else s
  }

  function Prefix(name: string): string {
    if name == "" then "" else TrimDot(TrimRight(TrimLeft(name))) + ". "
  }

  const SEARCH_PREFIX := "search_document: "

  /** The inputs for the embedding model that one document makes. */
  function SectionsFor(doc: Document, ctxNum: int): (list: seq<string>) {
    Prefixed(RenderAll(Prefix(doc.name), Sections(Prefix(doc.name), doc.text, ctxNum)))
  }

  function Prefixed(sections: seq<string>): (r: seq<string>)
    ensures |r| == |sections|
  {
    seq(|sections|, i requires 0 <= i < |sections| => SEARCH_PREFIX + sections[i])
  }

  /** The inputs of a document are its sections behind the search prefix. */
  ghost predicate IsInputs(inputs: seq<string>, doc: Document, ctxNum: int) {
    exists list :: IsSplit(list, Prefix(doc.name), doc.text, MaxWords(ctxNum)) && ArePrefixed(inputs, list)
  }

  ghost predicate ArePrefixed(inputs: seq<string>, list: seq<string>) {
    |inputs| == |list| && forall k :: 0 <= k < |list| ==> inputs[k] == "search_document: " + list[k]
  }

  lemma InputsOfDocument(doc: Document, ctxNum: int)
    ensures IsInputs(SectionsFor(doc, ctxNum), doc, ctxNum)
  {
    var list := RenderAll(Prefix(doc.name), Sections(Prefix(doc.name), doc.text, ctxNum));
    SectionsAreSplit(Prefix(doc.name), doc.text, ctxNum);
    assert ArePrefixed(SectionsFor(doc, ctxNum), list);
  }

  ghost predicate AllSpaces(s: string) { forall i :: 0 <= i < |s| ==> IsSpace(s[i]) }

  lemma {:induction false} TrimLeftIs(s: string) returns (lead: string)
    ensures s == lead + TrimLeft(s) && AllSpaces(lead)
    ensures TrimLeft(s) != "" ==> !IsSpace(TrimLeft(s)[0])
  {
    if s == "" || !IsSpace(s[0]) {
      lead := "";
    } else {
      var rest := TrimLeftIs(s[1..]);
      lead := [s[0]] + rest;
    }
  }

  lemma {:induction false} TrimRightIs(s: string) returns (trail: string)
    ensures s == TrimRight(s) + trail && AllSpaces(trail)
    ensures TrimRight(s) != "" ==> !IsSpace(TrimRight(s)[|TrimRight(s)| - 1])
  {
    if s == "" || !IsSpace(s[|s| - 1]) {
      trail := "";
    } else {
      var rest := TrimRightIs(s[..|s| - 1]);
      trail := rest + [s[|s| - 1]];
    }
  }

  /** The prefix of a named document: its name without spaces around it and without a full stop at the
      end, and then a full stop and a space. */
  lemma PrefixIs(name: string) returns (lead: string, core: string, trail: string)
    requires name != ""
    ensures name == lead + core + trail && AllSpaces(lead) && AllSpaces(trail)
    ensures core != "" ==> !IsSpace(core[0]) && !IsSpace(core[|core| - 1])
    ensures Prefix(name) == (if core != "" && core[|core| - 1] == '.' then core[..|core| - 1] else core) + ". "
  {
    lead := TrimLeftIs(name);
    trail := TrimRightIs(TrimLeft(name));
    core := TrimRight(TrimLeft(name));
  }

  method AddPrefix(sections: seq<string>) returns (r: seq<string>)
    ensures r == Prefixed(sections)
  {
    r := sections;
    for i := 0 to |sections|
      invariant |r| == |sections|
      invariant forall k :: 0 <= k < |r| ==> r[k] == if k < i then Prefixed(sections)[k] else sections[k]
    {
      r := r[i := SEARCH_PREFIX + r[i]];
    }
  }

  function AllSections(docs: seq<Document>, ctxNum: int): (all: seq<seq<string>>)
    ensures |all| == |docs|
  {
    seq(|docs|, i requires 0 <= i < |docs| => SectionsFor(docs[i], ctxNum))
  }

  lemma AtLeastOneSection(doc: Document, ctxNum: int)
    ensures |SectionsFor(doc, ctxNum)| >= 1
  {
    GroupsFlatten([], 0, SplitLines(doc.text), MaxWords(ctxNum), Prefix(doc.name) != "");
  }

  /** The sentences of the document, each once and in order, are the sentences of its sections. */
  lemma SectionsCoverText(doc: Document, ctxNum: int)
    ensures JoinLines(SplitLines(doc.text)) == doc.text
    ensures Flatten(Sections(Prefix(doc.name), doc.text, ctxNum)) == SplitLines(doc.text)
  {
    SplitLinesInverts(doc.text);
    GroupsFlatten([], 0, SplitLines(doc.text), MaxWords(ctxNum), Prefix(doc.name) != "");
  }

  function Sizes<T>(parts: seq<seq<T>>): (sizes: seq<nat>)
    ensures |sizes| == |parts|
  {
    seq(|parts|, i requires 0 <= i < |parts| => |parts[i]|)
  }

  method PrepareSections(docs: seq<Document>, ctxNum: int) returns (counts: seq<nat>, inputs: seq<string>)
    ensures counts == Sizes(AllSections(docs, ctxNum))
    ensures inputs == Flatten(AllSections(docs, ctxNum))
  {
    ghost var all := AllSections(docs, ctxNum);
    counts, inputs := [], [];
    for idx := 0 to |docs|
      invariant counts == Sizes(all[..idx]) && inputs == Flatten(all[..idx])
    {
      var sections := Split(Prefix(docs[idx].name), docs[idx].text, ctxNum);
      sections := AddPrefix(sections);
      assert sections == all[idx];
      OneMorePart(all, idx);
      counts := counts + [|sections|];
      inputs := inputs + sections;
    }
    assert all[..|docs|] == all;
  }

  lemma OneMorePart(all: seq<seq<string>>, idx: nat)
    requires idx < |all|
    ensures Sizes(all[..idx + 1]) == Sizes(all[..idx]) + [|all[idx]|]
    ensures Flatten(all[..idx + 1]) == Flatten(all[..idx]) + all[idx]
  {
    assert all[..idx + 1] == all[..idx] + [all[idx]];
    FlattenSnoc(all[..idx], all[idx]);
  }

  // ----- regrouping

  function Sum(counts: seq<nat>): nat {
    if counts == [] then 0 else counts[0] + Sum(counts[1..])
  }

  /** Where part `i` starts in the flat list. */
  function StartOf(counts: seq<nat>, i: nat): nat
    requires i <= |counts|
  {
    Sum(counts[..i])
  }

  lemma {:induction false} SizeOfFlat<T>(parts: seq<seq<T>>)
    ensures |Flatten(parts)| == Sum(Sizes(parts))
  {
    if parts == [] {
    } else {
      SizeOfFlat(parts[1..]);
      assert Sizes(parts)[1..] == Sizes(parts[1..]);
    }
  }

  /** Part i fills the flat list from StartOf(i) on, which depends on the sizes alone. */
  lemma {:induction false} FlatSlice<T>(parts: seq<seq<T>>, i: nat)
    requires i < |parts|
    ensures StartOf(Sizes(parts), i) + |parts[i]| <= |Flatten(parts)|
    ensures Flatten(parts)[StartOf(Sizes(parts), i)..StartOf(Sizes(parts), i) + |parts[i]|] == parts[i]
  {
    if i == 0 {
    } else {
      FlatSlice(parts[1..], i - 1);
      assert Sizes(parts)[..i][1..] == Sizes(parts[1..])[..i - 1];
      var n, from, to := |parts[0]|, StartOf(Sizes(parts[1..]), i - 1), StartOf(Sizes(parts[1..]), i - 1) + |parts[i]|;
      assert StartOf(Sizes(parts), i) == n + from;
      assert (parts[0] + Flatten(parts[1..]))[n + from..n + to] == Flatten(parts[1..])[from..to];
    }
  }

  /** An embedding of a document under construction. */
  datatype Piece = Piece(vector: Row, centroid: nat)

  function Pieces(vectors: seq<Row>, indexes: seq<nat>, centroidIds: seq<nat>): (p: seq<Piece>)
    requires |vectors| == |indexes| && forall i :: 0 <= i < |indexes| ==> indexes[i] < |centroidIds|
    ensures |p| == |vectors|
  {
    seq(|vectors|, i requires 0 <= i < |vectors| => Piece(vectors[i], centroidIds[indexes[i]]))
  }

  /** The pieces of one document, taken from the front of both cursors. */
  method TakePieces(count: nat, vectors: seq<Row>, indexes: seq<nat>, centroidIds: seq<nat>)
    returns (pieces: seq<Piece>, restVectors: seq<Row>, restIndexes: seq<nat>)
    requires count <= |vectors| == |indexes|
    requires forall i :: 0 <= i < |indexes| ==> indexes[i] < |centroidIds|
    ensures restVectors == vectors[count..] && restIndexes == indexes[count..]
    ensures pieces == Pieces(vectors, indexes, centroidIds)[..count]
  {
    restVectors, restIndexes := vectors, indexes;
    pieces := [];
    for n := 0 to count
      invariant restVectors == vectors[n..] && restIndexes == indexes[n..]
      invariant pieces == Pieces(vectors, indexes, centroidIds)[..n]
    {
      var vector := restVectors[0];
      restVectors := restVectors[1..];
      var centroidIdx := restIndexes[0];
      restIndexes := restIndexes[1..];
      pieces := pieces + [Piece(vector, centroidIds[centroidIdx])];
    }
  }

  /** What the two cursors still hold after the first `idx` documents. */
  ghost predicate Remaining(groups: seq<seq<Piece>>, restVectors: seq<Row>, restIndexes: seq<nat>,
                            all: seq<Piece>, centroidIds: seq<nat>, counts: seq<nat>, idx: nat)
  {
    && idx <= |counts| && Sizes(groups) == counts[..idx]
    && |restVectors| == |restIndexes| == Sum(counts[idx..])
    && (forall i :: 0 <= i < |restIndexes| ==> restIndexes[i] < |centroidIds|)
    && Flatten(groups) + Pieces(restVectors, restIndexes, centroidIds) == all
  }

  lemma TakeKeepsRemaining(groups: seq<seq<Piece>>, restVectors: seq<Row>, restIndexes: seq<nat>,
                           all: seq<Piece>, centroidIds: seq<nat>, counts: seq<nat>, idx: nat)
    requires idx < |counts| && Remaining(groups, restVectors, restIndexes, all, centroidIds, counts, idx)
    ensures counts[idx] <= |restVectors|
    ensures var n, pieces := counts[idx], Pieces(restVectors, restIndexes, centroidIds);
      Remaining(groups + [pieces[..n]], restVectors[n..], restIndexes[n..], all, centroidIds, counts, idx + 1)
  {
    var n, pieces := counts[idx], Pieces(restVectors, restIndexes, centroidIds);
    assert counts[idx..][1..] == counts[idx + 1..];
    assert Pieces(restVectors[n..], restIndexes[n..], centroidIds) == pieces[n..];
    assert pieces == pieces[..n] + pieces[n..];
    FlattenSnoc(groups, pieces[..n]);
    assert Sizes(groups + [pieces[..n]]) == Sizes(groups) + [n];
  }

  /** The two cursor slices are consumed document by document; they never run short and end empty. */
  method Regroup(counts: seq<nat>, vectors: seq<Row>, indexes: seq<nat>, centroidIds: seq<nat>)
    returns (groups: seq<seq<Piece>>)
    requires |vectors| == |indexes| == Sum(counts)
    requires forall i :: 0 <= i < |indexes| ==> indexes[i] < |centroidIds|
    ensures Sizes(groups) == counts
    ensures Flatten(groups) == Pieces(vectors, indexes, centroidIds)
  {
    var matrixEmbeddings: seq<Row>, centroidIdxList: seq<nat> := vectors, indexes;
    groups := [];
    ghost var all := Pieces(vectors, indexes, centroidIds);
    for idx := 0 to |counts|
      invariant Remaining(groups, matrixEmbeddings, centroidIdxList, all, centroidIds, counts, idx)
    {
      TakeKeepsRemaining(groups, matrixEmbeddings, centroidIdxList, all, centroidIds, counts, idx);
      var pieces;
      pieces, matrixEmbeddings, centroidIdxList :=
        TakePieces(counts[idx], matrixEmbeddings, centroidIdxList, centroidIds);
      groups := groups + [pieces];
    }
    assert counts[|counts|..] == [];
    assert counts[..|counts|] == counts;
  }

  // ----- the upload

  datatype Result<+T> = Ok(value: T) | Err(reason: string)

  /** The outcome of an upload for a document: the pieces at the place of its sections. */
  ghost predicate IsEmbedded(pieces: seq<Piece>, sections: seq<string>, inputs: seq<string>, all: seq<Piece>,
                             start: nat)
  {
    && start + |sections| <= |inputs| == |all|
    && sections == inputs[start..start + |sections|]
    && pieces == all[start..start + |sections|]
  }

  /** Regrouping inverts flattening: every document gets exactly the embeddings of its own sections,
      in order. */
  lemma RegroupInvertsFlatten(sections: seq<seq<string>>, groups: seq<seq<Piece>>, all: seq<Piece>, i: nat)
    requires |all| == |Flatten(sections)| && i < |sections|
    requires Sizes(groups) == Sizes(sections) && Flatten(groups) == all
    ensures IsEmbedded(groups[i], sections[i], Flatten(sections), all, StartOf(Sizes(sections), i))
  {
    assert |groups[i]| == Sizes(groups)[i] == Sizes(sections)[i] == |sections[i]|;
    FlatSlice(sections, i);
    FlatSlice(groups, i);
  }

  /** The centroids an upload works with: those of the category, or a first one at the first
      embedding. */
  function CentroidsFor(found: seq<Centroid>, first: Row, category: nat, newId: nat): (cs: seq<Centroid>)
    ensures cs != []
  {
    if found == [] then [Centroid(newId, category, first)] else found
  }

  /** Every embedding with the id of its nearest centroid. */
  function PiecesWithNearest(vectors: seq<Row>, cs: seq<Centroid>, dim: nat, sqrt: real -> real): seq<Piece>
    requires cs != []
    requires SameWidth(DequantizeAll(VectorsOfCentroids(cs)), dim) && SameWidth(DequantizeAll(vectors), dim)
  {
    Pieces(vectors, NearestAll(DequantizeAll(VectorsOfCentroids(cs)), DequantizeAll(vectors), dim, sqrt),
           IdsOfCentroids(cs))
  }

  /** Piece `p` is vector `p` with the id of the centroid nearest to it. */
  ghost predicate IsPieceOf(piece: Piece, vector: Row, cs: seq<Centroid>, sqrt: real -> real) {
    && piece.vector == vector
    && exists k: nat :: IsNearestRow(k, VectorsOfCentroids(cs), vector, sqrt) && piece.centroid == cs[k].id
  }

  lemma PieceIsNearest(vectors: seq<Row>, cs: seq<Centroid>, dim: nat, sqrt: real -> real, p: nat)
    requires cs != [] && EvenRows(VectorsOfCentroids(cs), dim) && EvenRows(vectors, dim) && p < |vectors|
    ensures SameWidth(DequantizeAll(VectorsOfCentroids(cs)), dim) && SameWidth(DequantizeAll(vectors), dim)
    ensures |PiecesWithNearest(vectors, cs, dim, sqrt)| == |vectors|
    ensures IsPieceOf(PiecesWithNearest(vectors, cs, dim, sqrt)[p], vectors[p], cs, sqrt)
  {
    var rows := VectorsOfCentroids(cs);
    assert forall i :: 0 <= i < |rows| ==> DequantizeAll(rows)[i] == DequantizeVector(rows[i]);
    assert forall i :: 0 <= i < |vectors| ==> DequantizeAll(vectors)[i] == DequantizeVector(vectors[i]);
    var k := Nearest(DequantizeAll(rows), DequantizeVector(vectors[p]), sqrt);
    NearestRowIff(k, rows, vectors[p], sqrt);
  }

  /** `embedded` is the answer of the embedding model to the flat list of inputs, `found` the
      centroids of the category, `newId` the id the database would give to a new centroid. */
  method Upload(docs: seq<Document>, ctxNum: int, embedded: Option<seq<Row>>, found: seq<Centroid>,
                category: nat, newId: nat, dim: nat, sqrt: real -> real)
    returns (r: Result<seq<seq<Piece>>>, centroids: seq<Centroid>)
    requires dim > 0 && IsSqrt(sqrt) && EvenRows(VectorsOfCentroids(found), dim)
    requires embedded.Some? ==> EvenRows(embedded.value, dim)
    ensures r.Ok? <==> docs != [] && embedded.Some? && |embedded.value| == |Flatten(AllSections(docs, ctxNum))|
    ensures r.Ok? ==> |r.value| == |docs| && embedded.value != []
    ensures r.Ok? ==> centroids == CentroidsFor(found, embedded.value[0], category, newId)
    ensures r.Ok? ==> SameWidth(DequantizeAll(VectorsOfCentroids(centroids)), dim)
                      && SameWidth(DequantizeAll(embedded.value), dim)
    ensures r.Ok? ==> Sizes(r.value) == Sizes(AllSections(docs, ctxNum))
                      && Flatten(r.value) == PiecesWithNearest(embedded.value, centroids, dim, sqrt)
    ensures r.Ok? ==> forall i :: 0 <= i < |docs| ==>
              && |r.value[i]| >= 1
              && IsEmbedded(r.value[i], SectionsFor(docs[i], ctxNum), Flatten(AllSections(docs, ctxNum)),
                            PiecesWithNearest(embedded.value, centroids, dim, sqrt),
                            StartOf(Sizes(AllSections(docs, ctxNum)), i))
  {
    centroids := found;
    if docs == [] {
      return Err("no documents provided"), found;
    }
    var counts, inputs := PrepareSections(docs, ctxNum);
    if embedded.None? {
      return Err("failed to embed documents"), found;
    }
    var vectors := embedded.value;
    if |vectors| != |inputs| {
      return Err("invalid response embeddings count"), found;
    }
    ghost var sections := AllSections(docs, ctxNum);
    SomeInput(docs, ctxNum);
    SizeOfFlat(sections);
    if centroids == [] {
      centroids := centroids + [Centroid(newId, category, vectors[0])];
    }
    var indexes := NearestRows(VectorsOfCentroids(centroids), vectors, dim, sqrt);
    var groups := Regroup(counts, vectors, indexes, IdsOfCentroids(centroids));
    forall i | 0 <= i < |docs|
      ensures |groups[i]| >= 1
      ensures IsEmbedded(groups[i], SectionsFor(docs[i], ctxNum), inputs,
                         PiecesWithNearest(vectors, centroids, dim, sqrt), StartOf(Sizes(sections), i))
    {
      AtLeastOneSection(docs[i], ctxNum);
      RegroupInvertsFlatten(sections, groups, PiecesWithNearest(vectors, centroids, dim, sqrt), i);
    }
    r := Ok(groups);
  }

  lemma SomeInput(docs: seq<Document>, ctxNum: int)
    requires docs != []
    ensures Flatten(AllSections(docs, ctxNum)) != []
  {
    AtLeastOneSection(docs[0], ctxNum);
    FlatSlice(AllSections(docs, ctxNum), 0);
  }
}
