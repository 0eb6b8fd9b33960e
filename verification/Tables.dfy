/** The tables of the index, as far as search and index building read them. */
module Tables {
  import opened Sequences
  import opened Rows

  datatype Centroid = Centroid(id: nat, category: nat, vector: Row)

  datatype Embedding = Embedding(id: nat, document: nat, centroid: nat, vector: Row)

  /** Documents with their category, centroids and embeddings, by primary key. */
  datatype Store = Store(documents: map<nat, nat>, centroids: map<nat, Centroid>,
                         embeddings: map<nat, Embedding>)

  // ----- columns

  function VectorsOf(rows: seq<Embedding>): (r: seq<Row>)
    ensures |r| == |rows|
  {
    seq(|rows|, i requires 0 <= i < |rows| => rows[i].vector)
  }

  function VectorsOfCentroids(cs: seq<Centroid>): (r: seq<Row>)
    ensures |r| == |cs|
  {
    seq(|cs|, i requires 0 <= i < |cs| => cs[i].vector)
  }

  function IdsOfCentroids(cs: seq<Centroid>): (r: seq<nat>)
    ensures |r| == |cs|
  {
    seq(|cs|, i requires 0 <= i < |cs| => cs[i].id)
  }

  predicate EvenEmbeddings(rows: seq<Embedding>, dim: nat) {
    forall i :: 0 <= i < |rows| ==> |rows[i].vector.codes| == dim
  }

  ghost predicate DistinctIds(rows: seq<Embedding>) {
    forall i, j :: 0 <= i < j < |rows| ==> rows[i].id != rows[j].id
  }

  ghost predicate DistinctCentroidIds(cs: seq<Centroid>) {
    forall i, j :: 0 <= i < j < |cs| ==> cs[i].id != cs[j].id
  }

  // ----- queries and writes

  /** `SELECT ... WHERE`, in any order; `ids` are the keys of the rows found. */
  method Find<T>(table: map<nat, T>, where: T -> bool) returns (found: seq<T>, ghost ids: seq<nat>)
    ensures |ids| == |found| && Distinct(ids)
    ensures forall i :: 0 <= i < |ids| ==> ids[i] in table && found[i] == table[ids[i]] && where(found[i])
    ensures forall id :: id in table && where(table[id]) ==> id in ids
  {
    found, ids := [], [];
    var todo := table.Keys;
    while todo != {}
      invariant todo <= table.Keys
      invariant |ids| == |found| && Distinct(ids)
      invariant forall i :: 0 <= i < |ids| ==>
                  ids[i] in table && ids[i] !in todo && found[i] == table[ids[i]] && where(found[i])
      invariant forall id :: id in table && id !in todo && where(table[id]) ==> id in ids
      decreases todo
    {
      var id :| id in todo;
      if where(table[id]) {
        found, ids := found + [table[id]], ids + [id];
      }
      todo := todo - {id};
    }
  }

  /** The table after writing rows one after the other, each under its id. */
  function Written<T>(table: map<nat, T>, rows: seq<T>, idOf: T -> nat): map<nat, T> {
    if rows == [] then table
    else Written(table, rows[..|rows| - 1], idOf)[idOf(rows[|rows| - 1]) := rows[|rows| - 1]]
  }

  lemma {:induction false} WrittenFrom<T>(table: map<nat, T>, rows: seq<T>, idOf: T -> nat)
    ensures forall id :: id in table ==> id in Written(table, rows, idOf)
    ensures forall id :: id in Written(table, rows, idOf) ==>
              || (id in table && Written(table, rows, idOf)[id] == table[id])
              || (exists i :: 0 <= i < |rows| && idOf(rows[i]) == id && Written(table, rows, idOf)[id] == rows[i])
    ensures forall id :: id in table && (forall i :: 0 <= i < |rows| ==> idOf(rows[i]) != id) ==>
              Written(table, rows, idOf)[id] == table[id]
  {
    if rows == [] {
    } else {
      var n := |rows| - 1;
      WrittenFrom(table, rows[..n], idOf);
      var before, after := Written(table, rows[..n], idOf), Written(table, rows, idOf);
      forall id | id in after && id != idOf(rows[n])
        ensures (id in table && after[id] == table[id])
                || exists i :: 0 <= i < |rows| && idOf(rows[i]) == id && after[id] == rows[i]
      {
        if i :| 0 <= i < n && idOf(rows[..n][i]) == id && before[id] == rows[..n][i] {
          assert idOf(rows[i]) == id && after[id] == rows[i];
        }
      }
      assert after[idOf(rows[n])] == rows[n];
    }
  }

  /** Rows with different ids are all there afterwards. */
  lemma {:induction false} WrittenRow<T>(table: map<nat, T>, rows: seq<T>, idOf: T -> nat, i: nat)
    requires i < |rows| && forall a, b :: 0 <= a < b < |rows| ==> idOf(rows[a]) != idOf(rows[b])
    ensures idOf(rows[i]) in Written(table, rows, idOf) && Written(table, rows, idOf)[idOf(rows[i])] == rows[i]
  {
    var n := |rows| - 1;
    if i == n {
    } else {
      WrittenRow(table, rows[..n], idOf, i);
      assert idOf(rows[i]) != idOf(rows[n]);
    }
  }

  method WriteAll<T>(table: map<nat, T>, rows: seq<T>, idOf: T -> nat) returns (after: map<nat, T>)
    ensures after == Written(table, rows, idOf)
  {
    after := table;
    for i := 0 to |rows|
      invariant after == Written(table, rows[..i], idOf)
    {
      assert rows[..i + 1][..i] == rows[..i];
      after := after[idOf(rows[i]) := rows[i]];
    }
    assert rows[..|rows|] == rows;
  }

  function IdOfEmbedding(e: Embedding): nat { e.id }

  function IdOfCentroid(c: Centroid): nat { c.id }
}
