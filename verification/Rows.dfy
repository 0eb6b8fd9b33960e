/** Rows as they are stored. */
module Rows {

  /** A byte. */
  type Code = n: nat | n < 256

  /** A row as the bytes of a file or a table: eight bytes of header, then one byte a component. */
  type Stored = seq<Code>

  /** A stored vector decoded as far as the header: its two floats and the codes. */
  datatype Row = Row(min: real, max: real, codes: seq<Code>)

  /** The two floats in the header bytes; how their bits encode them is left open. */
  type Header = seq<Code> -> (real, real)

  function Decode(row: Stored, header: Header): Row
    requires |row| >= 8
  {
    Row(header(row[..8]).0, header(row[..8]).1, row[8..])
  }

  /** Eight bytes of header and then the codes decode to the two floats and those codes. */
  lemma DecodeIs(bytes: seq<Code>, codes: seq<Code>, header: Header)
    requires |bytes| == 8
    ensures Decode(bytes + codes, header) == Row(header(bytes).0, header(bytes).1, codes)
  {
    assert (bytes + codes)[..8] == bytes && (bytes + codes)[8..] == codes;
  }

  /** Every row has exactly `width` bytes. */
  predicate Framed(rows: seq<Stored>, width: nat) {
    forall i :: 0 <= i < |rows| ==> |rows[i]| == width
  }

  function DecodeAll(rows: seq<Stored>, header: Header, dim: nat): (r: seq<Row>)
    requires Framed(rows, 8 + dim)
    ensures |r| == |rows| && forall i :: 0 <= i < |r| ==> |r[i].codes| == dim
  {
    seq(|rows|, i requires 0 <= i < |rows| => Decode(rows[i], header))
  }
}
