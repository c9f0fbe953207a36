/** Table definitions (src/schema.rs) and the sparse row format (src/storage.rs). */
module RowCodec {
  import opened Bytes
  import opened Values
  import opened Codec

  datatype ColumnDef = ColumnDef(name: bytes, colType: ColumnType, isPartition: bool, isClustering: bool)

  datatype TableDef = TableDef(
    keyspace: bytes,
    name: bytes,
    columns: seq<ColumnDef>,
    partitionKeys: seq<bytes>,
    clusteringKeys: seq<bytes>)

  /** One stored column: its index in the table and its value. */
  datatype Cell = Cell(idx: nat, val: Value)

  /** `encode_row_columns`; the index is cast to 16 bits. */
  function EncodeRow(cells: seq<Cell>): bytes {
    if cells == [] then [] else EncodeCell(cells[0]) + EncodeRow(cells[1..])
  }

  function EncodeCell(c: Cell): bytes {
    U16(c.idx) + Wire(c.val)
  }

  function Nulls(n: nat): (r: seq<Value>)
    ensures |r| == n && forall i | 0 <= i < n :: r[i] == Null
  {
    seq(n, _ => Null)
  }

  /** The first cell of `data`, its column checked, and what follows it. */
  function FirstCell(data: bytes, cols: seq<ColumnDef>): (r: Result<(Cell, bytes)>)
    ensures r.Ok? ==> r.value.0.idx < |cols| && |r.value.1| < |data|
  {
    if |data| < 2 then Err(Corrupt) else
    var idx := Unsigned(data[..2]);
    if idx >= |cols| then Err(Corrupt)
    else if |data| < 6 then Err(Corrupt)
    else
      var len := Signed(data[2..6]);
      if len == -1 then Ok((Cell(idx, Null), data[6..]))
      else if len < 0 || 6 + len > |data| then Err(Corrupt)
      else
        var v :- FromWire(data[2..6 + len], cols[idx].colType);
        Ok((Cell(idx, v), data[6 + len..]))
  }

  /** Decoding on top of a row already filled in part. */
  function DecodeInto(out: seq<Value>, data: bytes, cols: seq<ColumnDef>): (r: Result<seq<Value>>)
    requires |out| == |cols|
    ensures r.Ok? ==> |r.value| == |cols|
    decreases |data|
  {
    if data == [] then Ok(out) else
    var first :- FirstCell(data, cols);
    DecodeInto(out[first.0.idx := first.0.val], first.1, cols)
  }

  function DecodeRow(data: bytes, cols: seq<ColumnDef>): (r: Result<seq<Value>>)
    ensures r.Ok? ==> |r.value| == |cols|
  {
    DecodeInto(Nulls(|cols|), data, cols)
  }

  method WriteRow(cells: seq<Cell>) returns (out: bytes)
    ensures out == EncodeRow(cells)
  {
    hide EncodeCell;
    out := [];
    for i := 0 to |cells|
      invariant out + EncodeRow(cells[i..]) == EncodeRow(cells)
    {
      assert cells[i..][1..] == cells[i + 1..];
      assert out + EncodeRow(cells[i..]) == out + EncodeCell(cells[i]) + EncodeRow(cells[i + 1..]);
      out := WriteCell(cells[i], out);
    }
  }

  method WriteCell(c: Cell, out: bytes) returns (r: bytes)
    ensures r == out + EncodeCell(c)
  {
    hide Wire, BigEndian;
    r := out + U16(c.idx);
    r := WriteWire(c.val, r);
    assert out + U16(c.idx) + Wire(c.val) == out + (U16(c.idx) + Wire(c.val));
  }

  /** `decode_row_columns`. */
  method ReadRow(data: bytes, cols: seq<ColumnDef>) returns (r: Result<seq<Value>>)
    ensures r == DecodeRow(data, cols)
  {
    hide FromWire, Signed, Unsigned;
    var out := Nulls(|cols|);
    var off := 0;
    while off < |data|
      invariant 0 <= off <= |data| && |out| == |cols|
      invariant DecodeInto(out, data[off..], cols) == DecodeRow(data, cols)
    {
      if off + 2 > |data| {
        return Err(Corrupt);
      }
      var idx := Unsigned(data[off..off + 2]);
      assert data[off..][..2] == data[off..off + 2];
      off := off + 2;
      if idx >= |cols| {
        return Err(Corrupt);
      }
      if off + 4 > |data| {
        return Err(Corrupt);
      }
      var len := Signed(data[off..off + 4]);
      assert data[off - 2..][2..6] == data[off..off + 4];
      if len == -1 {
        out := out[idx := Null];
        assert data[off - 2..][6..] == data[off + 4..];
        off := off + 4;
      } else {
        if len < 0 || off + 4 + len > |data| {
          return Err(Corrupt);
        }
        assert data[off - 2..][2..6 + len] == data[off..off + 4 + len];
        assert data[off - 2..][6 + len..] == data[off + 4 + len..];
        var v := ReadWire(data[off..off + 4 + len], cols[idx].colType);
        if v.Err? {
          return Err(v.why);
        }
        out := out[idx := v.value];
        off := off + 4 + len;
      }
    }
    return Ok(out);
  }

  /* ---------- What a stored row means ---------- */

  /** A value the column can hold. */
  predicate Storable(v: Value, t: ColumnType) {
    v.Null? || WellTyped(v, t)
  }

  /** Cells as INSERT and UPDATE produce them: known columns, storable values. */
  predicate CellsOk(cells: seq<Cell>, cols: seq<ColumnDef>) {
    |cols| <= 0x1_0000 && forall c <- cells :: c.idx < |cols| && Storable(c.val, cols[c.idx].colType)
  }

  /** The row with the cells written over it, in order. */
  function Paint(out: seq<Value>, cells: seq<Cell>): (r: seq<Value>)
    requires forall c <- cells :: c.idx < |out|
    ensures |r| == |out|
    decreases |cells|
  {
    if cells == [] then out else Paint(out[cells[0].idx := cells[0].val], cells[1..])
  }

  /** The last value listed for column `i`, or `otherwise`. */
  function LastListed(cells: seq<Cell>, i: nat, otherwise: Value): Value {
    if cells == [] then otherwise
    else if cells[|cells| - 1].idx == i then cells[|cells| - 1].val
    else LastListed(cells[..|cells| - 1], i, otherwise)
  }

  lemma FirstCellEncoded(c: Cell, rest: bytes, cols: seq<ColumnDef>)
    requires c.idx < |cols| <= 0x1_0000 && Storable(c.val, cols[c.idx].colType)
    ensures FirstCell(EncodeCell(c) + rest, cols) == Ok((c, rest))
  {
    hide BigEndian, FromWire, Unsigned, Raw, WellTyped;
    var data := EncodeCell(c) + rest;
    U16RoundTrip(c.idx);
    assert data[..2] == U16(c.idx);
    if c.val.Null? {
      I32RoundTrip(-1);
      assert data[2..6] == I32(-1) && data[6..] == rest;
    } else {
      var n := |Raw(c.val)|;
      TypedFits(c.val, cols[c.idx].colType);
      RoundTrip(c.val, cols[c.idx].colType);
      I32RoundTrip(n);
      assert data[2..6] == I32(n) && data[2..6 + n] == Wire(c.val) && data[6 + n..] == rest;
    }
  }

  lemma {:induction false} DecodeEncoded(out: seq<Value>, cells: seq<Cell>, cols: seq<ColumnDef>)
    requires |out| == |cols| && CellsOk(cells, cols)
    ensures DecodeInto(out, EncodeRow(cells), cols) == Ok(Paint(out, cells))
    decreases |cells|
  {
    hide EncodeCell, Storable;
    if cells != [] {
      assert cells[0] in cells;
      FirstCellEncoded(cells[0], EncodeRow(cells[1..]), cols);
      DecodeEncoded(out[cells[0].idx := cells[0].val], cells[1..], cols);
      hide FirstCell;
    }
  }

  lemma {:induction false} PaintAppend(out: seq<Value>, a: seq<Cell>, c: Cell)
    requires (forall x <- a :: x.idx < |out|) && c.idx < |out|
    ensures Paint(out, a + [c]) == Paint(out, a)[c.idx := c.val]
    decreases |a|
  {
    if a == [] {
      assert a + [c] == [c] && [c][1..] == [];
      assert Paint(out[c.idx := c.val], []) == out[c.idx := c.val];
    } else {
      assert (a + [c])[0] == a[0] && (a + [c])[1..] == a[1..] + [c];
      PaintAppend(out[a[0].idx := a[0].val], a[1..], c);
    }
  }

  lemma {:induction false} PaintAt(out: seq<Value>, cells: seq<Cell>, i: nat)
    requires (forall c <- cells :: c.idx < |out|) && i < |out|
    ensures Paint(out, cells)[i] == LastListed(cells, i, out[i])
    decreases |cells|
  {
    if cells != [] {
      var n := |cells| - 1;
      PaintAt(out, cells[..n], i);
      PaintAppend(out, cells[..n], cells[n]);
      assert cells == cells[..n] + [cells[n]];
    }
  }

  /** Encoding then decoding a sparse row gives null everywhere except at the listed
      columns, and the last entry for a column wins. */
  lemma RowRoundTrip(cells: seq<Cell>, cols: seq<ColumnDef>)
    requires CellsOk(cells, cols)
    ensures var r := DecodeRow(EncodeRow(cells), cols);
            r.Ok? && forall i | 0 <= i < |cols| :: r.value[i] == LastListed(cells, i, Null)
  {
    hide EncodeRow, DecodeInto;
    DecodeEncoded(Nulls(|cols|), cells, cols);
    forall i | 0 <= i < |cols|
      ensures Paint(Nulls(|cols|), cells)[i] == LastListed(cells, i, Null)
    {
      PaintAt(Nulls(|cols|), cells, i);
    }
  }

  /** The last cell for column `i` stands at position `j`. */
  predicate LastFor(cells: seq<Cell>, j: int, i: nat) {
    0 <= j < |cells| && cells[j].idx == i && forall k | j < k < |cells| :: cells[k].idx != i
  }

  /** Painting leaves in every column the value of its last cell, and columns without a cell
      as they were. */
  lemma {:induction false} PaintExactly(out: seq<Value>, cells: seq<Cell>, i: nat)
    requires (forall c <- cells :: c.idx < |out|) && i < |out|
    ensures forall j | LastFor(cells, j, i) :: Paint(out, cells)[i] == cells[j].val
    ensures (forall j | 0 <= j < |cells| :: cells[j].idx != i) ==> Paint(out, cells)[i] == out[i]
    decreases |cells|
  {
    hide Paint;
    if cells == [] {
      PaintNothing(out);
    } else {
      var n := |cells| - 1;
      var before, last := cells[..n], cells[n];
      assert cells == before + [last] && last in cells && forall c <- before :: c in cells;
      PaintExactly(out, before, i);
      PaintAppend(out, before, last);
      forall j | LastFor(cells, j, i)
        ensures j == n || LastFor(before, j, i)
      {
      }
    }
  }

  lemma PaintNothing(out: seq<Value>)
    ensures Paint(out, []) == out
  {
  }
}
