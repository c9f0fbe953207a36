/** From a stored entry to an output row (src/query.rs): the general path that decodes,
    overlays the key, re-checks the filters and projects; and the fast path that scans the
    raw bytes once per selected column. */
module Projection {
  import opened Bytes
  import opened Values
  import opened Equality
  import opened Codec
  import opened RowCodec

  datatype EqFilter = EqFilter(idx: nat, val: Value)
  datatype InFilter = InFilter(idx: nat, vals: seq<Value>)

  /** The column indexes `exec_select` computes once per query. */
  datatype Query = Query(
    table: TableDef,
    selected: seq<nat>,
    eqs: seq<EqFilter>,
    ins: seq<InFilter>,
    keyIdxs: seq<nat>)

  predicate Below(xs: seq<nat>, n: nat) {
    forall i | 0 <= i < |xs| :: xs[i] < n
  }

  predicate Indexed(q: Query) {
    var n := |q.table.columns|;
    && Below(q.selected, n)
    && (forall f <- q.eqs :: f.idx < n)
    && (forall f <- q.ins :: f.idx < n)
    && Below(q.keyIdxs, n)
  }

  function TypeAt(q: Query, i: nat): ColumnType
    requires i < |q.table.columns|
  {
    q.table.columns[i].colType
  }

  /* ---------- The general path ---------- */

  /** The row with key parts `i..` decoded into their columns. */
  function Overlay(q: Query, row: seq<Value>, parts: seq<bytes>, i: nat): (r: Result<seq<Value>>)
    requires Indexed(q) && |row| == |q.table.columns|
    ensures r.Ok? ==> |r.value| == |row|
    decreases |q.keyIdxs| - i
  {
    if i >= |q.keyIdxs| || i >= |parts| then Ok(row) else
    var v :- FromRaw(parts[i], TypeAt(q, q.keyIdxs[i]));
    Overlay(q, row[q.keyIdxs[i] := v], parts, i + 1)
  }

  predicate Accepts(q: Query, row: seq<Value>)
    requires Indexed(q) && |row| == |q.table.columns|
  {
    && (forall f <- q.eqs :: ValueEq(f.val, row[f.idx]))
    && (forall f <- q.ins :: exists v <- f.vals :: ValueEq(v, row[f.idx]))
  }

  function Chosen(row: seq<Value>, selected: seq<nat>): (r: seq<Value>)
    requires Below(selected, |row|)
    ensures |r| == |selected| && forall i | 0 <= i < |r| :: r[i] == row[selected[i]]
  {
    seq(|selected|, i requires 0 <= i < |selected| => row[selected[i]])
  }

  /** The complete row a stored entry stands for. */
  function FullRow(q: Query, parts: seq<bytes>, val: bytes): (r: Result<seq<Value>>)
    requires Indexed(q)
    ensures r.Ok? ==> |r.value| == |q.table.columns|
  {
    var row :- DecodeRow(val, q.table.columns);
    Overlay(q, row, parts, 0)
  }

  /** The output row, or none when a filter rejects the entry. */
  function Project(q: Query, parts: seq<bytes>, val: bytes): Result<Option<seq<Value>>>
    requires Indexed(q)
  {
    var row :- FullRow(q, parts, val);
    Ok(if Accepts(q, row) then Some(Chosen(row, q.selected)) else None)
  }

  /** `project_decoded`: pushes to `outRows` and reports whether it did. */
  method ProjectDecoded(q: Query, parts: seq<bytes>, val: bytes, outRows: seq<seq<Value>>)
    returns (r: Result<bool>, rows: seq<seq<Value>>)
    requires Indexed(q)
    ensures match Project(q, parts, val)
            case Err(e) => r == Err(e) && rows == outRows
            case Ok(None) => r == Ok(false) && rows == outRows
            case Ok(Some(row)) => r == Ok(true) && rows == outRows + [row]
  {
    hide DecodeRow, FromRaw, ValueEq;
    rows := outRows;
    var decoded := ReadRow(val, q.table.columns);
    if decoded.Err? {
      return Err(decoded.why), rows;
    }
    var row := decoded.value;
    for i := 0 to |q.keyIdxs|
      invariant |row| == |q.table.columns| && rows == outRows
      invariant Overlay(q, row, parts, i) == Overlay(q, decoded.value, parts, 0)
    {
      if i < |parts| {
        var v := ReadRaw(parts[i], TypeAt(q, q.keyIdxs[i]));
        if v.Err? {
          return Err(v.why), rows;
        }
        row := row[q.keyIdxs[i] := v.value];
      }
    }
    assert FullRow(q, parts, val) == Ok(row);
    for i := 0 to |q.eqs|
      invariant forall f <- q.eqs[..i] :: ValueEq(f.val, row[f.idx])
    {
      if !ValueEq(q.eqs[i].val, row[q.eqs[i].idx]) {
        assert q.eqs[i] in q.eqs;
        return Ok(false), rows;
      }
      assert q.eqs[..i + 1] == q.eqs[..i] + [q.eqs[i]];
    }
    assert q.eqs[..|q.eqs|] == q.eqs;
    for i := 0 to |q.ins|
      invariant forall f <- q.ins[..i] :: exists v <- f.vals :: ValueEq(v, row[f.idx])
    {
      if !(exists v <- q.ins[i].vals :: ValueEq(v, row[q.ins[i].idx])) {
        assert q.ins[i] in q.ins;
        return Ok(false), rows;
      }
      assert q.ins[..i + 1] == q.ins[..i] + [q.ins[i]];
    }
    assert q.ins[..|q.ins|] == q.ins;
    assert Accepts(q, row);
    var out := [];
    for i := 0 to |q.selected|
      invariant out == Chosen(row, q.selected)[..i]
    {
      out := out + [row[q.selected[i]]];
    }
    assert out == Chosen(row, q.selected);
    return Ok(true), rows + [out];
  }

  /** `from_raw_bytes`: puts the length back in front. */
  method ReadRaw(raw: bytes, t: ColumnType) returns (r: Result<Value>)
    ensures r == FromRaw(raw, t)
  {
    r := ReadWire(I32(|raw|) + raw, t);
  }

  /* ---------- The fast path ---------- */

  function IndexOf(xs: seq<nat>, x: nat): (r: Option<nat>)
    ensures r.Some? ==> r.value < |xs| && xs[r.value] == x
    ensures r.None? ==> x !in xs
  {
    if xs == [] then None
    else if xs[0] == x then Some(0)
    else match IndexOf(xs[1..], x) case None => None case Some(i) => Some(i + 1)
  }

  /** The first stored value for column `idx`. A negative length other than -1 overflows the
      offset arithmetic; a skip past the end simply leaves the loop. */
  function FindCell(data: bytes, idx: nat, t: ColumnType): Result<Value>
    decreases |data|
  {
    if data == [] then Ok(Null)
    else if |data| < 6 then Err(Corrupt)
    else
      var found, len := Unsigned(data[..2]) == idx, Signed(data[2..6]);
      if len == -1 then if found then Ok(Null) else FindCell(data[6..], idx, t)
      else if len < 0 then Err(Panicked)
      else if found then if 6 + len > |data| then Err(Corrupt) else FromRaw(data[6..6 + len], t)
      else if 6 + len > |data| then Ok(Null)
      else FindCell(data[6 + len..], idx, t)
  }

  function FastCell(q: Query, parts: seq<bytes>, val: bytes, idx: nat): Result<Value>
    requires idx < |q.table.columns|
  {
    match IndexOf(q.keyIdxs, idx)
    case Some(pos) => if pos < |parts| then FromRaw(parts[pos], TypeAt(q, idx)) else Err(Panicked)
    case None => FindCell(val, idx, TypeAt(q, idx))
  }

  function FastCells(q: Query, parts: seq<bytes>, val: bytes, selected: seq<nat>): Result<seq<Value>>
    requires Below(selected, |q.table.columns|)
  {
    if selected == [] then Ok([]) else
    var v :- FastCell(q, parts, val, selected[0]);
    var rest :- FastCells(q, parts, val, selected[1..]);
    Ok([v] + rest)
  }

  /** `project_fast_point`. */
  method ProjectFastPoint(q: Query, parts: seq<bytes>, val: bytes, outRows: seq<seq<Value>>)
    returns (r: Result<bool>, rows: seq<seq<Value>>)
    requires Indexed(q)
    ensures match FastCells(q, parts, val, q.selected)
            case Err(e) => r == Err(e) && rows == outRows
            case Ok(row) => r == Ok(true) && rows == outRows + [row]
  {
    hide FindCell, FromRaw;
    rows := outRows;
    var out := [];
    AfterNone(FastCells(q, parts, val, q.selected));
    for i := 0 to |q.selected|
      invariant rows == outRows
      invariant FastCells(q, parts, val, q.selected) == After(out, FastCells(q, parts, val, q.selected[i..]))
    {
      var idx := q.selected[i];
      assert q.selected[i..][1..] == q.selected[i + 1..];
      var v;
      match IndexOf(q.keyIdxs, idx) {
        case Some(pos) =>
          if pos >= |parts| {
            return Err(Panicked), rows;
          }
          v := ReadRaw(parts[pos], TypeAt(q, idx));
        case None =>
          v := ScanForCell(val, idx, TypeAt(q, idx));
      }
      assert v == FastCell(q, parts, val, idx);
      if v.Err? {
        return Err(v.why), rows;
      }
      AfterPush(out, v.value, FastCells(q, parts, val, q.selected[i + 1..]));
      out := out + [v.value];
    }
    assert out + [] == out;
    return Ok(true), rows + [out];
  }

  /** The inner scan of the fast path. */
  method ScanForCell(val: bytes, idx: nat, t: ColumnType) returns (r: Result<Value>)
    ensures r == FindCell(val, idx, t)
  {
    hide FromRaw, Signed, Unsigned;
    var off := 0;
    while off < |val|
      invariant 0 <= off <= |val| && FindCell(val[off..], idx, t) == FindCell(val, idx, t)
    {
      if off + 6 > |val| {
        return Err(Corrupt);
      }
      assert val[off..][..2] == val[off..off + 2] && val[off..][2..6] == val[off + 2..off + 6];
      var found := Unsigned(val[off..off + 2]) == idx;
      var len := Signed(val[off + 2..off + 6]);
      assert val[off..][6..] == val[off + 6..];
      off := off + 6;
      if len == -1 {
        if found {
          return Ok(Null);
        }
      } else if len < 0 {
        return Err(Panicked);
      } else if found {
        if off + len > |val| {
          return Err(Corrupt);
        }
        assert val[off - 6..][6..6 + len] == val[off..off + len];
        r := ReadRaw(val[off..off + len], t);
        return;
      } else if off + len > |val| {
        return Ok(Null);
      } else {
        assert val[off - 6..][6 + len..] == val[off + len..];
        off := off + len;
      }
    }
    return Ok(Null);
  }

  /* ---------- The two paths agree ---------- */

  predicate DistinctCells(cells: seq<Cell>) {
    forall i, j | 0 <= i < j < |cells| :: cells[i].idx != cells[j].idx
  }

  function FirstListed(cells: seq<Cell>, i: nat): Value {
    if cells == [] then Null else if cells[0].idx == i then cells[0].val else FirstListed(cells[1..], i)
  }

  lemma {:induction false} FindEncoded(cells: seq<Cell>, cols: seq<ColumnDef>, idx: nat)
    requires CellsOk(cells, cols) && idx < |cols|
    ensures FindCell(EncodeRow(cells), idx, cols[idx].colType) == Ok(FirstListed(cells, idx))
    decreases |cells|
  {
    if cells != [] {
      hide EncodeRow, FromRaw, Signed, Unsigned, WellTyped, EncodeCell, FindCell;
      var c := cells[0];
      assert c in cells;
      FindEncoded(cells[1..], cols, idx);
      EncodeRowCons(cells);
      FindFront(c, EncodeRow(cells[1..]), cols, idx);
    }
  }

  lemma EncodeRowCons(cells: seq<Cell>)
    requires cells != []
    ensures EncodeRow(cells) == EncodeCell(cells[0]) + EncodeRow(cells[1..])
  {
  }

  lemma FindFront(c: Cell, rest: bytes, cols: seq<ColumnDef>, idx: nat)
    requires c.idx < |cols| <= 0x1_0000 && idx < |cols| && Storable(c.val, cols[c.idx].colType)
    ensures var t := cols[idx].colType;
            FindCell(EncodeCell(c) + rest, idx, t) == if c.idx == idx then Ok(c.val) else FindCell(rest, idx, t)
  {
    hide BigEndian, FromRaw, Unsigned, Raw, WellTyped;
    var data := EncodeCell(c) + rest;
    U16RoundTrip(c.idx);
    assert data[..2] == U16(c.idx);
    if c.val.Null? {
      I32RoundTrip(-1);
      assert data[2..6] == I32(-1) && data[6..] == rest;
    } else {
      var n := |Raw(c.val)|;
      TypedFits(c.val, cols[c.idx].colType);
      RoundTrip(c.val, cols[c.idx].colType);
      I32RoundTrip(n);
      assert data[2..6] == I32(n) && data[6..6 + n] == Raw(c.val) && data[6 + n..] == rest;
    }
  }

  lemma {:induction false} FirstIsLast(cells: seq<Cell>, i: nat)
    requires DistinctCells(cells)
    ensures FirstListed(cells, i) == LastListed(cells, i, Null)
    decreases |cells|
  {
    if cells != [] {
      FirstIsLast(cells[1..], i);
      LastListedCons(cells, i);
      if cells[0].idx == i {
        Unlisted(cells[1..], i);
      }
    }
  }

  lemma {:induction false} LastListedCons(cells: seq<Cell>, i: nat)
    requires cells != []
    ensures LastListed(cells, i, Null) == LastListed(cells[1..], i, if cells[0].idx == i then cells[0].val else Null)
    decreases |cells|
  {
    if |cells| > 1 {
      var init := cells[..|cells| - 1];
      LastListedCons(init, i);
      assert cells[1..][..|cells| - 2] == init[1..];
    }
  }

  lemma {:induction false} Unlisted(cells: seq<Cell>, i: nat)
    requires forall c <- cells :: c.idx != i
    ensures forall v :: LastListed(cells, i, v) == v
    decreases |cells|
  {
    if cells != [] {
      assert cells[|cells| - 1] in cells;
      Unlisted(cells[..|cells| - 1], i);
    }
  }

  /** A point query on a table with a single key column, restricted by that column only. */
  predicate SingleKeyPoint(q: Query, k: Value) {
    && Indexed(q) && |q.keyIdxs| == 1 && q.ins == [] && q.eqs == [EqFilter(q.keyIdxs[0], k)]
    && WellTyped(k, TypeAt(q, q.keyIdxs[0]))
  }

  lemma {:induction false} FastCellsAgree(q: Query, k: Value, cells: seq<Cell>, row: seq<Value>, selected: seq<nat>)
    requires SingleKeyPoint(q, k) && CellsOk(cells, q.table.columns) && DistinctCells(cells)
    requires FullRow(q, [Raw(k)], EncodeRow(cells)) == Ok(row)
    requires Below(selected, |q.table.columns|)
    ensures FastCells(q, [Raw(k)], EncodeRow(cells), selected) == Ok(Chosen(row, selected))
    decreases |selected|
  {
    hide FullRow, FastCell, EncodeRow, CellsOk, Raw, WellTyped;
    if selected != [] {
      FastCellAgrees(q, k, cells, row, selected[0]);
      FastCellsAgree(q, k, cells, row, selected[1..]);
      assert Chosen(row, selected) == [row[selected[0]]] + Chosen(row, selected[1..]);
    }
  }

  lemma FastCellAgrees(q: Query, k: Value, cells: seq<Cell>, row: seq<Value>, idx: nat)
    requires SingleKeyPoint(q, k) && CellsOk(cells, q.table.columns) && DistinctCells(cells)
    requires FullRow(q, [Raw(k)], EncodeRow(cells)) == Ok(row) && idx < |q.table.columns|
    ensures FastCell(q, [Raw(k)], EncodeRow(cells), idx) == Ok(row[idx])
  {
    hide EncodeRow, DecodeRow, FromRaw, FindCell, WellTyped, CellsOk, Raw;
    RowRoundTrip(cells, q.table.columns);
    KeyOverlay(q, k, DecodeRow(EncodeRow(cells), q.table.columns).value);
    RoundTrip(k, TypeAt(q, q.keyIdxs[0]));
    if idx != q.keyIdxs[0] {
      FindEncoded(cells, q.table.columns, idx);
      FirstIsLast(cells, idx);
    }
  }

  lemma KeyOverlay(q: Query, k: Value, row: seq<Value>)
    requires SingleKeyPoint(q, k) && |row| == |q.table.columns|
    ensures Overlay(q, row, [Raw(k)], 0) == Ok(row[q.keyIdxs[0] := k])
  {
    hide FromRaw, Raw, WellTyped;
    RoundTrip(k, TypeAt(q, q.keyIdxs[0]));
    assert Overlay(q, row[q.keyIdxs[0] := k], [Raw(k)], 1) == Ok(row[q.keyIdxs[0] := k]);
  }

  /** For every stored row with distinct column indexes the fast path emits exactly the row
      the general path would emit, if and only if the key value holds no NaN: the general
      path re-checks the key filter and a NaN does not equal itself. */
  lemma FastPathExactly(q: Query, k: Value, cells: seq<Cell>)
    requires SingleKeyPoint(q, k) && CellsOk(cells, q.table.columns) && DistinctCells(cells)
    ensures var fast := FastCells(q, [Raw(k)], EncodeRow(cells), q.selected);
            && fast.Ok?
            && Project(q, [Raw(k)], EncodeRow(cells)) == Ok(if HasNan(k) then None else Some(fast.value))
  {
    hide EncodeRow, DecodeRow, FromRaw, FindCell, WellTyped, CellsOk, Raw, FastCells, Overlay;
    RowRoundTrip(cells, q.table.columns);
    var decoded := DecodeRow(EncodeRow(cells), q.table.columns).value;
    KeyOverlay(q, k, decoded);
    var row := decoded[q.keyIdxs[0] := k];
    FastCellsAgree(q, k, cells, row, q.selected);
    ReflexiveExactly(k);
    assert Accepts(q, row) <==> ValueEq(k, k) by {
      assert q.eqs[0] in q.eqs;
    }
  }
}
