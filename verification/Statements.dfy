/** INSERT, UPDATE, DELETE and TRUNCATE (src/query.rs) on one table. The store they work on is
    the plain map of row bytes that module Coherence proves the engines and cache to be. */
module Statements {
  import opened Bytes
  import opened Values
  import opened Codec
  import opened Keys
  import opened Protocol
  import opened Coherence
  import opened RowCodec
  import opened Projection
  import opened SelectPlans
  import opened PlanEquivalence

  /** The storage as a settled client sees it. */
  class Store {
    var rows: Rows

    constructor ()
      ensures rows == map[]
    {
      rows := map[];
    }

    method Get(a: Address) returns (r: Option<bytes>)
      ensures r == Lookup(rows, a)
    {
      r := if a in rows then Some(rows[a]) else None;
    }

    method Write(a: Address, row: bytes)
      modifies this
      ensures rows == PlainStep(old(rows), PutRow(a, row))
    {
      rows := rows[a := row];
    }

    method Remove(a: Address)
      modifies this
      ensures rows == PlainStep(old(rows), DeleteRow(a))
    {
      rows := rows - {a};
    }

    method Wipe(scope: Scope)
      modifies this
      ensures rows == PlainStep(old(rows), Truncate(scope))
    {
      rows := map a | a in rows && !Hits(Truncate(scope), a) :: rows[a];
    }
  }

  /* ---------- Stored rows ---------- */

  predicate Regular(t: TableDef, i: nat)
    requires i < |t.columns|
  {
    !t.columns[i].isPartition && !t.columns[i].isClustering
  }

  /** The cells of the regular columns from `from` on, in column order, nulls included. */
  function RegularCells(t: TableDef, row: seq<Value>, from: nat): seq<Cell>
    requires |row| == |t.columns|
    decreases |t.columns| - from
  {
    if from >= |t.columns| then [] else
    (if Regular(t, from) then [Cell(from, row[from])] else []) + RegularCells(t, row, from + 1)
  }

  /** The row with its key columns blanked, as it comes back from storage. */
  function Regularize(t: TableDef, row: seq<Value>): (r: seq<Value>)
    requires |row| == |t.columns|
    ensures |r| == |row| && forall i | 0 <= i < |row| :: r[i] == if Regular(t, i) then row[i] else Null
  {
    seq(|row|, i requires 0 <= i < |row| => if Regular(t, i) then row[i] else Null)
  }

  predicate TypedRow(t: TableDef, row: seq<Value>) {
    |row| == |t.columns| && forall i | 0 <= i < |row| :: Storable(row[i], t.columns[i].colType)
  }

  function Stored(t: TableDef, row: seq<Value>): bytes
    requires |row| == |t.columns|
  {
    EncodeRow(RegularCells(t, row, 0))
  }

  lemma {:induction false} RegularCellsOk(t: TableDef, row: seq<Value>, from: nat)
    requires |row| == |t.columns|
    ensures var cells := RegularCells(t, row, from);
            && DistinctCells(cells)
            && forall c <- cells :: from <= c.idx < |row| && c.val == row[c.idx]
    decreases |t.columns| - from
  {
    if from < |t.columns| {
      RegularCellsOk(t, row, from + 1);
      var rest := RegularCells(t, row, from + 1);
      forall i, j | 0 <= i < j < |[Cell(from, row[from])] + rest|
        ensures ([Cell(from, row[from])] + rest)[i].idx != ([Cell(from, row[from])] + rest)[j].idx
      {
        assert rest[j - 1] in rest;
      }
    }
  }

  lemma {:induction false} RegularCellsListed(t: TableDef, row: seq<Value>, from: nat, i: nat)
    requires |row| == |t.columns| && i < |row|
    ensures FirstListed(RegularCells(t, row, from), i) == if from <= i && Regular(t, i) then row[i] else Null
    decreases |t.columns| - from
  {
    if from < |t.columns| {
      RegularCellsListed(t, row, from + 1, i);
      var rest := RegularCells(t, row, from + 1);
      assert ([Cell(from, row[from])] + rest)[1..] == rest && [] + rest == rest;
    }
  }

  /** Writing a row and reading it back loses exactly the key columns. */
  lemma StoredRoundTrip(t: TableDef, row: seq<Value>)
    requires TypedRow(t, row) && |t.columns| <= 0x1_0000
    ensures DecodeRow(Stored(t, row), t.columns) == Ok(Regularize(t, row)) && StoredVal(t, Stored(t, row))
  {
    hide DecodeRow, EncodeRow, Storable;
    var cells := RegularCells(t, row, 0);
    RegularCellsOk(t, row, 0);
    assert CellsOk(cells, t.columns);
    RowRoundTrip(cells, t.columns);
    var back := DecodeRow(Stored(t, row), t.columns).value;
    forall i | 0 <= i < |row|
      ensures back[i] == Regularize(t, row)[i]
    {
      RegularCellsListed(t, row, 0, i);
      FirstIsLast(cells, i);
    }
    assert back == Regularize(t, row);
  }

  lemma {:induction false} SameRegularCells(t: TableDef, a: seq<Value>, b: seq<Value>, from: nat)
    requires |a| == |b| == |t.columns| && forall i | from <= i < |a| && Regular(t, i) :: a[i] == b[i]
    ensures RegularCells(t, a, from) == RegularCells(t, b, from)
    decreases |t.columns| - from
  {
    if from < |t.columns| {
      SameRegularCells(t, a, b, from + 1);
    }
  }

  /* ---------- INSERT ---------- */

  /** The last value given for a column. */
  function Latest(cells: seq<Cell>, i: nat): Option<Value> {
    if cells == [] then None
    else if cells[|cells| - 1].idx == i then Some(cells[|cells| - 1].val)
    else Latest(cells[..|cells| - 1], i)
  }

  function InsertedRow(t: TableDef, provided: seq<Cell>): (r: seq<Value>)
    ensures |r| == |t.columns|
  {
    seq(|t.columns|, i requires 0 <= i < |t.columns| => match Latest(provided, i) case Some(v) => v case None => Null)
  }

  /** `Latest` finds the last cell of the column, and nothing else. */
  lemma {:induction false} LatestExactly(cells: seq<Cell>, i: nat)
    ensures forall j | LastFor(cells, j, i) :: Latest(cells, i) == Some(cells[j].val)
    ensures Latest(cells, i).None? <==> forall j | 0 <= j < |cells| :: cells[j].idx != i
    ensures Latest(cells, i).Some? ==> exists j :: LastFor(cells, j, i) && cells[j].val == Latest(cells, i).value
    decreases |cells|
  {
    if cells != [] {
      var n := |cells| - 1;
      var before := cells[..n];
      LatestExactly(before, i);
      if cells[n].idx == i {
        assert LastFor(cells, n, i);
      } else {
        forall j | LastFor(cells, j, i)
          ensures LastFor(before, j, i)
        {
        }
        if Latest(before, i).Some? {
          var j :| LastFor(before, j, i) && before[j].val == Latest(before, i).value;
          assert LastFor(cells, j, i);
        }
      }
    }
  }

  /** An INSERT leaves in every column the last value provided for it, null in the others. */
  lemma InsertedIsPainted(t: TableDef, provided: seq<Cell>)
    requires Provided(t, provided)
    ensures InsertedRow(t, provided) == Paint(Nulls(|t.columns|), provided)
  {
    hide Latest, Paint;
    var nulls := Nulls(|t.columns|);
    assert forall c <- provided :: c.idx < |nulls|;
    forall i | 0 <= i < |t.columns|
      ensures InsertedRow(t, provided)[i] == Paint(nulls, provided)[i]
    {
      LatestExactly(provided, i);
      PaintExactly(nulls, provided, i);
      if Latest(provided, i).Some? {
        var j :| LastFor(provided, j, i) && provided[j].val == Latest(provided, i).value;
      }
    }
  }

  /** The value in column `i` of an INSERT, from the cells alone. */
  lemma InsertedExactly(t: TableDef, provided: seq<Cell>, i: nat)
    requires i < |t.columns|
    ensures forall j | LastFor(provided, j, i) :: InsertedRow(t, provided)[i] == provided[j].val
    ensures InsertedRow(t, provided)[i] == Null <==>
              forall j | LastFor(provided, j, i) :: provided[j].val.Null?
  {
    hide Latest;
    LatestExactly(provided, i);
  }

  /** The named key columns' values, each given and not null. */
  function InsertKey(t: TableDef, provided: seq<Cell>, names: seq<bytes>): Result<seq<Value>>
    requires forall i | 0 <= i < |names| :: Known(t, names[i])
  {
    if names == [] then Ok([])
    else match Latest(provided, Idx(t, names[0]))
      case None => Err(Invalid)
      case Some(v) =>
        if v.Null? then Err(Invalid) else
        var rest :- InsertKey(t, provided, names[1..]);
        Ok([v] + rest)
  }

  predicate Provided(t: TableDef, cells: seq<Cell>) {
    forall i | 0 <= i < |cells| :: cells[i].idx < |t.columns|
  }

  lemma RawAllNone()
    ensures RawAll([]) == []
  {
  }

  lemma RawAllPush(vs: seq<Value>, v: Value)
    ensures RawAll(vs + [v]) == RawAll(vs) + [Raw(v)]
  {
    hide Raw;
  }

  /** The columns of the statement, resolved to their indexes; a later one wins. */
  method Resolve(t: TableDef, provided: seq<Cell>) returns (resolved: seq<Option<Value>>)
    requires Provided(t, provided)
    ensures |resolved| == |t.columns| && forall j | 0 <= j < |resolved| :: resolved[j] == Latest(provided, j)
  {
    resolved := seq(|t.columns|, _ => None);
    for i := 0 to |provided|
      invariant |resolved| == |t.columns|
      invariant forall j | 0 <= j < |resolved| :: resolved[j] == Latest(provided[..i], j)
    {
      assert provided[..i + 1][..i] == provided[..i];
      resolved := resolved[provided[i].idx := Some(provided[i].val)];
    }
    assert provided[..|provided|] == provided;
  }

  method InsertKeyParts(t: TableDef, ghost provided: seq<Cell>,
      resolved: seq<Option<Value>>) returns (r: Result<seq<bytes>>)
    requires ValidTable(t) && |resolved| == |t.columns|
    requires forall j | 0 <= j < |resolved| :: resolved[j] == Latest(provided, j)
    ensures var key := InsertKey(t, provided, KeyNames(t));
            r == if key.Ok? then Ok(RawAll(key.value)) else Err(key.why)
  {
    hide Raw, Latest, RawAll, Position;
    var names := KeyNames(t);
    var parts: seq<bytes> := [];
    ghost var words: seq<Value> := [];
    RawAllNone();
    AfterNone(InsertKey(t, provided, names));
    assert names[0..] == names;
    for i := 0 to |names|
      invariant parts == RawAll(words)
      invariant InsertKey(t, provided, names) == After(words, InsertKey(t, provided, names[i..]))
    {
      assert names[i..][1..] == names[i + 1..];
      var v := resolved[Idx(t, names[i])];
      if v.None? {
        return Err(Invalid);
      }
      if v.value.Null? {
        return Err(Invalid);
      }
      AfterPush(words, v.value, InsertKey(t, provided, names[i + 1..]));
      RawAllPush(words, v.value);
      words := words + [v.value];
      parts := parts + [Raw(v.value)];
    }
    assert words + [] == words;
    return Ok(parts);
  }

  /** The regular cells of a row, as the INSERT and UPDATE loops collect them. */
  method CollectCells(t: TableDef, row: seq<Value>) returns (cells: seq<Cell>)
    requires |row| == |t.columns|
    ensures cells == RegularCells(t, row, 0)
  {
    cells := [];
    for i := 0 to |t.columns|
      invariant cells + RegularCells(t, row, i) == RegularCells(t, row, 0)
    {
      if !(t.columns[i].isPartition || t.columns[i].isClustering) {
        assert cells + ([Cell(i, row[i])] + RegularCells(t, row, i + 1))
            == cells + [Cell(i, row[i])] + RegularCells(t, row, i + 1);
        cells := cells + [Cell(i, row[i])];
      }
    }
    assert cells + [] == cells;
  }

  method ExecInsert(store: Store, t: TableDef, provided: seq<Cell>) returns (r: Result<()>)
    requires ValidTable(t) && Provided(t, provided)
    modifies store
    ensures match InsertKey(t, provided, KeyNames(t))
            case Err(e) => r == Err(e) && store.rows == old(store.rows)
            case Ok(ws) =>
              && r == Ok(())
              && store.rows == old(store.rows)[AddressIn(t, RawAll(ws)) := Stored(t, InsertedRow(t, provided))]
  {
    hide EncodeRow, RawAll, InsertKey;
    var resolved := Resolve(t, provided);
    var parts := InsertKeyParts(t, provided, resolved);
    if parts.Err? {
      return Err(parts.why);
    }
    var row := seq(|t.columns|, i requires 0 <= i < |t.columns| =>
      if resolved[i].Some? then resolved[i].value else Null);
    assert row == InsertedRow(t, provided);
    var cells := CollectCells(t, row);
    var encoded := WriteRow(cells);
    store.Write(AddressIn(t, parts.value), encoded);
    return Ok(());
  }

  /** Value `i` is the last one provided for key column `i`, and is not null. */
  ghost predicate ProvidesKey(t: TableDef, provided: seq<Cell>, names: seq<bytes>, ws: seq<Value>)
    requires forall i | 0 <= i < |names| :: Known(t, names[i])
  {
    && |ws| == |names|
    && forall i | 0 <= i < |names| ::
         !ws[i].Null? && exists j :: LastFor(provided, j, Idx(t, names[i])) && provided[j].val == ws[i]
  }

  /** An INSERT is accepted, with exactly that key, if and only if the cells provide one. */
  lemma {:induction false} InsertKeyExactly(t: TableDef, provided: seq<Cell>, names: seq<bytes>, ws: seq<Value>)
    requires forall i | 0 <= i < |names| :: Known(t, names[i])
    ensures InsertKey(t, provided, names) == Ok(ws) <==> ProvidesKey(t, provided, names, ws)
    decreases |names|
  {
    hide Latest, Known, Idx;
    if names != [] {
      LatestExactly(provided, Idx(t, names[0]));
      if ws != [] {
        InsertKeyExactly(t, provided, names[1..], ws[1..]);
        assert ws == [ws[0]] + ws[1..];
        assert forall i | 1 <= i < |names| :: names[i] == names[1..][i - 1];
        assert |ws| == |names| ==> forall i | 1 <= i < |ws| :: ws[i] == ws[1..][i - 1];
      }
    }
  }

  /* ---------- UPDATE ---------- */

  /** `key_parts_from_filters`: the first `=` on every key column, not null. */
  function FilterKey(filters: seq<Filter>, names: seq<bytes>): Result<seq<Value>> {
    if names == [] then Ok([])
    else match FirstEq(filters, names[0])
      case None => Err(Invalid)
      case Some(v) =>
        if v.Null? then Err(Invalid) else
        var rest :- FilterKey(filters, names[1..]);
        Ok([v] + rest)
  }

  /** The first equality on the column stands at position `j`. */
  predicate FirstFor(filters: seq<Filter>, j: int, name: bytes) {
    && 0 <= j < |filters| && filters[j].Eq? && filters[j].name == name
    && forall k | 0 <= k < j :: !(filters[k].Eq? && filters[k].name == name)
  }

  lemma {:induction false} FirstEqExactly(filters: seq<Filter>, name: bytes)
    ensures forall j | FirstFor(filters, j, name) :: FirstEq(filters, name) == Some(filters[j].val)
    ensures FirstEq(filters, name).Some? ==>
              exists j :: FirstFor(filters, j, name) && filters[j].val == FirstEq(filters, name).value
    decreases |filters|
  {
    if filters != [] {
      var rest := filters[1..];
      FirstEqExactly(rest, name);
      if filters[0].Eq? && filters[0].name == name {
        assert FirstFor(filters, 0, name);
      } else {
        forall j | FirstFor(filters, j, name)
          ensures j > 0 && FirstFor(rest, j - 1, name)
        {
          assert forall k | 0 <= k < |rest| :: rest[k] == filters[k + 1];
        }
        if FirstEq(rest, name).Some? {
          var j :| FirstFor(rest, j, name) && rest[j].val == FirstEq(rest, name).value;
          assert forall k | 1 <= k < |filters| :: filters[k] == rest[k - 1];
          assert FirstFor(filters, j + 1, name);
        }
      }
    }
  }

  /** Value `i` is that of the first equality on key column `i`, and is not null. */
  ghost predicate NamesKey(filters: seq<Filter>, names: seq<bytes>, ws: seq<Value>) {
    && |ws| == |names|
    && forall i | 0 <= i < |names| ::
         !ws[i].Null? && exists j :: FirstFor(filters, j, names[i]) && filters[j].val == ws[i]
  }

  /** An UPDATE or DELETE is accepted, with exactly that key, if and only if its filters name
      one. */
  lemma {:induction false} FilterKeyExactly(filters: seq<Filter>, names: seq<bytes>, ws: seq<Value>)
    ensures FilterKey(filters, names) == Ok(ws) <==> NamesKey(filters, names, ws)
    decreases |names|
  {
    hide FirstEq;
    if names != [] {
      FirstEqExactly(filters, names[0]);
      if ws != [] {
        FilterKeyExactly(filters, names[1..], ws[1..]);
        assert ws == [ws[0]] + ws[1..];
        assert forall i | 1 <= i < |names| :: names[i] == names[1..][i - 1];
        assert |ws| == |names| ==> forall i | 1 <= i < |ws| :: ws[i] == ws[1..][i - 1];
      }
    }
  }

  /** And a SELECT is a point lookup of exactly that key under the same condition. */
  lemma {:induction false} PointKeyExactly(filters: seq<Filter>, names: seq<bytes>, ws: seq<Value>)
    ensures PointValues(filters, names) == Some(ws) <==> NamesKey(filters, names, ws)
    decreases |names|
  {
    hide FirstEq;
    if names != [] {
      FirstEqExactly(filters, names[0]);
      if ws != [] {
        PointKeyExactly(filters, names[1..], ws[1..]);
        assert ws == [ws[0]] + ws[1..];
        assert forall i | 1 <= i < |names| :: names[i] == names[1..][i - 1];
        assert |ws| == |names| ==> forall i | 1 <= i < |ws| :: ws[i] == ws[1..][i - 1];
      }
    }
  }

  method KeyPartsFromFilters(t: TableDef, filters: seq<Filter>) returns (r: Result<seq<bytes>>)
    ensures var key := FilterKey(filters, KeyNames(t));
            r == if key.Ok? then Ok(RawAll(key.value)) else Err(key.why)
  {
    hide FirstEq, Raw, RawAll;
    var names := KeyNames(t);
    var parts: seq<bytes> := [];
    ghost var words: seq<Value> := [];
    RawAllNone();
    AfterNone(FilterKey(filters, names));
    assert names[0..] == names;
    for i := 0 to |names|
      invariant parts == RawAll(words)
      invariant FilterKey(filters, names) == After(words, FilterKey(filters, names[i..]))
    {
      assert names[i..][1..] == names[i + 1..];
      var v := FirstEq(filters, names[i]);
      if v.None? || v.value.Null? {
        return Err(Invalid);
      }
      AfterPush(words, v.value, FilterKey(filters, names[i + 1..]));
      RawAllPush(words, v.value);
      words := words + [v.value];
      parts := parts + [Raw(v.value)];
    }
    assert words + [] == words;
    return Ok(parts);
  }

  function RegularCount(t: TableDef, from: nat): nat
    decreases |t.columns| - from
  {
    if from >= |t.columns| then 0 else (if Regular(t, from) then 1 else 0) + RegularCount(t, from + 1)
  }

  /** The statement assigns as many distinct columns as there are regular ones. */
  predicate TakesShortcut(t: TableDef, assigns: seq<Cell>) {
    |assigns| == RegularCount(t, 0) && DistinctCells(assigns)
  }

  predicate AllRegular(t: TableDef, assigns: seq<Cell>) {
    forall i | 0 <= i < |assigns| :: assigns[i].idx < |t.columns| && Regular(t, assigns[i].idx)
  }

  function RegularSet(t: TableDef, from: nat): set<nat> {
    set i: nat | from <= i < |t.columns| && Regular(t, i)
  }

  lemma {:induction false} RegularSetSize(t: TableDef, from: nat)
    ensures |RegularSet(t, from)| == RegularCount(t, from)
    decreases |t.columns| - from
  {
    if from >= |t.columns| {
      assert RegularSet(t, from) == {};
    } else {
      RegularSetSize(t, from + 1);
      if Regular(t, from) {
        assert RegularSet(t, from) == {from} + RegularSet(t, from + 1);
      } else {
        assert RegularSet(t, from) == RegularSet(t, from + 1);
      }
    }
  }

  function Assigned(assigns: seq<Cell>): set<nat> {
    set i | 0 <= i < |assigns| :: assigns[i].idx
  }

  lemma {:induction false} AssignedSize(assigns: seq<Cell>)
    requires DistinctCells(assigns)
    ensures |Assigned(assigns)| == |assigns|
    decreases |assigns|
  {
    if assigns == [] {
      assert Assigned(assigns) == {};
    } else {
      var n := |assigns| - 1;
      var init := assigns[..n];
      AssignedSize(init);
      assert Assigned(assigns) == Assigned(init) + {assigns[n].idx} by {
        forall x | x in Assigned(init)
          ensures x in Assigned(assigns)
        {
          var i :| 0 <= i < |init| && init[i].idx == x;
          assert assigns[i].idx == x;
        }
        assert assigns[n].idx in Assigned(assigns);
        forall x | x in Assigned(assigns)
          ensures x in Assigned(init) + {assigns[n].idx}
        {
          var i :| 0 <= i < |assigns| && assigns[i].idx == x;
          assert i < n ==> init[i].idx == x;
        }
      }
      assert assigns[n].idx !in Assigned(init);
    }
  }

  lemma SubsetOfEqualSize<T>(a: set<T>, b: set<T>)
    requires a <= b && |a| == |b|
    ensures a == b
  {
    if x :| x in b && x !in a {
      assert a <= b - {x};
      SubsetSize(a, b - {x});
    }
  }

  lemma {:induction false} SubsetSize<T>(a: set<T>, b: set<T>)
    requires a <= b
    ensures |a| <= |b|
    decreases |a|
  {
    if x :| x in a {
      SubsetSize(a - {x}, b - {x});
    }
  }

  /** When the shortcut is taken: for as many assignments as there are regular columns, no
      column twice; so for every UPDATE that assigns each regular column once and no other. */
  lemma ShortcutTakenExactly(t: TableDef, assigns: seq<Cell>)
    ensures TakesShortcut(t, assigns) <==>
              && |assigns| == |set i: nat | i < |t.columns| && Regular(t, i)|
              && forall i, j | 0 <= i < j < |assigns| :: assigns[i].idx != assigns[j].idx
    ensures DistinctCells(assigns) && Assigned(assigns) == RegularSet(t, 0) ==> TakesShortcut(t, assigns)
  {
    RegularSetSize(t, 0);
    assert RegularSet(t, 0) == set i: nat | i < |t.columns| && Regular(t, i);
    if DistinctCells(assigns) {
      AssignedSize(assigns);
    }
  }

  /** The counting argument: under the shortcut's test, assigning only regular columns is the
      same as assigning every regular column. */
  lemma ShortcutCoversExactly(t: TableDef, assigns: seq<Cell>)
    requires TakesShortcut(t, assigns)
    ensures AllRegular(t, assigns) <==> RegularSet(t, 0) <= Assigned(assigns)
    ensures AllRegular(t, assigns) <==> RegularSet(t, 0) == Assigned(assigns)
  {
    RegularSetSize(t, 0);
    AssignedSize(assigns);
    if AllRegular(t, assigns) {
      assert Assigned(assigns) <= RegularSet(t, 0);
      SubsetOfEqualSize(Assigned(assigns), RegularSet(t, 0));
    }
    if RegularSet(t, 0) <= Assigned(assigns) {
      SubsetOfEqualSize(RegularSet(t, 0), Assigned(assigns));
      forall i | 0 <= i < |assigns|
        ensures assigns[i].idx < |t.columns| && Regular(t, assigns[i].idx)
      {
        assert assigns[i].idx in Assigned(assigns);
      }
    }
  }

  lemma PaintCovered(a: seq<Value>, b: seq<Value>, assigns: seq<Cell>, i: nat)
    requires |a| == |b| && i < |a| && i in Assigned(assigns) && forall c <- assigns :: c.idx < |a|
    ensures Paint(a, assigns)[i] == Paint(b, assigns)[i]
  {
    PaintAt(a, assigns, i);
    PaintAt(b, assigns, i);
    ListedIgnoresDefault(assigns, i, a[i], b[i]);
  }

  lemma {:induction false} ListedIgnoresDefault(cells: seq<Cell>, i: nat, v: Value, w: Value)
    requires i in Assigned(cells)
    ensures LastListed(cells, i, v) == LastListed(cells, i, w)
    decreases |cells|
  {
    var n := |cells| - 1;
    if cells[n].idx != i {
      var j :| 0 <= j < |cells| && cells[j].idx == i;
      assert cells[..n][j].idx == i;
      ListedIgnoresDefault(cells[..n], i, v, w);
    }
  }

  /** The path that skips the read writes the same bytes as read-modify-write, whatever the
      row held before, or if there was none. */
  lemma ShortcutIsReadModifyWrite(t: TableDef, assigns: seq<Cell>, before: seq<Value>)
    requires TakesShortcut(t, assigns) && AllRegular(t, assigns) && |before| == |t.columns|
    ensures Provided(t, assigns) && Stored(t, Paint(Nulls(|t.columns|), assigns)) == Stored(t, Paint(before, assigns))
  {
    hide EncodeRow, Paint;
    ShortcutCoversExactly(t, assigns);
    var blank := Nulls(|t.columns|);
    forall i | 0 <= i < |before| && Regular(t, i)
      ensures Paint(blank, assigns)[i] == Paint(before, assigns)[i]
    {
      assert i in RegularSet(t, 0);
      PaintCovered(blank, before, assigns, i);
    }
    SameRegularCells(t, Paint(blank, assigns), Paint(before, assigns), 0);
  }

  /** The last assignment to each column, as collected into a map. */
  function AssignMap(assigns: seq<Cell>): map<nat, Value> {
    if assigns == [] then map[] else
    var last := assigns[|assigns| - 1];
    AssignMap(assigns[..|assigns| - 1])[last.idx := last.val]
  }

  lemma {:induction false} AssignMapAt(assigns: seq<Cell>, i: nat)
    ensures i in AssignMap(assigns) <==> i in Assigned(assigns)
    ensures i in AssignMap(assigns) ==> forall v :: LastListed(assigns, i, v) == AssignMap(assigns)[i]
    decreases |assigns|
  {
    if assigns != [] {
      var n := |assigns| - 1;
      AssignMapAt(assigns[..n], i);
      if i in Assigned(assigns[..n]) {
        var j :| 0 <= j < n && assigns[..n][j].idx == i;
        assert assigns[j].idx == i;
      }
      if i in Assigned(assigns) && assigns[n].idx != i {
        var j :| 0 <= j < |assigns| && assigns[j].idx == i;
        assert assigns[..n][j].idx == i;
      }
      assert assigns[n].idx in Assigned(assigns);
    }
  }

  /** The write of the shortcut: a regular column without an assignment is a failed map
      lookup, which panics. */
  method ShortcutCells(t: TableDef, assigns: seq<Cell>) returns (r: Result<seq<Cell>>)
    requires Provided(t, assigns)
    ensures if RegularSet(t, 0) <= Assigned(assigns)
            then r == Ok(RegularCells(t, Paint(Nulls(|t.columns|), assigns), 0))
            else r == Err(Panicked)
  {
    hide Paint, LastListed;
    var byColumn := AssignMap(assigns);
    ghost var row := Paint(Nulls(|t.columns|), assigns);
    var cells := [];
    for i := 0 to |t.columns|
      invariant cells + RegularCells(t, row, i) == RegularCells(t, row, 0)
      invariant forall j: nat | j < i && Regular(t, j) :: j in Assigned(assigns)
    {
      if !(t.columns[i].isPartition || t.columns[i].isClustering) {
        AssignMapAt(assigns, i);
        if i !in byColumn {
          assert i in RegularSet(t, 0);
          return Err(Panicked);
        }
        PaintAt(Nulls(|t.columns|), assigns, i);
        assert cells + ([Cell(i, byColumn[i])] + RegularCells(t, row, i + 1))
            == cells + [Cell(i, byColumn[i])] + RegularCells(t, row, i + 1);
        cells := cells + [Cell(i, byColumn[i])];
      }
    }
    assert cells + [] == cells;
    return Ok(cells);
  }

  /** What UPDATE does to the row's previous values, or reports. */
  function UpdatedRow(t: TableDef, before: Option<bytes>, assigns: seq<Cell>): (r: Result<seq<Value>>)
    requires Provided(t, assigns)
    ensures r.Ok? ==> |r.value| == |t.columns|
  {
    var row :- if before.Some? then DecodeRow(before.value, t.columns) else Ok(Nulls(|t.columns|));
    Ok(Paint(row, assigns))
  }

  method CountRegular(t: TableDef) returns (n: nat)
    ensures n == RegularCount(t, 0)
  {
    n := 0;
    for i := 0 to |t.columns|
      invariant n + RegularCount(t, i) == RegularCount(t, 0)
    {
      if !t.columns[i].isPartition && !t.columns[i].isClustering {
        n := n + 1;
      }
    }
  }

  method AllDistinct(assigns: seq<Cell>) returns (b: bool)
    ensures b == DistinctCells(assigns)
  {
    var seen: set<nat> := {};
    for i := 0 to |assigns|
      invariant seen == Assigned(assigns[..i]) && DistinctCells(assigns[..i])
    {
      var x := assigns[i].idx;
      assert assigns[..i + 1][..i] == assigns[..i];
      if x in seen {
        var j :| 0 <= j < i && assigns[..i][j].idx == x;
        assert assigns[j].idx == assigns[i].idx;
        return false;
      }
      AssignedPush(assigns[..i], assigns[i]);
      assert assigns[..i] + [assigns[i]] == assigns[..i + 1];
      assert forall j | 0 <= j < i :: assigns[..i][j].idx in seen;
      seen := seen + {x};
    }
    assert assigns[..|assigns|] == assigns;
    return true;
  }

  lemma AssignedPush(cells: seq<Cell>, c: Cell)
    ensures Assigned(cells + [c]) == Assigned(cells) + {c.idx}
  {
    forall x | x in Assigned(cells) + {c.idx}
      ensures x in Assigned(cells + [c])
    {
      if x == c.idx {
        assert (cells + [c])[|cells|].idx == x;
      } else {
        var i :| 0 <= i < |cells| && cells[i].idx == x;
        assert (cells + [c])[i].idx == x;
      }
    }
    forall x | x in Assigned(cells + [c])
      ensures x in Assigned(cells) + {c.idx}
    {
      var i :| 0 <= i < |cells + [c]| && (cells + [c])[i].idx == x;
      assert i < |cells| ==> cells[i].idx == x;
    }
  }

  /** An UPDATE with a complete key writes the merge of its assignments into the row, reading
      the row only when it must; it panics exactly when it takes the shortcut although a key
      column is among the assigned ones. */
  method ExecUpdate(store: Store, t: TableDef, assigns: seq<Cell>, filters: seq<Filter>) returns (r: Result<()>)
    requires ValidTable(t) && Provided(t, assigns)
    modifies store
    ensures match FilterKey(filters, KeyNames(t))
            case Err(e) => r == Err(e) && store.rows == old(store.rows)
            case Ok(ws) =>
              (var a := AddressIn(t, RawAll(ws));
               var shortcut := TakesShortcut(t, assigns);
               var merged := UpdatedRow(t, if shortcut then None else Lookup(old(store.rows), a), assigns);
               if shortcut && !AllRegular(t, assigns) then r == Err(Panicked) && store.rows == old(store.rows)
               else if merged.Err? then r == Err(merged.why) && store.rows == old(store.rows)
               else r == Ok(()) && store.rows == old(store.rows)[a := Stored(t, merged.value)])
  {
    hide EncodeRow, DecodeRow, RawAll, FilterKey, Paint;
    var parts := KeyPartsFromFilters(t, filters);
    if parts.Err? {
      return Err(parts.why);
    }
    var a := AddressIn(t, parts.value);
    var count := CountRegular(t);
    var distinct := AllDistinct(assigns);
    var cells;
    if |assigns| == count && distinct {
      ShortcutCoversExactly(t, assigns);
      var covered := ShortcutCells(t, assigns);
      if covered.Err? {
        return Err(covered.why);
      }
      cells := covered.value;
    } else {
      var existing := store.Get(a);
      var row := Nulls(|t.columns|);
      if existing.Some? {
        var decoded := RowCodec.ReadRow(existing.value, t.columns);
        if decoded.Err? {
          return Err(decoded.why);
        }
        row := decoded.value;
      }
      var merged := PaintAll(row, assigns);
      cells := CollectCells(t, merged);
    }
    var encoded := WriteRow(cells);
    store.Write(a, encoded);
    return Ok(());
  }

  method PaintAll(row: seq<Value>, assigns: seq<Cell>) returns (out: seq<Value>)
    requires forall c <- assigns :: c.idx < |row|
    ensures out == Paint(row, assigns)
  {
    out := row;
    assert assigns[0..] == assigns;
    for i := 0 to |assigns|
      invariant |out| == |row| && Paint(out, assigns[i..]) == Paint(row, assigns)
    {
      assert assigns[i..][1..] == assigns[i + 1..];
      out := out[assigns[i].idx := assigns[i].val];
    }
  }

  method ExecDelete(store: Store, t: TableDef, filters: seq<Filter>) returns (r: Result<()>)
    modifies store
    ensures match FilterKey(filters, KeyNames(t))
            case Err(e) => r == Err(e) && store.rows == old(store.rows)
            case Ok(ws) => r == Ok(()) && store.rows == old(store.rows) - {AddressIn(t, RawAll(ws))}
  {
    hide RawAll, FilterKey;
    var parts := KeyPartsFromFilters(t, filters);
    if parts.Err? {
      return Err(parts.why);
    }
    store.Remove(AddressIn(t, parts.value));
    return Ok(());
  }

  method ExecTruncate(store: Store, t: TableDef)
    modifies store
    ensures store.rows == PlainStep(old(store.rows), Truncate(Table(t.keyspace, t.name)))
  {
    store.Wipe(Table(t.keyspace, t.name));
  }
}
