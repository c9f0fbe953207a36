/** The byte-encoded store refines a map from key tuples to rows of values: INSERT, UPDATE,
    DELETE and TRUNCATE act on the one as on the other, and a full-key read returns the row
    of the other (src/query.rs, src/storage.rs). */
module Refinement {
  import opened Bytes
  import opened Values
  import opened Keys
  import opened Protocol
  import opened Coherence
  import opened RowCodec
  import opened Projection
  import opened SelectPlans
  import opened PlanEquivalence
  import opened Statements

  /** Rows by key tuple; a row has one value per column, null at the key columns. */
  type Abstract = map<seq<Value>, seq<Value>>

  /** A statement after its operands have been evaluated. */
  datatype Statement =
    | InsertInto(provided: seq<Cell>)
    | UpdateSet(assigns: seq<Cell>, filters: seq<Filter>)
    | DeleteFrom(filters: seq<Filter>)
    | TruncateTable

  predicate TypedCells(t: TableDef, cells: seq<Cell>) {
    forall i | 0 <= i < |cells| :: cells[i].idx < |t.columns| && Storable(cells[i].val, t.columns[cells[i].idx].colType)
  }

  /** Operands have their column's type, and the values that form the key are of the key
      columns' types and short enough. */
  predicate ProperStatement(t: TableDef, st: Statement)
    requires ValidTable(t)
  {
    match st
    case TruncateTable => true
    case _ =>
      && (KeyOf(t, st).Ok? ==> KeyWords(t, KeyOf(t, st).value))
      && (st.InsertInto? ==> TypedCells(t, st.provided))
      && (st.UpdateSet? ==> TypedCells(t, st.assigns))
  }

  /** The shortcut with a key column among the assigned ones: the code panics. */
  predicate Aborts(t: TableDef, assigns: seq<Cell>) {
    TakesShortcut(t, assigns) && !AllRegular(t, assigns)
  }

  /** The row an UPDATE starts from. */
  function Before(t: TableDef, m: Abstract, key: seq<Value>): (row: seq<Value>)
    ensures |row| == |t.columns|
  {
    if key in m && |m[key]| == |t.columns| then m[key] else Nulls(|t.columns|)
  }

  /** The key tuple a statement addresses, or its refusal. */
  function KeyOf(t: TableDef, st: Statement): Result<seq<Value>>
    requires ValidTable(t) && !st.TruncateTable?
  {
    match st
    case InsertInto(provided) => InsertKey(t, provided, KeyNames(t))
    case UpdateSet(_, filters) => FilterKey(filters, KeyNames(t))
    case DeleteFrom(filters) => FilterKey(filters, KeyNames(t))
  }

  /** The statement on the abstract map; a statement that is refused, or panics, changes
      nothing. An UPDATE outside the shortcut ignores what it assigns to key columns. */
  function AbstractStep(t: TableDef, m: Abstract, st: Statement): Abstract
    requires ValidTable(t) && ProperStatement(t, st)
  {
    match st
    case InsertInto(provided) =>
      var key := KeyOf(t, st);
      if key.Err? then m else m[key.value := Regularize(t, Paint(Nulls(|t.columns|), provided))]
    case UpdateSet(assigns, filters) =>
      var key := KeyOf(t, st);
      if key.Err? || Aborts(t, assigns) then m else
      m[key.value := Regularize(t, Paint(Before(t, m, key.value), assigns))]
    case DeleteFrom(filters) =>
      var key := KeyOf(t, st);
      if key.Err? then m else m - {key.value}
    case TruncateTable => map[]
  }

  /** What the statement does to the stored rows: the contracts of `ExecInsert`, `ExecUpdate`,
      `ExecDelete` and `ExecTruncate` as one function. */
  function StoreStep(t: TableDef, rows: Rows, st: Statement): Rows
    requires ValidTable(t) && ProperStatement(t, st)
  {
    match st
    case InsertInto(provided) =>
      var key := KeyOf(t, st);
      if key.Err? then rows else rows[AddressIn(t, RawAll(key.value)) := Stored(t, InsertedRow(t, provided))]
    case UpdateSet(assigns, filters) =>
      var key := KeyOf(t, st);
      if key.Err? || Aborts(t, assigns) then rows else
      var a := AddressIn(t, RawAll(key.value));
      var merged := UpdatedRow(t, if TakesShortcut(t, assigns) then None else Lookup(rows, a), assigns);
      if merged.Err? then rows else rows[a := Stored(t, merged.value)]
    case DeleteFrom(filters) =>
      var key := KeyOf(t, st);
      if key.Err? then rows else rows - {AddressIn(t, RawAll(key.value))}
    case TruncateTable => PlainStep(rows, Truncate(Table(t.keyspace, t.name)))
  }

  /** The statements run on a store do exactly that. */
  method Execute(store: Store, t: TableDef, st: Statement) returns (r: Result<()>)
    requires ValidTable(t) && ProperStatement(t, st)
    modifies store
    ensures store.rows == StoreStep(t, old(store.rows), st)
    ensures !st.TruncateTable? && KeyOf(t, st).Err? ==> r == Err(Invalid)
    ensures st.UpdateSet? && KeyOf(t, st).Ok? && Aborts(t, st.assigns) ==> r == Err(Panicked)
  {
    hide InsertKey, FilterKey, RawAll, Stored, InsertedRow, DecodeRow, Paint, KeyWords, ValidTable;
    match st {
      case InsertInto(provided) =>
        r := ExecInsert(store, t, provided);
        InsertKeyInvalid(t, provided, KeyNames(t)) by { KnownKeys(t); }
      case UpdateSet(assigns, filters) =>
        r := ExecUpdate(store, t, assigns, filters);
        FilterKeyInvalid(filters, KeyNames(t));
      case DeleteFrom(filters) =>
        r := ExecDelete(store, t, filters);
        FilterKeyInvalid(filters, KeyNames(t));
      case TruncateTable =>
        ExecTruncate(store, t);
        r := Ok(());
    }
  }

  lemma KnownKeys(t: TableDef)
    requires ValidTable(t)
    ensures forall i | 0 <= i < |KeyNames(t)| :: Known(t, KeyNames(t)[i])
  {
  }

  lemma {:induction false} InsertKeyInvalid(t: TableDef, provided: seq<Cell>, names: seq<bytes>)
    requires forall i | 0 <= i < |names| :: Known(t, names[i])
    ensures InsertKey(t, provided, names).Err? ==> InsertKey(t, provided, names) == Err(Invalid)
    decreases |names|
  {
    if names != [] {
      InsertKeyInvalid(t, provided, names[1..]);
    }
  }

  lemma {:induction false} FilterKeyInvalid(filters: seq<Filter>, names: seq<bytes>)
    ensures FilterKey(filters, names).Err? ==> FilterKey(filters, names) == Err(Invalid)
    decreases |names|
  {
    if names != [] {
      FilterKeyInvalid(filters, names[1..]);
    }
  }

  /* ---------- The refinement ---------- */

  ghost predicate AbstractOk(t: TableDef, m: Abstract)
    requires ValidTable(t)
  {
    forall ws <- m :: KeyWords(t, ws) && TypedRow(t, m[ws]) && m[ws] == Regularize(t, m[ws])
  }

  function Expected(t: TableDef, m: Abstract, ws: seq<Value>): Option<bytes>
    requires ws in m ==> |m[ws]| == |t.columns|
  {
    if ws in m then Some(Stored(t, m[ws])) else None
  }

  /** The stored rows of the table are the encodings of the abstract rows, and nothing else. */
  ghost predicate Models(t: TableDef, rows: Rows, m: Abstract)
    requires ValidTable(t)
  {
    && AbstractOk(t, m)
    && (forall ws | KeyWords(t, ws) :: Lookup(rows, AddressIn(t, RawAll(ws))) == Expected(t, m, ws))
    && (forall a <- rows | a.keyspace == t.keyspace && a.table == t.name ::
          exists ws :: KeyWords(t, ws) && a == AddressIn(t, RawAll(ws)))
  }

  lemma WriteRefines(t: TableDef, rows: Rows, m: Abstract, key: seq<Value>, row: seq<Value>)
    requires ValidTable(t) && Models(t, rows, m) && KeyWords(t, key) && TypedRow(t, row)
    ensures Models(t, rows[AddressIn(t, RawAll(key)) := Stored(t, row)], m[key := Regularize(t, row)])
  {
    hide EncodeRow, Storable, ValidTable, RawAll, KeyWords;
    var a := AddressIn(t, RawAll(key));
    var rows', m' := rows[a := Stored(t, row)], m[key := Regularize(t, row)];
    SameRegularCells(t, row, Regularize(t, row), 0);
    assert AbstractOk(t, m') by { RegularizedOk(t, row); }
    forall ws | KeyWords(t, ws)
      ensures Lookup(rows', AddressIn(t, RawAll(ws))) == Expected(t, m', ws)
    {
      assert Lookup(rows, AddressIn(t, RawAll(ws))) == Expected(t, m, ws);
      if RawAll(ws) == RawAll(key) {
        SameWords(t, ws, key);
      }
    }
  }

  lemma RegularizedOk(t: TableDef, row: seq<Value>)
    requires TypedRow(t, row)
    ensures TypedRow(t, Regularize(t, row)) && Regularize(t, Regularize(t, row)) == Regularize(t, row)
  {
  }

  lemma DeleteRefines(t: TableDef, rows: Rows, m: Abstract, key: seq<Value>)
    requires ValidTable(t) && Models(t, rows, m) && KeyWords(t, key)
    ensures Models(t, rows - {AddressIn(t, RawAll(key))}, m - {key})
  {
    hide EncodeRow, Storable, ValidTable, RawAll, KeyWords, Stored;
    var a := AddressIn(t, RawAll(key));
    var rows', m' := rows - {a}, m - {key};
    assert AbstractOk(t, m');
    forall ws | KeyWords(t, ws)
      ensures Lookup(rows', AddressIn(t, RawAll(ws))) == Expected(t, m', ws)
    {
      assert Lookup(rows, AddressIn(t, RawAll(ws))) == Expected(t, m, ws);
      if RawAll(ws) == RawAll(key) {
        SameWords(t, ws, key);
      }
    }
  }

  lemma {:induction false} PaintTyped(t: TableDef, row: seq<Value>, cells: seq<Cell>)
    requires TypedRow(t, row) && TypedCells(t, cells)
    ensures Provided(t, cells) && TypedRow(t, Paint(row, cells))
    decreases |cells|
  {
    hide Storable;
    if cells != [] {
      PaintTyped(t, row[cells[0].idx := cells[0].val], cells[1..]);
    }
  }

  lemma {:induction false} LatestTyped(t: TableDef, cells: seq<Cell>, i: nat)
    requires TypedCells(t, cells) && i < |t.columns|
    ensures Latest(cells, i).Some? ==> Storable(Latest(cells, i).value, t.columns[i].colType)
    decreases |cells|
  {
    hide Storable;
    if cells != [] {
      LatestTyped(t, cells[..|cells| - 1], i);
    }
  }

  lemma ProvidedWhenTyped(t: TableDef, cells: seq<Cell>)
    requires TypedCells(t, cells)
    ensures Provided(t, cells)
  {
    hide Storable;
  }

  lemma InsertedTyped(t: TableDef, provided: seq<Cell>)
    requires TypedCells(t, provided)
    ensures TypedRow(t, InsertedRow(t, provided))
  {
    hide WellTyped, Latest;
    forall i | 0 <= i < |t.columns|
      ensures Storable(InsertedRow(t, provided)[i], t.columns[i].colType)
    {
      LatestTyped(t, provided, i);
    }
  }

  /** An UPDATE, by either path, stores the merge of its assignments with the abstract row. */
  lemma UpdateRefines(t: TableDef, rows: Rows, m: Abstract, assigns: seq<Cell>, key: seq<Value>)
    requires ValidTable(t) && Models(t, rows, m) && KeyWords(t, key) && TypedCells(t, assigns) && !Aborts(t, assigns)
    ensures var before := Before(t, m, key);
            var a := AddressIn(t, RawAll(key));
            var merged := UpdatedRow(t, if TakesShortcut(t, assigns) then None else Lookup(rows, a), assigns);
            && Provided(t, assigns) && merged.Ok?
            && Stored(t, merged.value) == Stored(t, Paint(before, assigns))
            && TypedRow(t, Paint(before, assigns))
  {
    hide EncodeRow, RawAll, KeyWords, DecodeRow, Paint, Storable, Regularize;
    var before := Before(t, m, key);
    assert TypedRow(t, before) by { NullsTyped(t); }
    PaintTyped(t, before, assigns);
    if TakesShortcut(t, assigns) {
      ShortcutIsReadModifyWrite(t, assigns, before);
    } else {
      assert Lookup(rows, AddressIn(t, RawAll(key))) == Expected(t, m, key);
      if key in m {
        StoredRoundTrip(t, m[key]);
      }
    }
  }

  lemma NullsTyped(t: TableDef)
    ensures TypedRow(t, Nulls(|t.columns|))
  {
  }

  lemma TruncateRefines(t: TableDef, rows: Rows)
    requires ValidTable(t)
    ensures Models(t, PlainStep(rows, Truncate(Table(t.keyspace, t.name))), map[])
  {
    hide RawAll, KeyWords, ValidTable;
  }

  /** Every statement, accepted or refused, keeps the correspondence. */
  lemma StatementRefines(t: TableDef, rows: Rows, m: Abstract, st: Statement)
    requires ValidTable(t) && Models(t, rows, m) && ProperStatement(t, st)
    ensures Models(t, StoreStep(t, rows, st), AbstractStep(t, m, st))
  {
    hide Models, KeyWords, RawAll, ValidTable, KeyOf, Stored, TypedCells, Paint, Regularize, Before;
    match st
    case InsertInto(provided) =>
      var key := KeyOf(t, st);
      InsertedTyped(t, provided);
      InsertedIsPainted(t, provided) by { ProvidedWhenTyped(t, provided); }
      if key.Ok? {
        WriteRefines(t, rows, m, key.value, InsertedRow(t, provided));
      }
    case UpdateSet(assigns, filters) =>
      var key := KeyOf(t, st);
      if key.Ok? && !Aborts(t, assigns) {
        UpdateRefines(t, rows, m, assigns, key.value);
        WriteRefines(t, rows, m, key.value, Paint(Before(t, m, key.value), assigns));
      }
    case DeleteFrom(filters) =>
      var key := KeyOf(t, st);
      if key.Ok? {
        DeleteRefines(t, rows, m, key.value);
      }
    case TruncateTable => TruncateRefines(t, rows);
  }

  /* ---------- Whole runs ---------- */

  predicate ProperRun(t: TableDef, sts: seq<Statement>)
    requires ValidTable(t)
  {
    forall i | 0 <= i < |sts| :: ProperStatement(t, sts[i])
  }

  function StoreRun(t: TableDef, rows: Rows, sts: seq<Statement>): Rows
    requires ValidTable(t) && ProperRun(t, sts)
    decreases |sts|
  {
    if sts == [] then rows else StoreRun(t, StoreStep(t, rows, sts[0]), sts[1..])
  }

  function AbstractRun(t: TableDef, m: Abstract, sts: seq<Statement>): Abstract
    requires ValidTable(t) && ProperRun(t, sts)
    decreases |sts|
  {
    if sts == [] then m else AbstractRun(t, AbstractStep(t, m, sts[0]), sts[1..])
  }

  /** After any sequence of statements the store is the encoding of what the same statements
      make of the abstract map. */
  lemma {:induction false} RunRefines(t: TableDef, rows: Rows, m: Abstract, sts: seq<Statement>)
    requires ValidTable(t) && Models(t, rows, m) && ProperRun(t, sts)
    ensures Models(t, StoreRun(t, rows, sts), AbstractRun(t, m, sts))
    decreases |sts|
  {
    hide Models, StoreStep, AbstractStep, ValidTable, ProperStatement;
    if sts != [] {
      StatementRefines(t, rows, m, sts[0]);
      RunRefines(t, StoreStep(t, rows, sts[0]), AbstractStep(t, m, sts[0]), sts[1..]);
    }
  }

  /** A row with the values of its key laid over the key columns. */
  function KeyedRow(t: TableDef, ws: seq<Value>, row: seq<Value>): (r: seq<Value>)
    requires ValidTable(t) && |ws| == |KeyNames(t)| && |row| == |t.columns|
    ensures |r| == |row|
    ensures forall i | 0 <= i < |row| :: r[i] == if i in KeyIdxs(t) then ws[Slot(KeyIdxs(t), i)] else row[i]
  {
    seq(|row|, i requires 0 <= i < |row| => if i in KeyIdxs(t) then ws[Slot(KeyIdxs(t), i)] else row[i])
  }

  /** The stored form of an abstract row decodes, with its key laid over, to that row. */
  lemma StoredReadsBack(t: TableDef, row: seq<Value>, ws: seq<Value>, q: Query)
    requires ValidTable(t) && TypedRow(t, row) && row == Regularize(t, row) && KeyWords(t, ws)
    requires Indexed(q) && q.table == t && q.keyIdxs == KeyIdxs(t)
    ensures FullRow(q, RawAll(ws), Stored(t, row)) == Ok(KeyedRow(t, ws, row))
  {
    hide EncodeRow, DecodeRow, RawAll, Storable, FromRaw, Raw, WellTyped;
    StoredRoundTrip(t, row);
    KeyIdxsDistinct(t);
    OverlayKeys(q, row, ws, 0);
    OverlayOthers(q, row, RawAll(ws), 0);
    assert FullRow(q, RawAll(ws), Stored(t, row)).value == KeyedRow(t, ws, row);
  }

  function Slot(xs: seq<nat>, x: nat): (i: nat)
    requires x in xs
    ensures i < |xs| && xs[i] == x
  {
    IndexOf(xs, x).value
  }

  lemma {:induction false} OverlayOthers(q: Query, row: seq<Value>, parts: seq<bytes>, i: nat)
    requires Indexed(q) && |row| == |q.table.columns|
    ensures var r := Overlay(q, row, parts, i);
            r.Ok? ==> forall c | 0 <= c < |row| && c !in q.keyIdxs :: r.value[c] == row[c]
    decreases |q.keyIdxs| - i
  {
    hide FromRaw;
    if i < |q.keyIdxs| && i < |parts| {
      var v := FromRaw(parts[i], TypeAt(q, q.keyIdxs[i]));
      if v.Ok? {
        OverlayOthers(q, row[q.keyIdxs[i] := v.value], parts, i + 1);
      }
    }
  }

  /** Statements on one table leave the rows of every other table alone. */
  lemma OtherTablesUntouched(t: TableDef, rows: Rows, st: Statement, a: Address)
    requires ValidTable(t) && ProperStatement(t, st)
    requires a.keyspace != t.keyspace || a.table != t.name
    ensures Lookup(StoreStep(t, rows, st), a) == Lookup(rows, a)
  {
    hide KeyOf, RawAll, Stored, InsertedRow, UpdatedRow, ValidTable;
  }
}
