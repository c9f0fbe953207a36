/** What SELECT answers about the abstract table: full-key reads and scans of the encoded
    store, against the rows of the abstract map (src/query.rs). */
module AbstractQueries {
  import opened Bytes
  import opened Counting
  import opened Values
  import opened Equality
  import opened Keys
  import opened Pipeline
  import opened Protocol
  import opened Coherence
  import opened Scan
  import opened Sharding
  import opened RowCodec
  import opened Projection
  import opened SelectPlans
  import opened PlanEquivalence
  import opened PartitionPlan
  import opened Select
  import opened PlanLimits
  import opened Statements
  import opened Refinement

  /* ---------- Full-key reads ---------- */

  /** What a full-key SELECT says about the abstract table: the selected columns of the row,
      if there is one and the filters accept it. The single-key shortcut asks no filter. */
  function KeyAnswer(t: TableDef, m: Abstract, filters: seq<Filter>, selected: seq<nat>,
      ws: seq<Value>): seq<seq<Value>>
    requires ValidTable(t) && FiltersOk(t, filters) && Below(selected, |t.columns|) && |ws| == |KeyNames(t)|
  {
    var q := QueryOf(t, filters, selected);
    if ws !in m || |m[ws]| != |t.columns| then []
    else
      var row := KeyedRow(t, ws, m[ws]);
      if TakesFastPath(q) || Satisfies(t, filters, row) then [Chosen(row, selected)] else []
  }

  lemma QueryShape(t: TableDef, filters: seq<Filter>, selected: seq<nat>)
    requires ValidTable(t) && FiltersOk(t, filters) && Below(selected, |t.columns|)
    ensures var q := QueryOf(t, filters, selected);
            Indexed(q) && q.table == t && q.keyIdxs == KeyIdxs(t) && q.selected == selected
  {
    hide ValidTable, FiltersOk;
  }

  lemma StoredCells(t: TableDef, row: seq<Value>) returns (cells: seq<Cell>)
    requires ValidTable(t) && TypedRow(t, row)
    ensures CellsOk(cells, t.columns) && DistinctCells(cells) && Stored(t, row) == EncodeRow(cells)
  {
    hide EncodeRow, CellsOk, DecodeRow;
    StoredRoundTrip(t, row);
    cells :| CellsOk(cells, t.columns) && DistinctCells(cells) && Stored(t, row) == EncodeRow(cells);
  }

  /** Either projection of a stored abstract row answers from that row. */
  lemma StoredRowAnswers(t: TableDef, row: seq<Value>, filters: seq<Filter>, selected: seq<nat>, ws: seq<Value>)
    requires ValidTable(t) && FiltersOk(t, filters) && Below(selected, |t.columns|)
    requires TypedRow(t, row) && row == Regularize(t, row) && KeyWords(t, ws)
    requires PointValues(filters, KeyNames(t)) == Some(ws)
    ensures var q, full := QueryOf(t, filters, selected), KeyedRow(t, ws, row);
            PointAnswer(q, RawAll(ws), Some(Stored(t, row)))
            == Ok(if TakesFastPath(q) || Satisfies(t, filters, full) then [Chosen(full, selected)] else [])
  {
    hide QueryOf, TakesFastPath, FastCells, FullRow, KeyedRow, Stored, WellTyped, Raw, PointValues, Regularize;
    hide Storable, Accepts, Satisfies, CellsOk, EncodeRow, FiltersOk;
    var q, full := QueryOf(t, filters, selected), KeyedRow(t, ws, row);
    QueryShape(t, filters, selected);
    StoredReadsBack(t, row, ws, q);
    AcceptsExactly(t, filters, selected, full);
    if TakesFastPath(q) {
      PointFilters(t, filters);
      FastShape(t, q, filters, selected);
      ShortcutShape(t, filters, selected, ws[0]);
      var cells := StoredCells(t, row);
      assert RawAll(ws) == [Raw(ws[0])];
      FastCellsAgree(q, ws[0], cells, full, selected);
    }
  }

  /** A full-key SELECT on rows that encode the abstract table answers from that table. */
  lemma LookupAnswers(t: TableDef, rows: Rows, m: Abstract, filters: seq<Filter>, selected: seq<nat>, ws: seq<Value>)
    requires ValidTable(t) && FiltersOk(t, filters) && Below(selected, |t.columns|)
    requires Models(t, rows, m) && KeyWords(t, ws) && PointValues(filters, KeyNames(t)) == Some(ws)
    ensures PointAnswer(QueryOf(t, filters, selected), RawAll(ws), Lookup(rows, AddressIn(t, RawAll(ws))))
            == Ok(KeyAnswer(t, m, filters, selected, ws))
  {
    hide QueryOf, TakesFastPath, FastCells, Project, KeyedRow, Stored, WellTyped, Raw, PointValues, RawAll, Satisfies;
    hide FiltersOk, KeyWords, Regularize, Storable;
    assert Lookup(rows, AddressIn(t, RawAll(ws))) == Expected(t, m, ws);
    if ws in m {
      StoredRowAnswers(t, m[ws], filters, selected, ws);
    }
  }

  /** For `WHERE` equating every key column and nothing else, the answer is the abstract row
      if and only if there is one and, on keys of several columns, no key value is NaN. */
  lemma KeyAnswerExactly(t: TableDef, m: Abstract, selected: seq<nat>, ws: seq<Value>)
    requires ValidTable(t) && Below(selected, |t.columns|) && |ws| == |KeyNames(t)|
    requires ws in m ==> |m[ws]| == |t.columns|
    ensures KeyAnswer(t, m, KeyFilters(t, ws), selected, ws)
            == if ws in m && (|ws| == 1 || !SomeNan(ws)) then [Chosen(KeyedRow(t, ws, m[ws]), selected)] else []
  {
    hide QueryOf, TakesFastPath, KeyedRow, ValueEq, HasNan, Satisfies, ValidTable;
    KeyQuery(t, ws, selected);
    if ws in m {
      KeyRowReflexive(t, ws, m[ws], selected);
    }
  }

  lemma KeyRowReflexive(t: TableDef, ws: seq<Value>, row: seq<Value>, selected: seq<nat>)
    requires ValidTable(t) && Below(selected, |t.columns|) && |ws| == |KeyNames(t)| && |row| == |t.columns|
    ensures Satisfies(t, KeyFilters(t, ws), KeyedRow(t, ws, row)) <==> !SomeNan(ws)
  {
    hide ValidTable, ValueEq, HasNan, Idx;
    var filters, full := KeyFilters(t, ws), KeyedRow(t, ws, row);
    KeyIdxsDistinct(t);
    assert forall i | 0 <= i < |ws| :: full[KeyIdxs(t)[i]] == ws[i];
    forall i | 0 <= i < |ws|
      ensures ValueEq(ws[i], ws[i]) <==> !HasNan(ws[i])
    {
      ReflexiveExactly(ws[i]);
    }
    if !SomeNan(ws) {
      KeyFiltersTake(t, ws, ws);
      KeyRowAccepted(t, filters, selected, full, ws);
      AcceptsExactly(t, filters, selected, full);
    } else {
      var i :| 0 <= i < |ws| && HasNan(ws[i]);
      var c := KeyIdxs(t)[i];
      KnownKey(t, i);
      assert filters[i] in filters && t.columns[c].name == filters[i].name && full[c] == ws[i];
      assert !AcceptsWord(filters[i], full[c]);
    }
  }

  /* ---------- Scans ---------- */

  /** The engines hold, sharded and encoded, exactly the rows of the abstract table. */
  ghost predicate Holds(dbs: seq<Db>, t: TableDef, m: Abstract)
    requires dbs != [] && ValidTable(t)
  {
    Sharded(dbs) && exists rows :: Represents(dbs, rows) && Models(t, rows, m)
  }

  /** A row of the table on any engine is the encoding of an abstract row. */
  lemma EntryOrigin(dbs: seq<Db>, t: TableDef, m: Abstract, e: nat, k: bytes) returns (ws: seq<Value>)
    requires dbs != [] && ValidTable(t) && Holds(dbs, t, m)
    requires e < |dbs| && k in dbs[e] && StartsWith(k, DataPrefix(t.keyspace, t.name))
    ensures ws in m && KeyWords(t, ws) && TypedRow(t, m[ws])
    ensures Row(k, dbs[e][k]) == Row(RowKey(AddressIn(t, RawAll(ws))), Stored(t, m[ws]))
  {
    hide Route, EncodeKey, Stored, RawAll, KeyWords, Storable, Regularize;
    var rows :| Represents(dbs, rows) && Models(t, rows, m);
    var prefix := DataPrefix(t.keyspace, t.name);
    assert prefix[..3] == DT_PREFIX && k[..3] == prefix[..3];
    assert Lives(k, e, |dbs|);
    var a :| Good(a) && RowKey(a) == k && Route(a, |dbs|) == e;
    TableOfKey(a, t.keyspace, t.name);
    assert Lookup(dbs[e], k) == Lookup(rows, a);
    ws :| KeyWords(t, ws) && a == AddressIn(t, RawAll(ws));
    assert Lookup(rows, a) == Expected(t, m, ws);
  }

  /** Such engines are what the SELECT plans assume. */
  lemma HoldsIsStored(dbs: seq<Db>, t: TableDef, m: Abstract)
    requires dbs != [] && ValidTable(t) && Holds(dbs, t, m)
    ensures StoredTable(dbs, t)
  {
    hide Route, RowKey, Stored, RawAll, KeyWords, Represents, Models, Lives, TypedRow, DataPrefix, StartsWith;
    forall e, k | 0 <= e < |dbs| && k in dbs[e] && StartsWith(k, DataPrefix(t.keyspace, t.name))
      ensures exists ws :: StoredAs(t, Row(k, dbs[e][k]), ws)
    {
      var ws := EntryOrigin(dbs, t, m, e, k);
      StoredRoundTrip(t, m[ws]);
      assert StoredAs(t, Row(k, dbs[e][k]), ws);
    }
  }

  /** The keys of the abstract table, in any order. */
  ghost predicate Lists(keys: seq<seq<Value>>, m: Abstract) {
    Distinct(keys) && forall ws :: ws in keys <==> ws in m
  }

  predicate Wide(t: TableDef, m: Abstract, keys: seq<seq<Value>>) {
    forall i | 0 <= i < |keys| :: keys[i] in m && |keys[i]| == |KeyNames(t)| && |m[keys[i]]| == |t.columns|
  }

  /** The projected rows of the abstract table that satisfy every filter. */
  function Matching(t: TableDef, m: Abstract, filters: seq<Filter>, selected: seq<nat>,
      keys: seq<seq<Value>>): seq<seq<Value>>
    requires ValidTable(t) && FiltersOk(t, filters) && Below(selected, |t.columns|) && Wide(t, m, keys)
  {
    if keys == [] then [] else
    var row := KeyedRow(t, keys[0], m[keys[0]]);
    (if Satisfies(t, filters, row) then [Chosen(row, selected)] else [])
    + Matching(t, m, filters, selected, keys[1..])
  }

  function EntryOf(t: TableDef, m: Abstract, ws: seq<Value>): Row
    requires ws in m && |m[ws]| == |t.columns|
  {
    Row(RowKey(AddressIn(t, RawAll(ws))), Stored(t, m[ws]))
  }

  function EntriesOf(t: TableDef, m: Abstract, keys: seq<seq<Value>>): (r: seq<Row>)
    requires forall i | 0 <= i < |keys| :: keys[i] in m && |m[keys[i]]| == |t.columns|
    ensures |r| == |keys| && forall i | 0 <= i < |keys| :: r[i] == EntryOf(t, m, keys[i])
  {
    seq(|keys|, i requires 0 <= i < |keys| => EntryOf(t, m, keys[i]))
  }

  /** Scanning the entries emits the matching rows. */
  lemma {:induction false} EntriesEmit(t: TableDef, m: Abstract, filters: seq<Filter>, selected: seq<nat>,
      keys: seq<seq<Value>>)
    requires ValidTable(t) && FiltersOk(t, filters) && Below(selected, |t.columns|) && Wide(t, m, keys)
        && AbstractOk(t, m)
    ensures Emit(QueryOf(t, filters, selected), EntriesOf(t, m, keys)) == Matching(t, m, filters, selected, keys)
    decreases |keys|
  {
    hide QueryOf, EntryRow, KeyedRow, Satisfies, Chosen, ValidTable, FiltersOk, AbstractOk, EntryOf;
    if keys != [] {
      EntryEmits(t, m, filters, selected, keys[0]);
      EntriesEmit(t, m, filters, selected, keys[1..]);
      assert EntriesOf(t, m, keys)[1..] == EntriesOf(t, m, keys[1..]);
    }
  }

  lemma EntryEmits(t: TableDef, m: Abstract, filters: seq<Filter>, selected: seq<nat>, ws: seq<Value>)
    requires ValidTable(t) && FiltersOk(t, filters) && Below(selected, |t.columns|) && AbstractOk(t, m)
    requires ws in m && |ws| == |KeyNames(t)| && |m[ws]| == |t.columns|
    ensures var q, row := QueryOf(t, filters, selected), KeyedRow(t, ws, m[ws]);
            EntryRow(q, EntryOf(t, m, ws))
            == Ok(if Satisfies(t, filters, row) then Some(Chosen(row, selected)) else None)
  {
    hide QueryOf, EntryRow, KeyedRow, Accepts, Satisfies, Chosen, ValidTable, FiltersOk;
    hide KeyWords, Stored, FullRow, RawAll, RowKey;
    hide TypedRow, Regularize;
    StoredRoundTrip(t, m[ws]) by { assert |t.columns| <= 0x1_0000 by { ColumnBound(t); } }
    assert StoredAs(t, EntryOf(t, m, ws), ws);
    EntryMeaning(t, filters, selected, EntryOf(t, m, ws), ws);
    QueryShape(t, filters, selected);
    StoredReadsBack(t, m[ws], ws, QueryOf(t, filters, selected));
    AcceptsExactly(t, filters, selected, KeyedRow(t, ws, m[ws]));
  }

  lemma ColumnBound(t: TableDef)
    requires ValidTable(t)
    ensures |t.columns| <= 0x1_0000
  {
  }

  lemma EntriesDistinct(t: TableDef, m: Abstract, keys: seq<seq<Value>>)
    requires ValidTable(t) && AbstractOk(t, m) && Wide(t, m, keys) && Distinct(keys)
    ensures Distinct(EntriesOf(t, m, keys))
  {
    hide ValidTable, Stored, RawAll, RowKey, KeyWords, TypedRow, Regularize;
    var es := EntriesOf(t, m, keys);
    forall i, j | 0 <= i < j < |es|
      ensures es[i] != es[j]
    {
      if es[i] == es[j] {
        AddressGood(t, keys[i]);
        AddressGood(t, keys[j]);
        RowKeyInjective(AddressIn(t, RawAll(keys[i])), AddressIn(t, RawAll(keys[j])));
        SameWords(t, keys[i], keys[j]);
      }
    }
  }

  /** The rows of the table on all engines are the entries of the abstract table. */
  lemma EntriesInTable(dbs: seq<Db>, t: TableDef, m: Abstract, keys: seq<seq<Value>>, r: Row)
    requires dbs != [] && ValidTable(t) && Holds(dbs, t, m) && Lists(keys, m) && Wide(t, m, keys)
    ensures InTable(dbs, t, r) <==> r in EntriesOf(t, m, keys)
  {
    hide Route, RowsBelow, Stored, RawAll, KeyWords, TypedRow;
    hide ValidTable, RowKey, DataPrefix, StartsWith, Sharded, Regularize;
    var es, prefix := EntriesOf(t, m, keys), DataPrefix(t.keyspace, t.name);
    if InTable(dbs, t, r) {
      var e :| 0 <= e < |dbs| && r in RowsBelow(dbs[e], prefix);
      RowsBelowMembers(dbs[e], prefix, r);
      var ws := EntryOrigin(dbs, t, m, e, r.key);
      var i :| 0 <= i < |keys| && keys[i] == ws;
      assert es[i] == r;
    }
    if r in es {
      var i :| 0 <= i < |es| && es[i] == r;
      var a := AddressIn(t, RawAll(keys[i]));
      var rows :| Represents(dbs, rows) && Models(t, rows, m);
      assert Lookup(rows, a) == Expected(t, m, keys[i]);
      AddressGood(t, keys[i]);
      RouteInRange(a, |dbs|);
      assert Lookup(dbs[Route(a, |dbs|)], RowKey(a)) == Lookup(rows, a);
      PrefixOfRow(t, a);
      RowsBelowMembers(dbs[Route(a, |dbs|)], prefix, r);
    }
  }

  /** The meaning of a query over the engines is the matching rows of the abstract table. */
  lemma MeaningIsMatching(dbs: seq<Db>, t: TableDef, m: Abstract, filters: seq<Filter>, selected: seq<nat>,
      keys: seq<seq<Value>>)
    requires dbs != [] && ValidTable(t) && FiltersOk(t, filters) && Below(selected, |t.columns|)
    requires Holds(dbs, t, m) && Lists(keys, m) && Wide(t, m, keys)
    ensures multiset(Meaning(dbs, t, filters, selected)) == multiset(Matching(t, m, filters, selected, keys))
  {
    hide QueryOf, Emit, TableGroups, Concat, ValidTable, FiltersOk;
    hide Models, Represents, Sharded, InTable, Matching, Emits;
    var q, table, es := QueryOf(t, filters, selected), Concat(TableGroups(dbs, t)), EntriesOf(t, m, keys);
    HoldsIsStored(dbs, t, m);
    HoldsOk(dbs, t, m);
    EntriesDistinct(t, m, keys);
    forall r | Emits(q, r)
      ensures Times(table, r) == Times(es, r)
    {
      EntriesInTable(dbs, t, m, keys, r);
      TableTimes(dbs, t, r);
      TimesDistinct(es, r);
    }
    SameEmitters(q, table, es);
    EntriesEmit(t, m, filters, selected, keys);
  }

  lemma HoldsOk(dbs: seq<Db>, t: TableDef, m: Abstract)
    requires dbs != [] && ValidTable(t) && Holds(dbs, t, m)
    ensures AbstractOk(t, m)
  {
    hide AbstractOk;
    var rows :| Represents(dbs, rows) && Models(t, rows, m);
  }

  /** The rows SELECT answers from the engines, by the plan it takes. */
  function Answered(dbs: seq<Db>, t: TableDef, filters: seq<Filter>, selected: seq<nat>,
      limit: nat): Result<seq<seq<Value>>>
    requires dbs != [] && ValidTable(t) && FiltersOk(t, filters) && Below(selected, |t.columns|) && limit >= 1
  {
    var q := QueryOf(t, filters, selected);
    match PointValues(filters, KeyNames(t))
    case Some(vs) =>
      var a := AddressIn(t, RawAll(vs));
      PointAnswer(q, a.parts, Lookup(dbs[Route(a, |dbs|)], RowKey(a)))
    case None => FirstRows(q, Concat(ScanPlan(dbs, t, filters)), limit)
  }

  /** Any listing of the keys is wide, so asking for that excludes nothing. */
  lemma ListsWide(dbs: seq<Db>, t: TableDef, m: Abstract, keys: seq<seq<Value>>)
    requires dbs != [] && ValidTable(t) && Holds(dbs, t, m) && Lists(keys, m)
    ensures Wide(t, m, keys)
  {
    hide Holds, ValidTable, Storable, Regularize, WellTyped;
    HoldsOk(dbs, t, m);
  }

  /** Whichever plan a SELECT takes, if the plan fits the filters and the limit is not
      exceeded, it answers the projected abstract rows that satisfy every filter. */
  lemma SelectAnswersTheAbstractTable(
      dbs: seq<Db>, t: TableDef, m: Abstract, filters: seq<Filter>, selected: seq<nat>, limit: nat,
      keys: seq<seq<Value>>)
    requires dbs != [] && ValidTable(t) && FiltersOk(t, filters) && Below(selected, |t.columns|)
    requires Holds(dbs, t, m) && Lists(keys, m) && Wide(t, m, keys)
    requires PlanFits(t, filters, selected) && 1 <= limit && |Matching(t, m, filters, selected, keys)| <= limit
    ensures var r := Answered(dbs, t, filters, selected, limit);
            r.Ok? && multiset(r.value) == multiset(Matching(t, m, filters, selected, keys))
  {
    hide QueryOf, Emit, TableGroups, ScanPlan, Concat, ValidTable;
    hide FiltersOk, Holds, Lists, Matching, PlanFits, PointAnswer;
    hide FirstRows, Meaning, Route, RowKey, StoredTable;
    HoldsIsStored(dbs, t, m);
    MeaningIsMatching(dbs, t, m, filters, selected, keys);
    SameSize(Meaning(dbs, t, filters, selected), Matching(t, m, filters, selected, keys));
    EveryPlanAnswersTheQuery(dbs, t, filters, selected, limit);
  }
}
