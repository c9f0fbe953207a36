/** The three SELECT plans compute the same answer (src/query.rs). */
module PlanEquivalence {
  import opened Bytes
  import opened Counting
  import opened Values
  import opened Equality
  import opened Keys
  import opened Pipeline
  import opened Scan
  import opened Sharding
  import opened RowCodec
  import opened Projection
  import opened SelectPlans

  /* ---------- Stored tables ---------- */

  function KeyType(t: TableDef, i: nat): ColumnType
    requires ValidTable(t) && i < |KeyNames(t)|
  {
    t.columns[Idx(t, KeyNames(t)[i])].colType
  }

  /** A non-null value per key column whose bytes fit a key part. */
  predicate KeyWords(t: TableDef, ws: seq<Value>)
    requires ValidTable(t)
  {
    && |ws| == |KeyNames(t)|
    && (forall i | 0 <= i < |ws| :: WellTyped(ws[i], KeyType(t, i)))
    && ShortParts(RawAll(ws))
  }

  ghost predicate StoredVal(t: TableDef, val: bytes) {
    exists cells :: CellsOk(cells, t.columns) && DistinctCells(cells) && val == EncodeRow(cells)
  }

  /** An entry as INSERT and UPDATE write it. */
  ghost predicate StoredAs(t: TableDef, row: Row, ws: seq<Value>)
    requires ValidTable(t)
  {
    KeyWords(t, ws) && row.key == RowKey(AddressIn(t, RawAll(ws))) && StoredVal(t, row.val)
  }

  ghost predicate StoredTable(dbs: seq<Db>, t: TableDef)
    requires ValidTable(t)
  {
    && Sharded(dbs)
    && forall e, k | 0 <= e < |dbs| && k in dbs[e] && StartsWith(k, DataPrefix(t.keyspace, t.name)) ::
         exists ws :: StoredAs(t, Row(k, dbs[e][k]), ws)
  }

  lemma StoredDecodes(t: TableDef, val: bytes)
    requires StoredVal(t, val)
    ensures DecodeRow(val, t.columns).Ok?
  {
    hide DecodeRow, EncodeRow, CellsOk;
    var cells :| CellsOk(cells, t.columns) && DistinctCells(cells) && val == EncodeRow(cells);
    RowRoundTrip(cells, t.columns);
  }

  lemma SameWords(t: TableDef, ws: seq<Value>, vs: seq<Value>)
    requires ValidTable(t) && KeyWords(t, ws) && KeyWords(t, vs) && RawAll(ws) == RawAll(vs)
    ensures ws == vs
  {
    hide WellTyped, Raw, ValidTable;
    forall i | 0 <= i < |ws|
      ensures ws[i] == vs[i]
    {
      assert Raw(ws[i]) == RawAll(ws)[i] == RawAll(vs)[i] == Raw(vs[i]);
      RawInjective(ws[i], vs[i], KeyType(t, i));
    }
  }

  lemma AddressGood(t: TableDef, ws: seq<Value>)
    requires ValidTable(t) && KeyWords(t, ws)
    ensures Good(AddressIn(t, RawAll(ws)))
  {
  }

  lemma KeyIdxsDistinct(t: TableDef)
    requires ValidTable(t)
    ensures Distinct(KeyIdxs(t))
  {
    var names, idxs := KeyNames(t), KeyIdxs(t);
    forall i, j | 0 <= i < j < |idxs|
      ensures idxs[i] != idxs[j]
    {
      assert t.columns[idxs[i]].name == names[i] && t.columns[idxs[j]].name == names[j];
    }
  }

  /** Overlaying a key's parts puts its values into their columns and nothing else. */
  lemma {:induction false} OverlayKeys(q: Query, row: seq<Value>, ws: seq<Value>, i: nat)
    requires Indexed(q) && |row| == |q.table.columns| && |ws| == |q.keyIdxs| && Distinct(q.keyIdxs) && i <= |ws|
    requires forall j | 0 <= j < |ws| :: WellTyped(ws[j], TypeAt(q, q.keyIdxs[j]))
    ensures var r := Overlay(q, row, RawAll(ws), i);
            && r.Ok?
            && (forall j | i <= j < |ws| :: r.value[q.keyIdxs[j]] == ws[j])
            && (forall j | 0 <= j < i :: r.value[q.keyIdxs[j]] == row[q.keyIdxs[j]])
    decreases |ws| - i
  {
    hide FromRaw, Raw, WellTyped;
    if i < |ws| {
      RoundTrip(ws[i], TypeAt(q, q.keyIdxs[i]));
      OverlayKeys(q, row[q.keyIdxs[i] := ws[i]], ws, i + 1);
    }
  }

  /** What an entry emits, in terms of the values of its key. */
  lemma EntryMeaning(t: TableDef, filters: seq<Filter>, selected: seq<nat>, row: Row, ws: seq<Value>)
    requires ValidTable(t) && FiltersOk(t, filters) && Below(selected, |t.columns|) && StoredAs(t, row, ws)
    ensures var q := QueryOf(t, filters, selected);
            && EntryRow(q, row) == Project(q, RawAll(ws), row.val)
            && EntryRow(q, row).Ok?
            && (EntryRow(q, row).value.Some? ==>
                  forall i, f | 0 <= i < |ws| && f in filters && f.name == KeyNames(t)[i] :: AcceptsWord(f, ws[i]))
  {
    hide DecodeRow, Raw, WellTyped, ValueEq, EncodeKey, DataPrefix, EqsOf, InsOf;
    var q := QueryOf(t, filters, selected);
    KeyIdxsDistinct(t);
    var a := AddressIn(t, RawAll(ws));
    var prefix := DataPrefix(t.keyspace, t.name);
    assert row.key[|prefix|..] == EncodeKey(a.parts);
    KeyRoundTrip(a.parts);
    StoredDecodes(t, row.val);
    var decoded := DecodeRow(row.val, t.columns).value;
    OverlayKeys(q, decoded, ws, 0);
    var full := FullRow(q, RawAll(ws), row.val).value;
    if Accepts(q, full) {
      FilterIndexed(t, filters);
      forall i, f | 0 <= i < |ws| && f in filters && f.name == KeyNames(t)[i]
        ensures AcceptsWord(f, ws[i])
      {
        var j :| 0 <= j < |filters| && filters[j] == f;
        assert full[q.keyIdxs[i]] == ws[i];
      }
    }
  }

  predicate AcceptsWord(f: Filter, w: Value) {
    match f
    case Eq(_, v) => ValueEq(v, w)
    case In(_, vs) => exists v <- vs :: ValueEq(v, w)
  }

  lemma {:induction false} FiltersIndexed(t: TableDef, filters: seq<Filter>)
    requires FiltersOk(t, filters)
    ensures forall f <- EqsOf(t, filters) :: exists g <- filters :: g.Eq? && f.idx == Idx(t, g.name) && f.val == g.val
    ensures forall f <- InsOf(t, filters) :: exists g <- filters :: g.In? && f.idx == Idx(t, g.name) && f.vals == g.vals
    decreases |filters|
  {
    hide Idx;
    if filters != [] {
      FiltersIndexed(t, filters[1..]);
      assert filters[0] in filters && forall g <- filters[1..] :: g in filters;
    }
  }

  /** What WHERE means: every filter accepts the row's value in the column it names, whichever
      that is. */
  predicate Satisfies(t: TableDef, filters: seq<Filter>, row: seq<Value>)
    requires |row| == |t.columns|
  {
    forall f, c | f in filters && 0 <= c < |t.columns| && t.columns[c].name == f.name :: AcceptsWord(f, row[c])
  }

  lemma NamedColumn(t: TableDef, name: bytes, c: nat)
    requires ValidTable(t) && Known(t, name) && c < |t.columns|
    ensures t.columns[c].name == name <==> c == Idx(t, name)
  {
    hide Position;
  }

  /** The re-check of a decoded row, by column indexes, is exactly that. */
  lemma AcceptsExactly(t: TableDef, filters: seq<Filter>, selected: seq<nat>, row: seq<Value>)
    requires ValidTable(t) && FiltersOk(t, filters) && Below(selected, |t.columns|) && |row| == |t.columns|
    ensures Accepts(QueryOf(t, filters, selected), row) <==> Satisfies(t, filters, row)
  {
    hide EqsOf, InsOf, ValidTable, ValueEq, Idx;
    var q := QueryOf(t, filters, selected);
    FilterIndexed(t, filters);
    FiltersIndexed(t, filters);
    if Accepts(q, row) {
      forall f, c | f in filters && 0 <= c < |t.columns| && t.columns[c].name == f.name
        ensures AcceptsWord(f, row[c])
      {
        var i :| 0 <= i < |filters| && filters[i] == f;
        NamedColumn(t, f.name, c);
      }
    }
    if Satisfies(t, filters, row) {
      forall f <- q.eqs
        ensures ValueEq(f.val, row[f.idx])
      {
        var g :| g in filters && g.Eq? && f.idx == Idx(t, g.name) && f.val == g.val;
        NamedColumn(t, g.name, f.idx);
        assert AcceptsWord(g, row[f.idx]);
      }
      forall f <- q.ins
        ensures exists v <- f.vals :: ValueEq(v, row[f.idx])
      {
        var g :| g in filters && g.In? && f.idx == Idx(t, g.name) && f.vals == g.vals;
        NamedColumn(t, g.name, f.idx);
        assert AcceptsWord(g, row[f.idx]);
      }
    }
  }

  /* ---------- Order does not matter ---------- */

  predicate Emits(q: Query, row: Row)
    requires Indexed(q)
  {
    EntryRow(q, row).Ok? && EntryRow(q, row).value.Some?
  }

  lemma {:induction false} EmitNothing(q: Query, rows: seq<Row>)
    requires Indexed(q) && forall r <- rows :: !Emits(q, r)
    ensures Emit(q, rows) == []
    decreases |rows|
  {
    hide EntryRow;
    if rows != [] {
      assert rows[0] in rows;
      EmitNothing(q, rows[1..]);
    }
  }

  /** Two scans that meet each emitting entry equally often produce the same rows. */
  lemma {:induction false} SameEmitters(q: Query, xs: seq<Row>, ys: seq<Row>)
    requires Indexed(q) && forall r | Emits(q, r) :: Times(xs, r) == Times(ys, r)
    ensures multiset(Emit(q, xs)) == multiset(Emit(q, ys))
    decreases |xs|
  {
    hide EntryRow, Emit, Times;
    if xs == [] {
      NoEmitters(q, ys);
      EmitNothing(q, xs);
    } else {
      var x, rest := xs[0], xs[1..];
      assert xs == [x] + rest && xs[..0] + xs[1..] == rest;
      EmitAppend(q, [x], rest);
      if Emits(q, x) {
        assert x in xs && x in ys by { TimesMember(xs, x); TimesMember(ys, x); }
        var j :| 0 <= j < |ys| && ys[j] == x;
        var before, after := ys[..j], ys[j + 1..];
        forall r | Emits(q, r)
          ensures Times(rest, r) == Times(before + after, r)
        {
          TimesAround(xs, 0, r);
          TimesAround(ys, j, r);
        }
        SplitAt(ys, j);
        EmitAppend(q, before, [x] + after);
        EmitAppend(q, [x], after);
        EmitAppend(q, before, after);
        SameEmitters(q, rest, before + after);
      } else {
        EmitNothing(q, [x]);
        forall r | Emits(q, r)
          ensures Times(rest, r) == Times(ys, r)
        {
          TimesAround(xs, 0, r);
        }
        SameEmitters(q, rest, ys);
      }
    }
  }

  lemma NoEmitters(q: Query, ys: seq<Row>)
    requires Indexed(q) && forall r | Emits(q, r) :: Times([], r) == Times(ys, r)
    ensures Emit(q, ys) == []
  {
    hide Emits, Emit;
    forall r <- ys
      ensures !Emits(q, r)
    {
      TimesMember(ys, r);
      TimesNone(r);
    }
    EmitNothing(q, ys);
  }

  /* ---------- Groups of rows ---------- */

  lemma {:induction false} ConcatMembers(groups: seq<seq<Row>>, r: Row)
    ensures r in Concat(groups) <==> exists i :: 0 <= i < |groups| && r in groups[i]
    decreases |groups|
  {
    if groups != [] {
      ConcatMembers(groups[1..], r);
      if r in Concat(groups[1..]) {
        var i :| 0 <= i < |groups[1..]| && r in groups[1..][i];
        assert r in groups[i + 1];
      }
      if i: int :| 0 <= i < |groups| && r in groups[i] {
        if i > 0 {
          assert r in groups[1..][i - 1];
        }
      }
    }
  }

  ghost predicate Disjoint(groups: seq<seq<Row>>) {
    forall i, j, r | 0 <= i < j < |groups| && r in groups[i] :: r !in groups[j]
  }

  lemma {:induction false} ConcatDistinct(groups: seq<seq<Row>>)
    requires Disjoint(groups) && forall i | 0 <= i < |groups| :: Distinct(groups[i])
    ensures Distinct(Concat(groups))
    decreases |groups|
  {
    if groups != [] {
      ConcatDistinct(groups[1..]);
      var a, b := groups[0], Concat(groups[1..]);
      forall r | r in a
        ensures r !in b
      {
        ConcatMembers(groups[1..], r);
        forall i | 0 <= i < |groups[1..]|
          ensures r !in groups[1..][i]
        {
          assert groups[1..][i] == groups[i + 1];
        }
      }
      forall i, j | 0 <= i < j < |a + b|
        ensures (a + b)[i] != (a + b)[j]
      {
        if i < |a| <= j {
          assert (a + b)[i] in a && (a + b)[j] in b;
        }
      }
    }
  }

  lemma RowsBelowDistinct(db: Db, prefix: bytes)
    ensures Distinct(RowsBelow(db, prefix))
  {
    hide SortedKeys, Less;
    RowsBelowAt(db, prefix);
    SortedAscending(KeysBelow(db, prefix));
    var ks, rows := SortedKeys(KeysBelow(db, prefix)), RowsBelow(db, prefix);
    forall i, j | 0 <= i < j < |rows|
      ensures rows[i] != rows[j]
    {
      assert Less(ks[i], ks[j]);
      LessIrreflexive(ks[i]);
    }
  }

  /** The rows of a table, engine by engine: each once. */
  lemma TableRows(dbs: seq<Db>, t: TableDef)
    requires ValidTable(t) && Sharded(dbs)
    ensures Distinct(Concat(TableGroups(dbs, t)))
    ensures forall r :: r in Concat(TableGroups(dbs, t)) <==>
              exists e :: 0 <= e < |dbs| && r in RowsBelow(dbs[e], DataPrefix(t.keyspace, t.name))
  {
    hide RowsBelow, DataPrefix, ValidTable, Sharded;
    var groups := TableGroups(dbs, t);
    forall i | 0 <= i < |groups|
      ensures Distinct(groups[i])
    {
      RowsBelowDistinct(dbs[i], DataPrefix(t.keyspace, t.name));
    }
    forall i, j, r | 0 <= i < j < |groups| && r in groups[i]
      ensures r !in groups[j]
    {
      if r in groups[j] {
        OneHome(dbs, t, i, j, r);
      }
    }
    ConcatDistinct(groups);
    forall r
      ensures r in Concat(groups) <==>
              exists e :: 0 <= e < |dbs| && r in RowsBelow(dbs[e], DataPrefix(t.keyspace, t.name))
    {
      ConcatMembers(groups, r);
      assert forall e | 0 <= e < |dbs| :: groups[e] == RowsBelow(dbs[e], DataPrefix(t.keyspace, t.name));
    }
  }

  lemma OneHome(dbs: seq<Db>, t: TableDef, e: nat, f: nat, r: Row)
    requires Sharded(dbs) && e < |dbs| && f < |dbs|
    requires r in RowsBelow(dbs[e], DataPrefix(t.keyspace, t.name))
        && r in RowsBelow(dbs[f], DataPrefix(t.keyspace, t.name))
    ensures e == f
  {
    hide RowsBelow, EncodeKey, Route;
    var prefix := DataPrefix(t.keyspace, t.name);
    RowsBelowMembers(dbs[e], prefix, r);
    RowsBelowMembers(dbs[f], prefix, r);
    assert prefix[..3] == DT_PREFIX && r.key[..3] == prefix[..3];
    assert Lives(r.key, e, |dbs|) && Lives(r.key, f, |dbs|);
    var a :| Good(a) && RowKey(a) == r.key && Route(a, |dbs|) == e;
    var b :| Good(b) && RowKey(b) == r.key && Route(b, |dbs|) == f;
    RowKeyInjective(a, b);
  }

  /* ---------- Rows and partitions ---------- */

  lemma StoredWords(t: TableDef, row: Row, ws: seq<Value>)
    requires ValidTable(t) && StoredAs(t, row, ws)
    ensures |ws| == |KeyNames(t)|
  {
  }

  ghost predicate InTable(dbs: seq<Db>, t: TableDef, r: Row) {
    exists e :: 0 <= e < |dbs| && r in RowsBelow(dbs[e], DataPrefix(t.keyspace, t.name))
  }

  /** A partition scan visits exactly the table's rows whose key begins with the partition. */
  lemma PartitionRows(dbs: seq<Db>, t: TableDef, p: seq<bytes>, r: Row)
    requires dbs != [] && ValidTable(t) && StoredTable(dbs, t) && p != [] && ShortParts(p)
    ensures var a := AddressIn(t, p);
            && (r in RowsBelow(dbs[Route(a, |dbs|)], RowKey(a)) ==> InTable(dbs, t, r))
            && (InTable(dbs, t, r) ==> exists ws :: StoredAs(t, r, ws))
            && forall ws | StoredAs(t, r, ws) && InTable(dbs, t, r) ::
                 r in RowsBelow(dbs[Route(a, |dbs|)], RowKey(a)) <==> p <= RawAll(ws)
  {
    hide RowsBelow, EncodeKey, DataPrefix, Route, Sharded, RawAll;
    var a := AddressIn(t, p);
    var home := Route(a, |dbs|);
    RouteInRange(a, |dbs|);
    var prefix := DataPrefix(t.keyspace, t.name);
    RowsBelowMembers(dbs[home], RowKey(a), r);
    RowsBelowMembers(dbs[home], prefix, r);
    assert StartsWith(r.key, RowKey(a)) ==> StartsWith(r.key, prefix);
    if InTable(dbs, t, r) {
      var e :| 0 <= e < |dbs| && r in RowsBelow(dbs[e], prefix);
      RowsBelowMembers(dbs[e], prefix, r);
      assert exists ws :: StoredAs(t, Row(r.key, dbs[e][r.key]), ws);
      forall ws | StoredAs(t, r, ws)
        ensures r in RowsBelow(dbs[home], RowKey(a)) <==> p <= RawAll(ws)
      {
        PartitionOfKey(AddressIn(t, RawAll(ws)), p);
        if p <= RawAll(ws) {
          PartitionOnOneEngine(dbs, a, e, r.key);
        }
      }
    }
  }

  /* ---------- Point lookup ---------- */

  /** What a point lookup reads, as a scan of at most one row. */
  function PointRows(dbs: seq<Db>, t: TableDef, vs: seq<Value>): seq<Row>
    requires dbs != []
  {
    var a := AddressIn(t, RawAll(vs));
    match Lookup(dbs[Route(a, |dbs|)], RowKey(a)) case None => [] case Some(val) => [Row(RowKey(a), val)]
  }

  lemma {:induction false} PointValuesAt(filters: seq<Filter>, names: seq<bytes>, i: nat)
    requires PointValues(filters, names).Some? && i < |names|
    ensures FirstEq(filters, names[i]) == Some(PointValues(filters, names).value[i])
    ensures !PointValues(filters, names).value[i].Null?
    decreases |names|
  {
    hide FirstEq;
    if i > 0 {
      PointValuesAt(filters, names[1..], i - 1);
    }
  }

  lemma {:induction false} FirstEqIsFilter(filters: seq<Filter>, name: bytes)
    requires FirstEq(filters, name).Some?
    ensures Eq(name, FirstEq(filters, name).value) in filters
    decreases |filters|
  {
    if !(filters[0].Eq? && filters[0].name == name) {
      FirstEqIsFilter(filters[1..], name);
    }
  }

  /** An emitting row of the table has exactly the key the point lookup asks for. */
  lemma EmitterIsPoint(t: TableDef, filters: seq<Filter>, selected: seq<nat>, r: Row, ws: seq<Value>)
    requires ValidTable(t) && FiltersOk(t, filters) && Below(selected, |t.columns|) && StoredAs(t, r, ws)
    requires Emits(QueryOf(t, filters, selected), r)
    requires PointValues(filters, KeyNames(t)).Some? && forall v <- PointValues(filters, KeyNames(t)).value :: Sharp(v)
    ensures ws == PointValues(filters, KeyNames(t)).value
  {
    hide EntryRow, QueryOf, Sharp, ValueEq, FirstEq, PointValues, ValidTable;
    EntryMeaning(t, filters, selected, r, ws);
    StoredWords(t, r, ws);
    var vs := PointValues(filters, KeyNames(t)).value;
    forall i | 0 <= i < |ws|
      ensures ws[i] == vs[i]
    {
      var name := KeyNames(t)[i];
      PointValuesAt(filters, KeyNames(t), i);
      FirstEqIsFilter(filters, name);
      assert AcceptsWord(Eq(name, vs[i]), ws[i]);
      assert vs[i] in vs;
      SharpExactly(vs[i]);
    }
  }

  /** The point lookup returns the same rows as the full scan. */
  lemma PointPlanAgrees(dbs: seq<Db>, t: TableDef, filters: seq<Filter>, selected: seq<nat>)
    requires dbs != [] && ValidTable(t) && FiltersOk(t, filters) && Below(selected, |t.columns|) && StoredTable(dbs, t)
    requires PointValues(filters, KeyNames(t)).Some?
    requires var vs := PointValues(filters, KeyNames(t)).value;
             ShortParts(RawAll(vs)) && forall v <- vs :: Sharp(v)
    ensures var q := QueryOf(t, filters, selected);
            && multiset(Emit(q, PointRows(dbs, t, PointValues(filters, KeyNames(t)).value))) ==
               multiset(Emit(q, Concat(TableGroups(dbs, t))))
  {
    hide RowsBelow, Route, StoredAs, EntryRow, QueryOf, Sharded, Sharp, PointValues, ValidTable;
    var q := QueryOf(t, filters, selected);
    var vs := PointValues(filters, KeyNames(t)).value;
    var a := AddressIn(t, RawAll(vs));
    RouteInRange(a, |dbs|);
    assert KeyNames(t) != [] by { HasKey(t); }
    TableRows(dbs, t);
    var table, point := Concat(TableGroups(dbs, t)), PointRows(dbs, t, vs);
    forall r
      ensures r in point ==> r in table
      ensures Emits(q, r) && r in table ==> r in point
    {
      PartitionRows(dbs, t, RawAll(vs), r);
      RowsBelowMembers(dbs[Route(a, |dbs|)], RowKey(a), r);
      if Emits(q, r) && r in table {
        var ws :| StoredAs(t, r, ws);
        EmitterIsPoint(t, filters, selected, r, ws);
        assert RowKey(a) == r.key by { StoredKey(t, r, ws); }
      }
    }
    forall r | Emits(q, r)
      ensures Times(point, r) == Times(table, r)
    {
      TimesDistinct(point, r);
      TimesDistinct(table, r);
    }
    SameEmitters(q, point, table);
  }

  lemma HasKey(t: TableDef)
    requires ValidTable(t)
    ensures KeyNames(t) != []
  {
  }

  lemma StoredKey(t: TableDef, row: Row, ws: seq<Value>)
    requires ValidTable(t) && StoredAs(t, row, ws)
    ensures row.key == RowKey(AddressIn(t, RawAll(ws)))
  {
  }
}
