/** Where the SELECT plans part ways (src/query.rs): floating-point keys, whose equality is
    not byte equality, and partitions listed twice. */
module PlanLimits {
  import opened Bytes
  import opened Counting
  import opened Values
  import opened Equality
  import opened Keys
  import opened Pipeline
  import opened Scan
  import opened Sharding
  import opened RowCodec
  import opened Projection
  import opened SelectPlans
  import opened PlanEquivalence
  import opened PartitionPlan
  import opened Select

  /* ---------- Turning zeros over keeps types and lengths ---------- */

  lemma {:induction false} FlipTyped(v: Value, t: ColumnType)
    requires WellTyped(v, t)
    ensures WellTyped(FlipZeros(v), t) && |Raw(FlipZeros(v))| == |Raw(v)|
    decreases v, 1
  {
    match v
    case Set(xs) => FlipAllTyped(xs, t.elem);
    case List(xs) => FlipAllTyped(xs, t.elem);
    case Map(es) => FlipPairsTyped(es, t.key, t.val);
    case _ =>
  }

  lemma {:induction false} FlipAllTyped(xs: seq<Value>, t: ColumnType)
    requires AllTyped(xs, t)
    ensures AllTyped(FlipAll(xs), t) && |WireAll(FlipAll(xs))| == |WireAll(xs)| && |FlipAll(xs)| == |xs|
    decreases xs, 0
  {
    hide Raw, WellTyped;
    if xs != [] {
      FlipTyped(xs[0], t);
      FlipAllTyped(xs[1..], t);
      assert FlipAll(xs)[0] == FlipZeros(xs[0]) && FlipAll(xs)[1..] == FlipAll(xs[1..]);
      TypedFits(xs[0], t);
      TypedFits(FlipZeros(xs[0]), t);
    }
  }

  lemma {:induction false} FlipPairsTyped(es: seq<Entry>, k: ColumnType, v: ColumnType)
    requires PairsTyped(es, k, v)
    ensures PairsTyped(FlipPairs(es), k, v) && |WirePairs(FlipPairs(es))| == |WirePairs(es)| && |FlipPairs(es)| == |es|
    decreases es, 0
  {
    hide Raw, WellTyped, WireEntry, FlipEntry;
    if es != [] {
      FlipEntryTyped(es[0], k, v);
      FlipPairsTyped(es[1..], k, v);
      assert FlipPairs(es)[0] == FlipEntry(es[0]) && FlipPairs(es)[1..] == FlipPairs(es[1..]);
    }
  }

  lemma {:induction false} FlipEntryTyped(e: Entry, k: ColumnType, v: ColumnType)
    requires WellTyped(e.key, k) && WellTyped(e.val, v)
    ensures WellTyped(FlipEntry(e).key, k) && WellTyped(FlipEntry(e).val, v)
        && |WireEntry(FlipEntry(e))| == |WireEntry(e)|
    decreases e, 0
  {
    hide Raw, WellTyped;
    FlipTyped(e.key, k);
    FlipTyped(e.val, v);
    TypedFits(e.key, k);
    TypedFits(e.val, v);
    TypedFits(FlipZeros(e.key), k);
    TypedFits(FlipZeros(e.val), v);
  }

  function FlipWords(vs: seq<Value>): (ws: seq<Value>)
    ensures |ws| == |vs| && forall i | 0 <= i < |vs| :: ws[i] == FlipZeros(vs[i])
  {
    seq(|vs|, i requires 0 <= i < |vs| => FlipZeros(vs[i]))
  }

  lemma FlipKeyWords(t: TableDef, vs: seq<Value>)
    requires ValidTable(t) && KeyWords(t, vs)
    ensures KeyWords(t, FlipWords(vs))
  {
    hide ValidTable, Raw, WellTyped, FlipZeros;
    var ws := FlipWords(vs);
    forall i | 0 <= i < |vs|
      ensures WellTyped(ws[i], KeyType(t, i)) && |RawAll(ws)[i]| == |RawAll(vs)[i]|
    {
      FlipTyped(vs[i], KeyType(t, i));
    }
  }

  /* ---------- Full-key equality ---------- */

  /** `WHERE k1 = v1 AND k2 = v2 ...` over the whole key. */
  function KeyFilters(t: TableDef, vs: seq<Value>): (r: seq<Filter>)
    requires ValidTable(t) && |vs| == |KeyNames(t)|
    ensures |r| == |vs| && FiltersOk(t, r) && forall i | 0 <= i < |vs| :: r[i] == Eq(KeyNames(t)[i], vs[i])
  {
    seq(|vs|, i requires 0 <= i < |vs| => Eq(KeyNames(t)[i], vs[i]))
  }

  /** Every filter is on a key column. */
  predicate OnKeys(t: TableDef, filters: seq<Filter>) {
    forall f <- filters :: f.name in KeyNames(t)
  }

  /** With filters on key columns only, an entry emits exactly when its key values pass them. */
  lemma KeyEntryEmits(t: TableDef, filters: seq<Filter>, selected: seq<nat>, row: Row, ws: seq<Value>)
    requires ValidTable(t) && FiltersOk(t, filters) && Below(selected, |t.columns|) && StoredAs(t, row, ws)
    requires OnKeys(t, filters)
    ensures |ws| == |KeyNames(t)|
    ensures Emits(QueryOf(t, filters, selected), row) <==>
              forall i | 0 <= i < |ws| :: Takes(filters, KeyNames(t)[i], ws[i])
  {
    hide DecodeRow, Raw, WellTyped, ValueEq, EncodeKey, DataPrefix, EqsOf, InsOf, ValidTable;
    var q := QueryOf(t, filters, selected);
    EntryMeaning(t, filters, selected, row, ws);
    KeyIdxsDistinct(t);
    StoredDecodes(t, row.val);
    var decoded := DecodeRow(row.val, t.columns).value;
    OverlayKeys(q, decoded, ws, 0);
    var full := FullRow(q, RawAll(ws), row.val).value;
    assert forall i | 0 <= i < |ws| :: full[KeyIdxs(t)[i]] == ws[i];
    if forall i | 0 <= i < |ws| :: Takes(filters, KeyNames(t)[i], ws[i]) {
      KeyRowAccepted(t, filters, selected, full, ws);
    }
  }

  lemma KnownKey(t: TableDef, i: nat)
    requires ValidTable(t) && i < |KeyNames(t)|
    ensures Known(t, KeyNames(t)[i])
  {
  }

  lemma KeyRowAccepted(t: TableDef, filters: seq<Filter>, selected: seq<nat>, full: seq<Value>, ws: seq<Value>)
    requires ValidTable(t) && FiltersOk(t, filters) && Below(selected, |t.columns|) && OnKeys(t, filters)
    requires |full| == |t.columns| && |ws| == |KeyNames(t)|
    requires forall i | 0 <= i < |ws| :: full[KeyIdxs(t)[i]] == ws[i] && Takes(filters, KeyNames(t)[i], ws[i])
    ensures Accepts(QueryOf(t, filters, selected), full)
  {
    hide QueryOf, ValidTable, ValueEq;
    AcceptsExactly(t, filters, selected, full);
    forall g, c | g in filters && 0 <= c < |t.columns| && t.columns[c].name == g.name
      ensures AcceptsWord(g, full[c])
    {
      var i :| 0 <= i < |KeyNames(t)| && KeyNames(t)[i] == g.name;
      KnownKey(t, i);
      NamedColumn(t, g.name, c);
      assert KeyIdxs(t)[i] == c && Takes(filters, KeyNames(t)[i], ws[i]);
    }
  }

  lemma {:induction false} OnlyEqs(t: TableDef, filters: seq<Filter>)
    requires FiltersOk(t, filters) && forall i | 0 <= i < |filters| :: filters[i].Eq?
    ensures InsOf(t, filters) == [] && |EqsOf(t, filters)| == |filters|
    ensures forall i | 0 <= i < |filters| :: EqsOf(t, filters)[i] == EqFilter(Idx(t, filters[i].name), filters[i].val)
    decreases |filters|
  {
    if filters != [] {
      OnlyEqs(t, filters[1..]);
      assert forall i | 1 <= i < |filters| :: filters[i] == filters[1..][i - 1];
    }
  }

  lemma KeyQuery(t: TableDef, vs: seq<Value>, selected: seq<nat>)
    requires ValidTable(t) && |vs| == |KeyNames(t)| && Below(selected, |t.columns|)
    ensures var q := QueryOf(t, KeyFilters(t, vs), selected);
            q.table == t && (TakesFastPath(q) <==> |KeyNames(t)| == 1)
  {
    hide Idx;
    OnlyEqs(t, KeyFilters(t, vs));
    HasPartition(t);
    assert |KeyNames(t)| == |t.partitionKeys| + |t.clusteringKeys|;
  }

  /** The single-key shortcut is taken exactly for one filter, an equality on the only key
      column. */
  lemma FastPathTakenExactly(t: TableDef, filters: seq<Filter>, selected: seq<nat>)
    requires ValidTable(t) && FiltersOk(t, filters) && Below(selected, |t.columns|)
    ensures TakesFastPath(QueryOf(t, filters, selected)) <==>
              |KeyNames(t)| == 1 && |filters| == 1 && filters[0].Eq? && filters[0].name == t.partitionKeys[0]
  {
    hide Position, EqsOf, InsOf;
    var q := QueryOf(t, filters, selected);
    HasPartition(t);
    assert |KeyNames(t)| == |t.partitionKeys| + |t.clusteringKeys|;
    FilterIndexed(t, filters);
    if TakesFastPath(q) {
      OnlyEqs(t, filters);
      assert q.eqs[0] in q.eqs && KeyIdxs(t)[0] == Idx(t, KeyNames(t)[0]);
    }
    if |KeyNames(t)| == 1 && |filters| == 1 && filters[0].Eq? && filters[0].name == t.partitionKeys[0] {
      OnlyEqs(t, filters);
      assert KeyNames(t)[0] == t.partitionKeys[0];
    }
  }

  lemma KeyFiltersTake(t: TableDef, vs: seq<Value>, ws: seq<Value>)
    requires ValidTable(t) && |vs| == |ws| == |KeyNames(t)| && forall i | 0 <= i < |vs| :: ValueEq(vs[i], ws[i])
    ensures OnKeys(t, KeyFilters(t, vs)) && forall i | 0 <= i < |ws| :: Takes(KeyFilters(t, vs), KeyNames(t)[i], ws[i])
  {
    hide ValueEq, Known;
  }

  /** What the point lookup answers, against the meaning of the query. */
  predicate LookupMatchesScan(dbs: seq<Db>, t: TableDef, vs: seq<Value>, selected: seq<nat>)
    requires dbs != [] && ValidTable(t) && |vs| == |KeyNames(t)| && Below(selected, |t.columns|)
  {
    var q, a := QueryOf(t, KeyFilters(t, vs), selected), AddressIn(t, RawAll(vs));
    var r := PointAnswer(q, a.parts, Lookup(dbs[Route(a, |dbs|)], RowKey(a)));
    r.Ok? && multiset(r.value) == multiset(Emit(q, Concat(TableGroups(dbs, t))))
  }

  ghost predicate LookupAlwaysMatches(t: TableDef, vs: seq<Value>, selected: seq<nat>)
    requires ValidTable(t) && |vs| == |KeyNames(t)| && Below(selected, |t.columns|)
  {
    forall dbs: seq<Db> | dbs != [] && StoredTable(dbs, t) :: LookupMatchesScan(dbs, t, vs, selected)
  }

  /* ---------- A store with one row ---------- */

  function OneRow(t: TableDef, ws: seq<Value>): Row {
    Row(RowKey(AddressIn(t, RawAll(ws))), EncodeRow([]))
  }

  function OneRowStore(t: TableDef, ws: seq<Value>): seq<Db> {
    [map[OneRow(t, ws).key := OneRow(t, ws).val]]
  }

  lemma OneRowStored(t: TableDef, ws: seq<Value>)
    requires ValidTable(t) && KeyWords(t, ws)
    ensures StoredAs(t, OneRow(t, ws), ws) && StoredTable(OneRowStore(t, ws), t)
    ensures OneRow(t, ws) in Concat(TableGroups(OneRowStore(t, ws), t))
  {
    hide EncodeRow, EncodeKey, DataPrefix, WellTyped, Raw, RowsBelow;
    var dbs, row, a := OneRowStore(t, ws), OneRow(t, ws), AddressIn(t, RawAll(ws));
    assert StoredVal(t, row.val) by {
      assert CellsOk([], t.columns) && DistinctCells([]);
    }
    assert Good(a) && Route(a, 1) == 0;
    assert Sharded(dbs);
    forall e, k | 0 <= e < |dbs| && k in dbs[e]
      ensures exists ws :: StoredAs(t, Row(k, dbs[e][k]), ws)
    {
      assert Row(k, dbs[e][k]) == row && StoredAs(t, row, ws);
    }
    TableRows(dbs, t);
    PrefixOfRow(t, a);
    RowsBelowMembers(dbs[0], DataPrefix(t.keyspace, t.name), row);
  }

  lemma {:induction false} EmitSomething(q: Query, rows: seq<Row>, row: Row)
    requires Indexed(q) && row in rows && Emits(q, row)
    ensures Emit(q, rows) != []
    decreases |rows|
  {
    hide EntryRow;
    if rows[0] != row {
      EmitSomething(q, rows[1..], row);
    }
  }

  lemma FlippedEmits(t: TableDef, vs: seq<Value>, selected: seq<nat>)
    requires ValidTable(t) && KeyWords(t, vs) && Below(selected, |t.columns|) && !SomeNan(vs)
    ensures KeyWords(t, FlipWords(vs)) && StoredTable(OneRowStore(t, FlipWords(vs)), t)
    ensures Emit(QueryOf(t, KeyFilters(t, vs), selected), Concat(TableGroups(OneRowStore(t, FlipWords(vs)), t))) != []
  {
    hide ValidTable, WellTyped, Raw, EntryRow, QueryOf, FlipZeros, HasNan, ValueEq, TableGroups, Emit, StoredTable;
    hide OneRowStore, OneRow, StoredAs, Known;
    var ws := FlipWords(vs);
    FlipKeyWords(t, vs);
    OneRowStored(t, ws);
    forall i | 0 <= i < |vs|
      ensures ValueEq(vs[i], ws[i])
    {
      FlippedIsEqual(vs[i]);
    }
    KeyFiltersTake(t, vs, ws);
    KeyEntryEmits(t, KeyFilters(t, vs), selected, OneRow(t, ws), ws);
    EmitSomething(QueryOf(t, KeyFilters(t, vs), selected), Concat(TableGroups(OneRowStore(t, ws), t)), OneRow(t, ws));
  }

  /** The row stored under the other zero is found by the scan and missed by the lookup. */
  lemma OtherZeroIsMissed(t: TableDef, vs: seq<Value>, selected: seq<nat>)
    requires ValidTable(t) && KeyWords(t, vs) && Below(selected, |t.columns|) && !SomeNan(vs) && !NoZero(vs)
    ensures var dbs := OneRowStore(t, FlipWords(vs));
            StoredTable(dbs, t) && !LookupMatchesScan(dbs, t, vs, selected)
  {
    hide ValidTable, WellTyped, Raw, QueryOf, FlipZeros, SomeNan, TableGroups, Emit, StoredTable, RowKey, EncodeRow;
    var ws, q := FlipWords(vs), QueryOf(t, KeyFilters(t, vs), selected);
    FlippedEmits(t, vs, selected);
    var a, b := AddressIn(t, RawAll(vs)), AddressIn(t, RawAll(ws));
    if RowKey(a) == RowKey(b) {
      AddressGood(t, vs);
      AddressGood(t, ws);
      RowKeyInjective(a, b);
      SameWords(t, vs, ws);
    }
    assert Route(a, 1) == 0;
    assert PointAnswer(q, a.parts, None) == Ok([]);
  }

  /** The single-key shortcut returns a row stored under a NaN, which the scan rejects. */
  lemma NanIsFound(t: TableDef, vs: seq<Value>, selected: seq<nat>)
    requires ValidTable(t) && KeyWords(t, vs) && Below(selected, |t.columns|) && |KeyNames(t)| == 1 && SomeNan(vs)
    ensures StoredTable(OneRowStore(t, vs), t) && !LookupMatchesScan(OneRowStore(t, vs), t, vs, selected)
  {
    hide ValidTable, WellTyped, Raw, EntryRow, QueryOf, HasNan, ValueEq;
    hide TableGroups, Emit, StoredTable, RowKey, EncodeRow, FastCells, TakesFastPath;
    OneRowStored(t, vs);
    var q := QueryOf(t, KeyFilters(t, vs), selected);
    KeyQuery(t, vs, selected);
    var a, filters := AddressIn(t, RawAll(vs)), KeyFilters(t, vs);
    assert filters[0] in filters;
    NanMatchesNothing(OneRowStore(t, vs), t, filters, selected, 0, vs[0]);
    ShortcutShape(t, filters, selected, vs[0]);
    assert CellsOk([], t.columns) && DistinctCells([]) by { OneRowStored(t, vs); }
    FastPathExactly(q, vs[0], []);
    assert RawAll(vs) == [Raw(vs[0])];
    assert Route(a, 1) == 0;
  }

  /** Otherwise the lookup is right. */
  lemma LookupIsRight(dbs: seq<Db>, t: TableDef, vs: seq<Value>, selected: seq<nat>)
    requires dbs != [] && ValidTable(t) && StoredTable(dbs, t) && KeyWords(t, vs) && Below(selected, |t.columns|)
    requires if |KeyNames(t)| == 1 then NoZero(vs) && !SomeNan(vs) else NoZero(vs) || SomeNan(vs)
    ensures LookupMatchesScan(dbs, t, vs, selected)
  {
    hide ValidTable, WellTyped, Raw, EntryRow, QueryOf, HasNan, ValueEq, TableGroups, Emit, StoredTable, RowKey;
    hide PointAnswer, TakesFastPath, FlipZeros, PointValues, Listed;
    KeyQuery(t, vs, selected);
    KeyPointValues(t, vs);
    PointAnswerEmits(dbs, t, KeyFilters(t, vs), selected);
    PointRowsAgree(dbs, t, KeyFilters(t, vs), selected);
  }

  lemma KeyPointValues(t: TableDef, vs: seq<Value>)
    requires ValidTable(t) && KeyWords(t, vs)
    ensures PointValues(KeyFilters(t, vs), KeyNames(t)) == Some(vs)
  {
    hide WellTyped, Raw;
    forall i | 0 <= i < |vs|
      ensures FirstEq(KeyFilters(t, vs), KeyNames(t)[i]) == Some(vs[i]) && !vs[i].Null?
    {
      FirstEqAt(KeyFilters(t, vs), i);
      TypedFits(vs[i], KeyType(t, i));
    }
    PointValuesFrom(KeyFilters(t, vs), KeyNames(t), vs);
  }

  lemma {:induction false} FirstEqAt(filters: seq<Filter>, i: nat)
    requires i < |filters| && filters[i].Eq? && forall j | 0 <= j < i :: filters[j].name != filters[i].name
    ensures FirstEq(filters, filters[i].name) == Some(filters[i].val)
    decreases i
  {
    if i > 0 {
      FirstEqAt(filters[1..], i - 1);
    }
  }

  lemma {:induction false} PointValuesFrom(filters: seq<Filter>, names: seq<bytes>, vs: seq<Value>)
    requires |names| == |vs| && forall i | 0 <= i < |vs| :: FirstEq(filters, names[i]) == Some(vs[i]) && !vs[i].Null?
    ensures PointValues(filters, names) == Some(vs)
    decreases |vs|
  {
    hide FirstEq;
    if vs != [] {
      PointValuesFrom(filters, names[1..], vs[1..]);
      assert vs == [vs[0]] + vs[1..];
    }
  }

  /** A full-key lookup answers the query on every store if and only if the key values hold
      no zero, of either sign, or, on keys of several columns, some value is NaN; on
      single-column keys a NaN breaks it too. */
  lemma PointLookupExactly(t: TableDef, vs: seq<Value>, selected: seq<nat>)
    requires ValidTable(t) && KeyWords(t, vs) && Below(selected, |t.columns|)
    ensures LookupAlwaysMatches(t, vs, selected) <==>
              if |KeyNames(t)| == 1 then NoZero(vs) && !SomeNan(vs) else NoZero(vs) || SomeNan(vs)
  {
    hide ValidTable, LookupMatchesScan, StoredTable, SomeNan, NoZero, WellTyped, Raw;
    if |KeyNames(t)| == 1 && SomeNan(vs) {
      NanIsFound(t, vs, selected);
    } else if !SomeNan(vs) && !NoZero(vs) {
      OtherZeroIsMissed(t, vs, selected);
    } else {
      forall dbs: seq<Db> | dbs != [] && StoredTable(dbs, t)
        ensures LookupMatchesScan(dbs, t, vs, selected)
      {
        LookupIsRight(dbs, t, vs, selected);
      }
    }
  }

  /* ---------- Partition scans ---------- */

  /** The partition scan against the full scan. */
  predicate PartitionsMatchScan(dbs: seq<Db>, t: TableDef, filters: seq<Filter>, selected: seq<nat>)
    requires dbs != [] && ValidTable(t) && FiltersOk(t, filters) && Below(selected, |t.columns|)
  {
    var q := QueryOf(t, filters, selected);
    multiset(Emit(q, Concat(PartitionGroups(dbs, t, Partitions(t, filters)))))
    == multiset(Emit(q, Concat(TableGroups(dbs, t))))
  }

  ghost predicate PartitionsAlwaysMatch(t: TableDef, filters: seq<Filter>, selected: seq<nat>)
    requires ValidTable(t) && FiltersOk(t, filters) && Below(selected, |t.columns|)
  {
    forall dbs: seq<Db> | dbs != [] && StoredTable(dbs, t) :: PartitionsMatchScan(dbs, t, filters, selected)
  }

  /** Every filter is on a partition column. */
  predicate OnPartitions(t: TableDef, filters: seq<Filter>) {
    forall f <- filters :: f.name in t.partitionKeys
  }

  function Default(ct: ColumnType): Value {
    match ct
    case TInt => Int(0)
    case TBigInt => BigInt(0)
    case TSmallInt => SmallInt(0)
    case TTinyInt => TinyInt(0)
    case TFloat => Float(0)
    case TDouble => Double(0)
    case TBoolean => Boolean(false)
    case TText => Text([])
    case TBlob => Blob([])
    case TTimestamp => Timestamp(0)
    case TUuid => Uuid([0, 0, 0, 0, 0, 0, 0, 0, 0, 0, 0, 0, 0, 0, 0, 0])
    case TInet => Inet(V4([0, 0, 0, 0]))
    case TSet(_) => Set([])
    case TList(_) => List([])
    case TMap(_, _) => Map([])
  }

  lemma DefaultFits(ct: ColumnType)
    ensures WellTyped(Default(ct), ct) && |Raw(Default(ct))| < 0x1_0000
  {
  }

  /** Values for the first `k` key columns that pass the filters, with `w` at column `i`. */
  lemma {:induction false} ChooseWords(t: TableDef, filters: seq<Filter>, i: nat, w: Value,
      k: nat) returns (ws: seq<Value>)
    requires ValidTable(t) && k <= |KeyNames(t)| && i < |t.partitionKeys| && OnPartitions(t, filters)
    requires forall j | 0 <= j < |t.partitionKeys| :: !Barren(t, filters, j)
    requires Fitting(t, i, w) && Takes(filters, KeyNames(t)[i], w)
    ensures |ws| == k && (i < k ==> ws[i] == w)
    ensures forall j | 0 <= j < k :: Fitting(t, j, ws[j]) && Takes(filters, KeyNames(t)[j], ws[j])
  {
    hide WellTyped, Raw, AcceptsWord, Known;
    if k == 0 {
      ws := [];
    } else {
      ws := ChooseWords(t, filters, i, w, k - 1);
      var j := k - 1;
      if j == i {
        ws := ws + [w];
      } else if j < |t.partitionKeys| {
        assert !Barren(t, filters, j);
        var v :| Fitting(t, j, v) && Takes(filters, KeyNames(t)[j], v);
        ws := ws + [v];
      } else {
        DefaultFits(KeyType(t, j));
        FreeColumn(t, filters, j, Default(KeyType(t, j)));
        ws := ws + [Default(KeyType(t, j))];
      }
    }
  }

  /** Clustering columns are unrestricted. */
  lemma FreeColumn(t: TableDef, filters: seq<Filter>, j: nat, v: Value)
    requires ValidTable(t) && OnPartitions(t, filters) && |t.partitionKeys| <= j < |KeyNames(t)|
    ensures Takes(filters, KeyNames(t)[j], v)
  {
    hide AcceptsWord, Known;
    forall f <- filters
      ensures f.name != KeyNames(t)[j]
    {
      var i :| 0 <= i < |t.partitionKeys| && t.partitionKeys[i] == f.name;
      assert KeyNames(t)[i] == f.name;
    }
  }

  lemma FittingWords(t: TableDef, ws: seq<Value>)
    requires ValidTable(t) && |ws| == |KeyNames(t)| && forall j | 0 <= j < |ws| :: Fitting(t, j, ws[j])
    ensures KeyWords(t, ws)
  {
    hide WellTyped, Raw, ValidTable;
  }

  lemma {:induction false} EmitCopies(q: Query, rows: seq<Row>, row: Row)
    requires Indexed(q) && Emits(q, row) && forall i | 0 <= i < |rows| :: rows[i] == row
    ensures |Emit(q, rows)| == Times(rows, row)
    decreases |rows|
  {
    hide EntryRow;
    if rows != [] {
      EmitCopies(q, rows[1..], row);
    }
  }

  lemma OneRowOnly(t: TableDef, ws: seq<Value>, r: Row)
    requires InTable(OneRowStore(t, ws), t, r)
    ensures r == OneRow(t, ws)
  {
    hide RowsBelow, EncodeRow, RowKey;
    var dbs := OneRowStore(t, ws);
    var e :| 0 <= e < |dbs| && r in RowsBelow(dbs[e], DataPrefix(t.keyspace, t.name));
    RowsBelowMembers(dbs[e], DataPrefix(t.keyspace, t.name), r);
  }

  /** On a store with one emitting row, the full scan answers it once and the partition scan
      once for every time its partition is listed. */
  lemma OneRowAnswers(t: TableDef, filters: seq<Filter>, selected: seq<nat>, ws: seq<Value>)
    requires ValidTable(t) && FiltersOk(t, filters) && Below(selected, |t.columns|)
        && ShortLists(filters, t.partitionKeys)
    requires KeyWords(t, ws) && Emits(QueryOf(t, filters, selected), OneRow(t, ws))
    ensures var q, dbs := QueryOf(t, filters, selected), OneRowStore(t, ws);
            && dbs != [] && StoredTable(dbs, t)
            && |Emit(q, Concat(TableGroups(dbs, t)))| == 1
            && |Emit(q, Concat(PartitionGroups(dbs, t, Partitions(t, filters))))|
               == Times(Partitions(t, filters), RawAll(ws)[..|t.partitionKeys|])
  {
    hide EntryRow, QueryOf, Emit, TableGroups, PartitionGroups;
    hide Partitions, Concat, StoredTable, WellTyped, Raw, InTable;
    hide ValidTable, StoredAs, Times;
    var q, dbs, row := QueryOf(t, filters, selected), OneRowStore(t, ws), OneRow(t, ws);
    var table, listed := Concat(TableGroups(dbs, t)), Concat(PartitionGroups(dbs, t, Partitions(t, filters)));
    OneRowStored(t, ws);
    PartitionsAreShort(t, filters);
    forall i | 0 <= i < |table|
      ensures table[i] == row
    {
      TableTimes(dbs, t, table[i]);
      TimesMember(table, table[i]);
      OneRowOnly(t, ws, table[i]);
    }
    forall i | 0 <= i < |listed|
      ensures listed[i] == row
    {
      GroupsOfTable(dbs, t, Partitions(t, filters), listed[i]);
      OneRowOnly(t, ws, listed[i]);
    }
    EmitCopies(q, table, row);
    EmitCopies(q, listed, row);
    TableTimes(dbs, t, row);
    TimesMember(table, row);
    GroupTimes(dbs, t, Partitions(t, filters), row, ws);
  }

  /** If a column lists an acceptable value not exactly once, some store tells the scans
      apart. */
  lemma MiscountShows(t: TableDef, filters: seq<Filter>, selected: seq<nat>)
    requires ValidTable(t) && FiltersOk(t, filters) && Below(selected, |t.columns|)
    requires OnPartitions(t, filters) && ShortLists(filters, t.partitionKeys) && !PartitionsExact(t, filters)
    ensures exists dbs :: dbs != [] && StoredTable(dbs, t) && !PartitionsMatchScan(dbs, t, filters, selected)
  {
    hide EntryRow, QueryOf, Emit, TableGroups, PartitionGroups, Partitions, Concat, StoredTable, WellTyped, Raw, Listed;
    hide ValidTable, StoredAs, Times, Takes, Fitting, Barren, OneRowStore, OneRow, Ways, FiltersOk;
    var n := |t.partitionKeys|;
    var i :| 0 <= i < n && !ListedOnce(t, filters, i);
    var w :| Fitting(t, i, w) && Takes(filters, KeyNames(t)[i], w)
             && Times(RawAll(Listed(filters, KeyNames(t)[i])), Raw(w)) != 1;
    var ws := ChooseWords(t, filters, i, w, |KeyNames(t)|);
    FittingWords(t, ws);
    OneRowStored(t, ws);
    OnPartitionsOnKeys(t, filters);
    KeyEntryEmits(t, filters, selected, OneRow(t, ws), ws);
    OneRowAnswers(t, filters, selected, ws);
    var p := RawAll(ws)[..n];
    PartitionTimes(t, filters, p);
    WaysOnce(filters, t.partitionKeys, 0, p);
    assert KeyNames(t)[i] == t.partitionKeys[i] && p[0 + i] == Raw(w);
    var q, dbs := QueryOf(t, filters, selected), OneRowStore(t, ws);
    DifferentSizes(Emit(q, Concat(PartitionGroups(dbs, t, Partitions(t, filters)))),
        Emit(q, Concat(TableGroups(dbs, t))));
  }

  lemma OnPartitionsOnKeys(t: TableDef, filters: seq<Filter>)
    requires OnPartitions(t, filters)
    ensures OnKeys(t, filters)
  {
  }

  lemma DifferentSizes<T>(a: seq<T>, b: seq<T>)
    requires |a| != |b|
    ensures multiset(a) != multiset(b)
  {
    assert |multiset(a)| == |a| && |multiset(b)| == |b|;
  }

  lemma ExactPartitionsMatch(dbs: seq<Db>, t: TableDef, filters: seq<Filter>, selected: seq<nat>)
    requires dbs != [] && ValidTable(t) && FiltersOk(t, filters) && Below(selected, |t.columns|) && StoredTable(dbs, t)
    requires ShortLists(filters, t.partitionKeys) && PartitionsExact(t, filters)
    ensures PartitionsMatchScan(dbs, t, filters, selected)
  {
    hide ValidTable, StoredTable, PartitionsExact, ShortLists, QueryOf, Emit, Concat;
    PartitionPlanAgrees(dbs, t, filters, selected);
  }

  /** For filters on partition columns the partition scan answers like the full scan on every
      store if and only if some column accepts nothing, or every value a column accepts is
      listed for it exactly once, byte for byte. */
  lemma PartitionScanExactly(t: TableDef, filters: seq<Filter>, selected: seq<nat>)
    requires ValidTable(t) && FiltersOk(t, filters) && Below(selected, |t.columns|)
    requires OnPartitions(t, filters) && ShortLists(filters, t.partitionKeys)
    ensures PartitionsAlwaysMatch(t, filters, selected) <==> PartitionsExact(t, filters)
  {
    hide ValidTable, StoredTable, PartitionsMatchScan, PartitionsExact, ShortLists, OnPartitions;
    if PartitionsExact(t, filters) {
      forall dbs: seq<Db> | dbs != [] && StoredTable(dbs, t)
        ensures PartitionsMatchScan(dbs, t, filters, selected)
      {
        ExactPartitionsMatch(dbs, t, filters, selected);
      }
    } else {
      MiscountShows(t, filters, selected);
    }
  }

  /* ---------- Repeated partitions ---------- */

  /** `WHERE k IN (v, v)` scans the partition twice and answers every row of it twice. */
  lemma RepeatedPartitionRepeatsRows(dbs: seq<Db>, t: TableDef, v: Value, selected: seq<nat>)
    requires dbs != [] && ValidTable(t) && |t.partitionKeys| == 1 && Below(selected, |t.columns|)
    ensures var filters := [In(t.partitionKeys[0], [v, v])];
            && FiltersOk(t, filters)
            && var q := QueryOf(t, filters, selected);
               var once := Emit(q, Concat(PartitionGroups(dbs, t, [[Raw(v)]])));
               Emit(q, Concat(PartitionGroups(dbs, t, Partitions(t, filters)))) == once + once
  {
    hide Raw, Emit, RowsBelow, Route;
    var name := t.partitionKeys[0];
    assert Known(t, KeyNames(t)[0]);
    var f := In(name, [v, v]);
    var filters, p := [f], [Raw(v)];
    assert filters[1..] == [] && Listed([], name) == [] && Listed(filters, name) == [v, v];
    assert RawAll([v, v]) == [Raw(v), Raw(v)];
    assert Partitions(t, filters) == [p, p] by {
      TwiceExtended(Raw(v));
      assert t.partitionKeys == [name] && t.partitionKeys[1..] == [];
      assert Product(filters, [], [p, p]) == [p, p];
    }
    var g := PartitionGroups(dbs, t, [p])[0];
    assert PartitionGroups(dbs, t, [p]) == [g] && PartitionGroups(dbs, t, [p, p]) == [g, g];
    assert [g][1..] == [] && [g, g][1..] == [g] && Concat([g]) == g && Concat([g, g]) == g + g;
    EmitAppend(QueryOf(t, filters, selected), g, g);
  }

  lemma TwiceExtended(x: bytes)
    ensures Extend([[]], [x, x]) == [[x], [x]]
  {
    var none: seq<seq<bytes>> := [[]];
    assert none[1..] == [] && Extend([], [x, x]) == [];
    assert none[0] + [x] == [x];
    assert Extend(none, [x, x]) == [none[0] + [x], none[0] + [x]] + [];
  }
}
