/** `exec_select` (src/query.rs): choosing the plan, the limit in force, and the paging state. */
module Select {
  import opened Bytes
  import opened Values
  import opened Equality
  import opened Codec
  import opened Keys
  import opened Pipeline
  import opened Scan
  import opened Sharding
  import opened RowCodec
  import opened Projection
  import opened SelectPlans
  import opened PlanEquivalence
  import opened PartitionPlan

  datatype Answer = Answer(rows: seq<seq<Value>>, pagingState: Option<bytes>)

  /** `as usize` of a 32-bit count. */
  function Usize(n: i32): (r: nat)
    ensures if n >= 0 then r == n else r >= 0x8000_0000_0000_0000
  {
    if n < 0 then n + 0x1_0000_0000_0000_0000 else n
  }

  const HARD_CAP: nat := 5000

  /** The smaller of page size and LIMIT, else the hard cap. */
  function LimitInForce(pageSize: Option<i32>, limit: Option<i32>): nat {
    match (pageSize, limit)
    case (Some(ps), Some(l)) => if Usize(ps) <= Usize(l) then Usize(ps) else Usize(l)
    case (Some(ps), None) => Usize(ps)
    case (None, Some(l)) => Usize(l)
    case (None, None) => HARD_CAP
  }

  /** `n` rows of a scan that has `all` respect every bound given: LIMIT, page size, and 5000
      if there is neither. If the scan has more, they are as many as the smallest bound. */
  predicate Limited(n: nat, all: nat, pageSize: Option<i32>, limit: Option<i32>) {
    && (limit.Some? ==> n <= Usize(limit.value))
    && (pageSize.Some? ==> n <= Usize(pageSize.value))
    && (limit.None? && pageSize.None? ==> n <= 5000)
    && (n < all ==>
          || (limit.Some? && n == Usize(limit.value))
          || (pageSize.Some? && n == Usize(pageSize.value))
          || (limit.None? && pageSize.None? && n == 5000))
  }

  lemma LimitIsRespected(n: nat, all: nat, pageSize: Option<i32>, limit: Option<i32>)
    requires var l := LimitInForce(pageSize, limit); n == if l <= all then l else all
    ensures Limited(n, all, pageSize, limit)
  {
  }

  /** The single-key shortcut applies: only the one partition column is restricted, once. */
  predicate TakesFastPath(q: Query) {
    && q.ins == [] && |q.eqs| == |q.keyIdxs|
    && q.table.clusteringKeys == [] && |q.table.partitionKeys| == 1
    && forall f <- q.eqs :: f.idx in q.keyIdxs
  }

  /** The rows a point lookup answers with. */
  function PointAnswer(q: Query, parts: seq<bytes>, found: Option<bytes>): Result<seq<seq<Value>>>
    requires Indexed(q)
  {
    match found
    case None => Ok([])
    case Some(val) =>
      if TakesFastPath(q) then
        var row :- FastCells(q, parts, val, q.selected);
        Ok([row])
      else
        var row :- Project(q, parts, val);
        Ok(match row case None => [] case Some(r) => [r])
  }

  /** The groups of entries a scan visits, partition by partition or engine by engine. */
  function ScanPlan(dbs: seq<Db>, t: TableDef, filters: seq<Filter>): seq<seq<Row>>
    requires dbs != []
  {
    if PartitionRestricted(t, filters) then PartitionGroups(dbs, t, Partitions(t, filters)) else TableGroups(dbs, t)
  }

  /** A scan goes partition by partition exactly when every partition column has a filter. */
  lemma PlanChosenExactly(dbs: seq<Db>, t: TableDef, filters: seq<Filter>)
    requires dbs != []
    ensures var keys, filtered := set name <- t.partitionKeys, set f <- filters :: f.name;
            ScanPlan(dbs, t, filters) ==
            if keys <= filtered then PartitionGroups(dbs, t, Partitions(t, filters)) else TableGroups(dbs, t)
  {
    hide PartitionGroups, TableGroups, Partitions;
    var keys, filtered := set name <- t.partitionKeys, set f <- filters :: f.name;
    if PartitionRestricted(t, filters) {
      forall name <- keys
        ensures name in filtered
      {
        assert Restricts(filters, name);
      }
    } else {
      var name :| name in t.partitionKeys && !Restricts(filters, name);
      assert name in keys && name !in filtered;
    }
  }

  /** Every combination extended by every value. */
  method ExtendAll(combos: seq<seq<bytes>>, values: seq<bytes>) returns (next: seq<seq<bytes>>)
    ensures next == Extend(combos, values)
  {
    next := [];
    assert combos[0..] == combos;
    for j := 0 to |combos|
      invariant next + Extend(combos[j..], values) == Extend(combos, values)
    {
      ghost var before := next;
      ghost var row := seq(|values|, k requires 0 <= k < |values| => combos[j] + [values[k]]);
      for k := 0 to |values|
        invariant next == before + row[..k]
      {
        next := next + [combos[j] + [values[k]]];
      }
      assert combos[j..][1..] == combos[j + 1..] && combos[j..][0] == combos[j];
      assert row[..|values|] == row;
      assert before + (row + Extend(combos[j + 1..], values)) == before + row + Extend(combos[j + 1..], values);
    }
    assert next + [] == next;
  }

  /** The cartesian product of the listed values, column by column. */
  method PartitionProduct(t: TableDef, filters: seq<Filter>) returns (partitions: seq<seq<bytes>>)
    ensures partitions == Partitions(t, filters)
  {
    hide Listed, RawAll, Extend;
    partitions := [[]];
    assert t.partitionKeys[0..] == t.partitionKeys;
    for i := 0 to |t.partitionKeys|
      invariant Product(filters, t.partitionKeys[i..], partitions) == Partitions(t, filters)
    {
      assert t.partitionKeys[i..][1..] == t.partitionKeys[i + 1..];
      partitions := ExtendAll(partitions, RawAll(Listed(filters, t.partitionKeys[i])));
    }
  }

  /** With no incoming paging state: a full-key query answers from the addressed row alone,
      without any limit; any other query with a limit in force of at least one answers with
      the first rows of its scan and never issues a paging state; and with a limit of zero it
      answers nothing, issuing a state exactly when the page size is zero and the scan's
      first group (or, on a full scan, any group) has an entry. */
  method ExecSelect(dbs: seq<Db>, t: TableDef, filters: seq<Filter>, selected: seq<nat>, pageSize: Option<i32>,
      limit: Option<i32>)
    returns (r: Result<Answer>)
    requires dbs != [] && ValidTable(t) && FiltersOk(t, filters) && Below(selected, |t.columns|)
    ensures var q, point := QueryOf(t, filters, selected), PointValues(filters, KeyNames(t));
            point.Some? ==>
              var a := AddressIn(t, RawAll(point.value));
              var rows := PointAnswer(q, a.parts, Lookup(dbs[Route(a, |dbs|)], RowKey(a)));
              r == if rows.Ok? then Ok(Answer(rows.value, None)) else Err(rows.why)
    ensures PointValues(filters, KeyNames(t)).None? && LimitInForce(pageSize, limit) >= 1 ==>
              var rows := FirstRows(QueryOf(t, filters, selected), Concat(ScanPlan(dbs, t, filters)),
                  LimitInForce(pageSize, limit));
              r == if rows.Ok? then Ok(Answer(rows.value, None)) else Err(rows.why)
    ensures PointValues(filters, KeyNames(t)).None? && LimitInForce(pageSize, limit) == 0 ==>
              var groups := ScanPlan(dbs, t, filters);
              r.Ok? && r.value.rows == [] &&
              (r.value.pagingState.Some? <==>
                 && pageSize == Some(0)
                 && if PartitionRestricted(t, filters) then groups != [] && groups[0] != [] else Concat(groups) != [])
    ensures PointValues(filters, KeyNames(t)).None? && r.Ok? ==>
              var all := Emit(QueryOf(t, filters, selected), Concat(ScanPlan(dbs, t, filters)));
              r.value.rows <= all && Limited(|r.value.rows|, |all|, pageSize, limit)
  {
    hide Route, RowKey, PointValues, Project, FastCells, FirstRows, LimitInForce, Limited, Emit;
    hide PartitionRestricted, QueryOf, Indexed, Partitions, RowsBelow, Concat;
    var q := QueryOf(t, filters, selected);
    var point := PointValues(filters, KeyNames(t));
    if point.Some? {
      var a := AddressIn(t, RawAll(point.value));
      var found := Lookup(dbs[Route(a, |dbs|)], RowKey(a));
      if found.None? {
        return Ok(Answer([], None));
      }
      var ok, rows;
      if TakesFastPath(q) {
        ok, rows := ProjectFastPoint(q, a.parts, found.value, []);
      } else {
        ok, rows := ProjectDecoded(q, a.parts, found.value, []);
      }
      assert forall row: seq<Value> :: [] + [row] == [row];
      return if ok.Ok? then Ok(Answer(rows, None)) else Err(ok.why);
    }
    var pageLimit := LimitInForce(pageSize, limit);
    var restricted := PartitionRestricted(t, filters);
    var groups;
    if restricted {
      var partitions := PartitionProduct(t, filters);
      groups := PartitionGroups(dbs, t, partitions);
    } else {
      groups := TableGroups(dbs, t);
    }
    var rows, err, last := ScanGroups(q, groups, pageLimit, restricted);
    if err.Some? {
      return Err(err.value);
    }
    var hasMore := match pageSize
      case Some(ps) => |rows| >= Usize(ps) && last.Some?
      case None => limit.None? && |rows| >= HARD_CAP && last.Some?;
    r := Ok(Answer(rows, if hasMore then last else None));
    if pageLimit >= 1 {
      FirstRowsExactly(q, Concat(groups), pageLimit);
    }
    LimitIsRespected(|rows|, |Emit(q, Concat(groups))|, pageSize, limit);
  }

  /* ---------- Every plan answers the query ---------- */

  /** The query's meaning: the projection of every row of the table that satisfies every
      filter, found by looking at all of them. */
  function Meaning(dbs: seq<Db>, t: TableDef, filters: seq<Filter>, selected: seq<nat>): seq<seq<Value>>
    requires ValidTable(t) && FiltersOk(t, filters) && Below(selected, |t.columns|)
  {
    Emit(QueryOf(t, filters, selected), Concat(TableGroups(dbs, t)))
  }

  lemma PointFilters(t: TableDef, filters: seq<Filter>)
    requires PointValues(filters, KeyNames(t)).Some?
    ensures forall i | 0 <= i < |KeyNames(t)| ::
              Eq(KeyNames(t)[i], PointValues(filters, KeyNames(t)).value[i]) in filters
  {
    hide PointValues, FirstEq;
    forall i | 0 <= i < |KeyNames(t)|
      ensures Eq(KeyNames(t)[i], PointValues(filters, KeyNames(t)).value[i]) in filters
    {
      PointValuesAt(filters, KeyNames(t), i);
      FirstEqIsFilter(filters, KeyNames(t)[i]);
    }
  }

  /** The single-key shortcut restricts exactly the key column. */
  lemma ShortcutShape(t: TableDef, filters: seq<Filter>, selected: seq<nat>, k: Value)
    requires ValidTable(t) && FiltersOk(t, filters) && Below(selected, |t.columns|)
    requires |KeyNames(t)| == 1 && Eq(KeyNames(t)[0], k) in filters && WellTyped(k, KeyType(t, 0))
    requires TakesFastPath(QueryOf(t, filters, selected))
    ensures SingleKeyPoint(QueryOf(t, filters, selected), k)
  {
    hide WellTyped;
    var q := QueryOf(t, filters, selected);
    FilterIndexed(t, filters);
    var j :| 0 <= j < |filters| && filters[j] == Eq(KeyNames(t)[0], k);
    assert EqFilter(q.keyIdxs[0], k) in q.eqs;
    assert q.eqs == [q.eqs[0]];
  }

  /** The point lookup, by either projection, answers with the rows a scan of the addressed
      row would emit. */
  lemma PointAnswerEmits(dbs: seq<Db>, t: TableDef, filters: seq<Filter>, selected: seq<nat>)
    requires dbs != [] && ValidTable(t) && FiltersOk(t, filters) && Below(selected, |t.columns|)
    requires StoredTable(dbs, t) && PointValues(filters, KeyNames(t)).Some?
    requires KeyWords(t, PointValues(filters, KeyNames(t)).value)
    requires TakesFastPath(QueryOf(t, filters, selected)) ==> !HasNan(PointValues(filters, KeyNames(t)).value[0])
    ensures var q, vs := QueryOf(t, filters, selected), PointValues(filters, KeyNames(t)).value;
            var a := AddressIn(t, RawAll(vs));
            PointAnswer(q, a.parts, Lookup(dbs[Route(a, |dbs|)], RowKey(a))) == Ok(Emit(q, PointRows(dbs, t, vs)))
  {
    hide Route, Project, FastCells, QueryOf, WellTyped, Raw, EntryRow, Emit, Sharded, FiltersOk, TakesFastPath;
    var q, vs := QueryOf(t, filters, selected), PointValues(filters, KeyNames(t)).value;
    PointFilters(t, filters);
    hide PointValues;
    var a := AddressIn(t, RawAll(vs));
    RouteInRange(a, |dbs|);
    if RowKey(a) in dbs[Route(a, |dbs|)] {
      var row := Row(RowKey(a), dbs[Route(a, |dbs|)][RowKey(a)]);
      PrefixOfRow(t, a);
      var ws :| StoredAs(t, row, ws);
      RowKeyInjective(AddressIn(t, RawAll(ws)), a);
      SameWords(t, ws, vs);
      AddressedRow(t, filters, selected, row, vs);
      EmitSingle(q, row);
    } else {
      EmitNothing(q, []);
    }
  }

  /** Both projections of the addressed row give what scanning it gives. */
  lemma AddressedRow(t: TableDef, filters: seq<Filter>, selected: seq<nat>, row: Row, vs: seq<Value>)
    requires ValidTable(t) && FiltersOk(t, filters) && Below(selected, |t.columns|) && StoredAs(t, row, vs)
    requires forall i | 0 <= i < |KeyNames(t)| :: Eq(KeyNames(t)[i], vs[i]) in filters
    requires TakesFastPath(QueryOf(t, filters, selected)) ==> !HasNan(vs[0])
    ensures var q := QueryOf(t, filters, selected);
            && EntryRow(q, row).Ok? && EntryRow(q, row) == Project(q, RawAll(vs), row.val)
            && (TakesFastPath(q) ==>
                  var fast := FastCells(q, RawAll(vs), row.val, q.selected);
                  fast.Ok? && EntryRow(q, row) == Ok(Some(fast.value)))
  {
    hide Project, FastCells, QueryOf, WellTyped, Raw, EntryRow, TakesFastPath, EncodeRow, CellsOk;
    var q := QueryOf(t, filters, selected);
    EntryMeaning(t, filters, selected, row, vs);
    if TakesFastPath(q) {
      FastShape(t, q, filters, selected);
      ShortcutShape(t, filters, selected, vs[0]);
      var cells :| CellsOk(cells, t.columns) && DistinctCells(cells) && row.val == EncodeRow(cells);
      FastPathExactly(q, vs[0], cells);
      assert RawAll(vs) == [Raw(vs[0])];
    }
  }

  lemma EmitSingle(q: Query, row: Row)
    requires Indexed(q)
    ensures Emit(q, [row]) == match EntryRow(q, row) case Ok(Some(out)) => [out] case _ => []
  {
    hide EntryRow;
    assert [row][1..] == [] && Emit(q, [row][1..]) == [];
  }

  lemma FastShape(t: TableDef, q: Query, filters: seq<Filter>, selected: seq<nat>)
    requires ValidTable(t) && FiltersOk(t, filters) && q == QueryOf(t, filters, selected) && TakesFastPath(q)
    ensures |KeyNames(t)| == 1 && q.table == t
  {
  }

  lemma PrefixOfRow(t: TableDef, a: Address)
    requires a.keyspace == t.keyspace && a.table == t.name
    ensures StartsWith(RowKey(a), DataPrefix(t.keyspace, t.name))
  {
  }

  /** When the chosen plan answers the query. A lookup compares bytes, so its key may hold no
      zero; a NaN matches nothing, which the single-key shortcut overlooks. A partition scan
      needs every acceptable value of each partition column listed once. A full scan needs
      nothing. */
  ghost predicate PlanFits(t: TableDef, filters: seq<Filter>, selected: seq<nat>)
    requires ValidTable(t) && FiltersOk(t, filters)
  {
    match PointValues(filters, KeyNames(t))
    case Some(vs) =>
      && KeyWords(t, vs)
      && (if TakesFastPath(QueryOf(t, filters, selected)) then NoZero(vs) && !SomeNan(vs)
          else NoZero(vs) || SomeNan(vs))
    case None =>
      PartitionRestricted(t, filters) ==> ShortLists(filters, t.partitionKeys) && PartitionsExact(t, filters)
  }

  /** No entry satisfies an equality with NaN. */
  lemma NanMatchesNothing(dbs: seq<Db>, t: TableDef, filters: seq<Filter>, selected: seq<nat>, i: nat, v: Value)
    requires dbs != [] && ValidTable(t) && FiltersOk(t, filters) && Below(selected, |t.columns|) && StoredTable(dbs, t)
    requires i < |KeyNames(t)| && Eq(KeyNames(t)[i], v) in filters && HasNan(v)
    ensures forall row, ws | StoredAs(t, row, ws) :: !Emits(QueryOf(t, filters, selected), row)
    ensures Emit(QueryOf(t, filters, selected), Concat(TableGroups(dbs, t))) == []
  {
    hide ValidTable, EntryRow, QueryOf, HasNan, ValueEq, TableGroups, Emit, StoredAs, RowsBelow, Sharded, FiltersOk;
    var q, rows := QueryOf(t, filters, selected), Concat(TableGroups(dbs, t));
    forall row, ws | StoredAs(t, row, ws)
      ensures !Emits(q, row)
    {
      StoredWords(t, row, ws);
      EntryMeaning(t, filters, selected, row, ws);
      if ValueEq(v, ws[i]) {
        EqualIsIdentical(v, ws[i]);
      }
      assert !AcceptsWord(Eq(KeyNames(t)[i], v), ws[i]);
    }
    TableRows(dbs, t);
    forall r <- rows
      ensures !Emits(q, r)
    {
      assert InTable(dbs, t, r);
      PartitionRows(dbs, t, [[]], r);
    }
    EmitNothing(q, rows);
  }

  lemma PointRowStored(dbs: seq<Db>, t: TableDef, vs: seq<Value>, r: Row)
    requires dbs != [] && ValidTable(t) && StoredTable(dbs, t) && r in PointRows(dbs, t, vs)
    ensures exists ws :: StoredAs(t, r, ws)
  {
    hide Route, StoredAs, Sharded, DataPrefix, EncodeKey;
    var a := AddressIn(t, RawAll(vs));
    RouteInRange(a, |dbs|);
    PrefixOfRow(t, a);
  }

  lemma PointRowsAgree(dbs: seq<Db>, t: TableDef, filters: seq<Filter>, selected: seq<nat>)
    requires dbs != [] && ValidTable(t) && FiltersOk(t, filters) && Below(selected, |t.columns|) && StoredTable(dbs, t)
    requires PointValues(filters, KeyNames(t)).Some? && KeyWords(t, PointValues(filters, KeyNames(t)).value)
    requires NoZero(PointValues(filters, KeyNames(t)).value) || SomeNan(PointValues(filters, KeyNames(t)).value)
    ensures var q := QueryOf(t, filters, selected);
            multiset(Emit(q, PointRows(dbs, t, PointValues(filters, KeyNames(t)).value)))
            == multiset(Emit(q, Concat(TableGroups(dbs, t))))
  {
    hide PointValues, QueryOf, Emit, TableGroups, Concat, StoredTable, ValidTable;
    hide HasNan, FlipZeros, PointRows, StoredAs, Emits, WellTyped, Raw;
    var vs, q := PointValues(filters, KeyNames(t)).value, QueryOf(t, filters, selected);
    if NoZero(vs) {
      PointPlanAgrees(dbs, t, filters, selected);
    } else {
      PointFilters(t, filters);
      var i :| 0 <= i < |vs| && HasNan(vs[i]);
      NanMatchesNothing(dbs, t, filters, selected, i, vs[i]);
      forall r <- PointRows(dbs, t, vs)
        ensures !Emits(q, r)
      {
        PointRowStored(dbs, t, vs, r);
      }
      EmitNothing(q, PointRows(dbs, t, vs));
    }
  }

  /** Whichever plan is chosen, if it fits the filters and no more rows match than the limit
      in force allows, the rows answered are the query's meaning, up to order. */
  lemma EveryPlanAnswersTheQuery(dbs: seq<Db>, t: TableDef, filters: seq<Filter>, selected: seq<nat>, limit: nat)
    requires dbs != [] && ValidTable(t) && FiltersOk(t, filters) && Below(selected, |t.columns|)
    requires StoredTable(dbs, t) && PlanFits(t, filters, selected)
    requires limit >= 1 && |Meaning(dbs, t, filters, selected)| <= limit
    ensures var q, point := QueryOf(t, filters, selected), PointValues(filters, KeyNames(t));
            if point.Some? then
              var a := AddressIn(t, RawAll(point.value));
              var r := PointAnswer(q, a.parts, Lookup(dbs[Route(a, |dbs|)], RowKey(a)));
              r.Ok? && multiset(r.value) == multiset(Meaning(dbs, t, filters, selected))
            else
              var r := FirstRows(q, Concat(ScanPlan(dbs, t, filters)), limit);
              r.Ok? && multiset(r.value) == multiset(Meaning(dbs, t, filters, selected))
  {
    hide Route, RowKey, PointAnswer, QueryOf, Partitions, RowsBelow, Concat, FirstRows, Emit;
    hide HasNan, TakesFastPath, Sharded, StoredAs, KeyWords, PartitionsExact, ShortLists, ValidTable, FlipZeros;
    var q := QueryOf(t, filters, selected);
    if PointValues(filters, KeyNames(t)).Some? {
      HasKey(t);
      PointAnswerEmits(dbs, t, filters, selected);
      PointRowsAgree(dbs, t, filters, selected);
    } else {
      var rows := Concat(ScanPlan(dbs, t, filters));
      ScanHasNoErrors(dbs, t, filters, selected);
      FirstRowsIsPrefix(q, rows, limit);
      if PartitionRestricted(t, filters) {
        PartitionPlanAgrees(dbs, t, filters, selected);
      }
      SameSize(Emit(q, rows), Meaning(dbs, t, filters, selected));
      if |Emit(q, rows)| == limit {
        assert Emit(q, rows)[..limit] == Emit(q, rows);
      }
    }
  }

  lemma SameSize<T>(a: seq<T>, b: seq<T>)
    requires multiset(a) == multiset(b)
    ensures |a| == |b|
  {
    assert |multiset(a)| == |a| && |multiset(b)| == |b|;
  }

  lemma GroupsInTable(dbs: seq<Db>, t: TableDef, ps: seq<seq<bytes>>, r: Row)
    requires dbs != [] && ValidTable(t) && r in Concat(PartitionGroups(dbs, t, ps))
    ensures InTable(dbs, t, r)
  {
    hide RowsBelow, Route, DataPrefix, EncodeKey;
    var groups := PartitionGroups(dbs, t, ps);
    ConcatMembers(groups, r);
    var i :| 0 <= i < |groups| && r in groups[i];
    var a := AddressIn(t, ps[i]);
    RouteInRange(a, |dbs|);
    RowsBelowMembers(dbs[Route(a, |dbs|)], RowKey(a), r);
    RowsBelowMembers(dbs[Route(a, |dbs|)], DataPrefix(t.keyspace, t.name), r);
    PrefixOfRow(t, a);
  }

  /** Stored entries always decode, so no scan of them fails. */
  lemma ScanHasNoErrors(dbs: seq<Db>, t: TableDef, filters: seq<Filter>, selected: seq<nat>)
    requires dbs != [] && ValidTable(t) && FiltersOk(t, filters) && Below(selected, |t.columns|) && StoredTable(dbs, t)
    ensures NoErrors(QueryOf(t, filters, selected), Concat(ScanPlan(dbs, t, filters)))
  {
    hide Route, RowKey, RowsBelow, QueryOf, EntryRow;
    hide StoredAs, Sharded, Concat, Partitions, PartitionRestricted, PartitionGroups;
    forall r <- Concat(ScanPlan(dbs, t, filters))
      ensures EntryRow(QueryOf(t, filters, selected), r).Ok?
    {
      assert InTable(dbs, t, r) by {
        if PartitionRestricted(t, filters) {
          GroupsInTable(dbs, t, Partitions(t, filters), r);
        } else {
          TableRows(dbs, t);
        }
      }
      PartitionRows(dbs, t, [[]], r);
      var ws :| StoredAs(t, r, ws);
      EntryMeaning(t, filters, selected, r, ws);
    }
  }
}
