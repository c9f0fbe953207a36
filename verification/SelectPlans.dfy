/** SELECT (src/query.rs): point lookup, partition-product scan and full scan, with LIMIT
    stopping them early. */
module SelectPlans {
  import opened Bytes
  import opened Counting
  import opened Values
  import opened Equality
  import opened Keys
  import opened Pipeline
  import opened Scan
  import opened RowCodec
  import opened Projection
  import opened Codec

  /* ---------- Tables and filters ---------- */

  function Position(cols: seq<ColumnDef>, name: bytes): (r: Option<nat>)
    ensures r.Some? ==> r.value < |cols| && cols[r.value].name == name
    ensures r.None? ==> forall c <- cols :: c.name != name
  {
    if cols == [] then None
    else if cols[0].name == name then Some(0)
    else match Position(cols[1..], name) case None => None case Some(i) => Some(i + 1)
  }

  predicate Known(t: TableDef, name: bytes) {
    Position(t.columns, name).Some?
  }

  /** `column_index(name).unwrap()`. */
  function Idx(t: TableDef, name: bytes): (i: nat)
    requires Known(t, name)
    ensures i < |t.columns| && t.columns[i].name == name
  {
    Position(t.columns, name).value
  }

  function KeyNames(t: TableDef): seq<bytes> {
    t.partitionKeys + t.clusteringKeys
  }

  /** Names are distinct, key names are distinct columns, the key flags agree with the key
      lists, and column indexes fit 16 bits. */
  predicate ValidTable(t: TableDef) {
    && Plain(t.keyspace) && Plain(t.name)
    && |t.columns| <= 0x1_0000
    && (forall i, j | 0 <= i < j < |t.columns| :: t.columns[i].name != t.columns[j].name)
    && t.partitionKeys != []
    && Distinct(KeyNames(t))
    && (forall i | 0 <= i < |KeyNames(t)| :: Known(t, KeyNames(t)[i]))
    && (forall c <- t.columns :: c.isPartition <==> c.name in t.partitionKeys)
    && (forall c <- t.columns :: c.isClustering <==> c.name in t.clusteringKeys)
  }

  function KeyIdxs(t: TableDef): (r: seq<nat>)
    requires ValidTable(t)
    ensures |r| == |KeyNames(t)| && forall i | 0 <= i < |r| :: r[i] == Idx(t, KeyNames(t)[i])
  {
    seq(|KeyNames(t)|, i requires 0 <= i < |KeyNames(t)| => Idx(t, KeyNames(t)[i]))
  }

  datatype Filter = Eq(name: bytes, val: Value) | In(name: bytes, vals: seq<Value>)

  /** Filters as `parse_filters` leaves them: on known columns. */
  predicate FiltersOk(t: TableDef, filters: seq<Filter>) {
    forall i | 0 <= i < |filters| :: Known(t, filters[i].name)
  }

  function EqsOf(t: TableDef, filters: seq<Filter>): seq<EqFilter>
    requires FiltersOk(t, filters)
  {
    if filters == [] then [] else
    (if filters[0].Eq? then [EqFilter(Idx(t, filters[0].name), filters[0].val)] else []) + EqsOf(t, filters[1..])
  }

  function InsOf(t: TableDef, filters: seq<Filter>): seq<InFilter>
    requires FiltersOk(t, filters)
  {
    if filters == [] then [] else
    (if filters[0].In? then [InFilter(Idx(t, filters[0].name), filters[0].vals)] else []) + InsOf(t, filters[1..])
  }

  lemma {:induction false} FilterIndexed(t: TableDef, filters: seq<Filter>)
    requires FiltersOk(t, filters)
    ensures forall f <- EqsOf(t, filters) :: f.idx < |t.columns|
    ensures forall f <- InsOf(t, filters) :: f.idx < |t.columns|
    ensures forall i | 0 <= i < |filters| && filters[i].Eq? ::
              EqFilter(Idx(t, filters[i].name), filters[i].val) in EqsOf(t, filters)
    ensures forall i | 0 <= i < |filters| && filters[i].In? ::
              InFilter(Idx(t, filters[i].name), filters[i].vals) in InsOf(t, filters)
  {
    if filters != [] {
      FilterIndexed(t, filters[1..]);
      forall i | 0 <= i < |filters|
        ensures filters[i].Eq? ==> EqFilter(Idx(t, filters[i].name), filters[i].val) in EqsOf(t, filters)
        ensures filters[i].In? ==> InFilter(Idx(t, filters[i].name), filters[i].vals) in InsOf(t, filters)
      {
        assert i > 0 ==> filters[1..][i - 1] == filters[i];
      }
    }
  }

  function QueryOf(t: TableDef, filters: seq<Filter>, selected: seq<nat>): (q: Query)
    requires ValidTable(t) && FiltersOk(t, filters)
    ensures Below(selected, |t.columns|) ==> Indexed(q)
  {
    FilterIndexed(t, filters);
    Query(t, selected, EqsOf(t, filters), InsOf(t, filters), KeyIdxs(t))
  }

  /* ---------- The access plans ---------- */

  /** The first `=` value for a name. */
  function FirstEq(filters: seq<Filter>, name: bytes): Option<Value> {
    if filters == [] then None
    else if filters[0].Eq? && filters[0].name == name then Some(filters[0].val)
    else FirstEq(filters[1..], name)
  }

  /** The values of the named key columns when each has a non-null `=`. */
  function PointValues(filters: seq<Filter>, names: seq<bytes>): (r: Option<seq<Value>>)
    ensures r.Some? ==> |r.value| == |names|
  {
    if names == [] then Some([])
    else match FirstEq(filters, names[0])
      case None => None
      case Some(v) =>
        if v.Null? then None
        else match PointValues(filters, names[1..]) case None => None case Some(vs) => Some([v] + vs)
  }

  function RawAll(vs: seq<Value>): (r: seq<bytes>)
    ensures |r| == |vs| && forall i | 0 <= i < |vs| :: r[i] == Raw(vs[i])
  {
    seq(|vs|, i requires 0 <= i < |vs| => Raw(vs[i]))
  }

  predicate Restricts(filters: seq<Filter>, name: bytes) {
    exists f <- filters :: f.name == name
  }

  predicate PartitionRestricted(t: TableDef, filters: seq<Filter>) {
    forall pk <- t.partitionKeys :: Restricts(filters, pk)
  }

  /** What one filter lists for a column. */
  function ListedBy(f: Filter, name: bytes): seq<Value> {
    if f.name != name then [] else if f.Eq? then [f.val] else f.vals
  }

  /** Every value any filter lists for a partition column, in filter order. */
  function Listed(filters: seq<Filter>, name: bytes): seq<Value> {
    if filters == [] then [] else ListedBy(filters[0], name) + Listed(filters[1..], name)
  }

  /** Every combination extended by every value, combinations outermost. */
  function Extend(combos: seq<seq<bytes>>, values: seq<bytes>): seq<seq<bytes>> {
    if combos == [] then [] else
    seq(|values|, i requires 0 <= i < |values| => combos[0] + [values[i]]) + Extend(combos[1..], values)
  }

  /** The partitions `names` still has to extend `combos` by. */
  function Product(filters: seq<Filter>, names: seq<bytes>, combos: seq<seq<bytes>>): seq<seq<bytes>>
    decreases |names|
  {
    if names == [] then combos
    else Product(filters, names[1..], Extend(combos, RawAll(Listed(filters, names[0]))))
  }

  function Partitions(t: TableDef, filters: seq<Filter>): seq<seq<bytes>> {
    Product(filters, t.partitionKeys, [[]])
  }

  function AddressIn(t: TableDef, parts: seq<bytes>): Address {
    Address(t.keyspace, t.name, parts)
  }

  /** `for_each_in_partition` for each partition in turn. */
  function PartitionGroups(dbs: seq<Db>, t: TableDef, partitions: seq<seq<bytes>>): (r: seq<seq<Row>>)
    requires dbs != []
    ensures |r| == |partitions|
  {
    seq(|partitions|, i requires 0 <= i < |partitions| =>
      var a := AddressIn(t, partitions[i]);
      RowsBelow(dbs[Route(a, |dbs|)], RowKey(a)))
  }

  /** `for_each_in_table`: every engine in turn. */
  function TableGroups(dbs: seq<Db>, t: TableDef): (r: seq<seq<Row>>)
    ensures |r| == |dbs|
  {
    seq(|dbs|, e requires 0 <= e < |dbs| => RowsBelow(dbs[e], DataPrefix(t.keyspace, t.name)))
  }

  function Concat<T>(groups: seq<seq<T>>): seq<T> {
    if groups == [] then [] else groups[0] + Concat(groups[1..])
  }

  /* ---------- One entry ---------- */

  /** `handle_entry` without its limit: decode the key, then project. */
  function EntryRow(q: Query, row: Row): Result<Option<seq<Value>>>
    requires Indexed(q)
  {
    var prefix := DataPrefix(q.table.keyspace, q.table.name);
    if !StartsWith(row.key, prefix) then Err(Corrupt) else
    var parts :- DecodeParts(row.key[|prefix|..]);
    Project(q, parts, row.val)
  }

  /** The output rows of a scan that meets no error and no limit. */
  function Emit(q: Query, rows: seq<Row>): seq<seq<Value>>
    requires Indexed(q)
  {
    if rows == [] then [] else
    (match EntryRow(q, rows[0]) case Ok(Some(out)) => [out] case _ => []) + Emit(q, rows[1..])
  }

  /** The first `limit` output rows, or the first error met before them. */
  function FirstRows(q: Query, rows: seq<Row>, limit: nat): Result<seq<seq<Value>>>
    requires Indexed(q) && limit >= 1
    decreases |rows|
  {
    if rows == [] then Ok([])
    else match EntryRow(q, rows[0])
      case Err(e) => Err(e)
      case Ok(None) => FirstRows(q, rows[1..], limit)
      case Ok(Some(out)) =>
        if limit == 1 then Ok([out]) else
        var rest :- FirstRows(q, rows[1..], limit - 1);
        Ok([out] + rest)
  }

  predicate NoErrors(q: Query, rows: seq<Row>)
    requires Indexed(q)
  {
    forall r <- rows :: EntryRow(q, r).Ok?
  }

  /** The entry that fails first, if it is reached before the limit. */
  predicate FailsAt(q: Query, rows: seq<Row>, limit: nat, i: int)
    requires Indexed(q)
  {
    0 <= i < |rows| && EntryRow(q, rows[i]).Err? && NoErrors(q, rows[..i]) && |Emit(q, rows[..i])| < limit
  }

  /** A scan with a limit answers the leading rows of what it would emit, as many as the limit
      or all; it fails if and only if an entry fails before the limit is reached. */
  lemma {:induction false} FirstRowsExactly(q: Query, rows: seq<Row>, limit: nat)
    requires Indexed(q) && limit >= 1
    ensures FirstRows(q, rows, limit).Ok? ==>
              var out, all := FirstRows(q, rows, limit).value, Emit(q, rows);
              out <= all && |out| == if limit <= |all| then limit else |all|
    ensures forall i | FailsAt(q, rows, limit, i) :: FirstRows(q, rows, limit) == Err(EntryRow(q, rows[i]).why)
    ensures FirstRows(q, rows, limit).Err? ==> exists i :: FailsAt(q, rows, limit, i)
    decreases |rows|
  {
    hide EntryRow;
    if rows != [] {
      var rest := rows[1..];
      var stops := EntryRow(q, rows[0]).Ok? && EntryRow(q, rows[0]).value.Some? && limit == 1;
      if EntryRow(q, rows[0]).Err? {
        assert rows[..0] == [] && FailsAt(q, rows, limit, 0);
        FirstFailure(q, rows, limit);
      } else if stops {
        forall i | FailsAt(q, rows, limit, i)
          ensures false
        {
          EmitFirst(q, rows, i);
        }
      } else {
        var left := if EntryRow(q, rows[0]).value.Some? then limit - 1 else limit;
        FirstRowsExactly(q, rest, left);
        forall i | 1 <= i < |rows|
          ensures FailsAt(q, rows, limit, i) <==> FailsAt(q, rest, left, i - 1)
        {
          EmitFirst(q, rows, i);
        }
        assert !FailsAt(q, rows, limit, 0);
        if FirstRows(q, rest, left).Err? {
          var i :| FailsAt(q, rest, left, i);
          assert FailsAt(q, rows, limit, i + 1);
        }
      }
    }
  }

  lemma FirstFailure(q: Query, rows: seq<Row>, limit: nat)
    requires Indexed(q) && rows != [] && EntryRow(q, rows[0]).Err?
    ensures forall i | FailsAt(q, rows, limit, i) :: i == 0
  {
    hide EntryRow, Emit;
    forall i | 1 <= i <= |rows|
      ensures !NoErrors(q, rows[..i])
    {
      assert rows[..i][0] == rows[0] && rows[0] in rows[..i];
    }
  }

  /** What the first `i` entries emit and whether they fail, by the first of them. */
  lemma EmitFirst(q: Query, rows: seq<Row>, i: nat)
    requires Indexed(q) && 1 <= i <= |rows| && EntryRow(q, rows[0]).Ok?
    ensures rows[..i][1..] == rows[1..][..i - 1]
    ensures |Emit(q, rows[..i])| == |Emit(q, rows[1..][..i - 1])| + if EntryRow(q, rows[0]).value.Some? then 1 else 0
    ensures NoErrors(q, rows[..i]) <==> NoErrors(q, rows[1..][..i - 1])
  {
    hide EntryRow;
    var a, b := rows[..i], rows[1..][..i - 1];
    assert a[0] == rows[0] && a[1..] == b && a == [rows[0]] + b;
  }

  /** Early termination is exact: the leading elements of the filtered, projected scan. */
  lemma {:induction false} FirstRowsIsPrefix(q: Query, rows: seq<Row>, limit: nat)
    requires Indexed(q) && limit >= 1 && NoErrors(q, rows)
    ensures var all := Emit(q, rows);
            FirstRows(q, rows, limit) == Ok(if limit <= |all| then all[..limit] else all)
    decreases |rows|
  {
    hide EntryRow;
    if rows != [] {
      assert rows[0] in rows;
      match EntryRow(q, rows[0])
      case Ok(None) =>
        assert Emit(q, rows) == Emit(q, rows[1..]);
        FirstRowsIsPrefix(q, rows[1..], limit);
      case Ok(Some(out)) =>
        var rest := Emit(q, rows[1..]);
        assert Emit(q, rows) == [out] + rest;
        if limit > 1 {
          FirstRowsIsPrefix(q, rows[1..], limit - 1);
          if limit <= |rest| + 1 {
            assert ([out] + rest)[..limit] == [out] + rest[..limit - 1];
          }
        } else {
          assert ([out] + rest)[..1] == [out];
        }
    }
  }

  lemma {:induction false} EmitAppend(q: Query, a: seq<Row>, b: seq<Row>)
    requires Indexed(q)
    ensures Emit(q, a + b) == Emit(q, a) + Emit(q, b)
    decreases |a|
  {
    hide EntryRow;
    if a == [] {
      assert a + b == b;
    } else {
      assert (a + b)[0] == a[0] && (a + b)[1..] == a[1..] + b;
      EmitAppend(q, a[1..], b);
    }
  }

  /* ---------- The scan loops ---------- */

  /** `handle_entry`: false stops the scan, on the last allowed row or on an error. */
  method HandleEntry(q: Query, limit: nat, row: Row, outRows: seq<seq<Value>>)
    returns (cont: bool, out: seq<seq<Value>>, err: Option<Failure>)
    requires Indexed(q)
    ensures match EntryRow(q, row)
            case Err(e) => !cont && out == outRows && err == Some(e)
            case Ok(None) => cont && out == outRows && err == None
            case Ok(Some(r)) => cont == (|out| < limit) && out == outRows + [r] && err == None
  {
    hide Project;
    var prefix := DataPrefix(q.table.keyspace, q.table.name);
    var parts := ReadKey(prefix, row.key);
    if parts.Err? {
      return false, outRows, Some(parts.why);
    }
    var r;
    r, out := ProjectDecoded(q, parts.value, row.val, outRows);
    match r {
      case Err(e) => return false, out, Some(e);
      case Ok(emitted) => return if emitted then |out| < limit else true, out, None;
    }
  }

  /** The callback loop over one group of entries (one partition, or one engine). `tail`
      stands for the entries of the groups to come. */
  method ScanGroup(q: Query, rows: seq<Row>, limit: nat, outRows: seq<seq<Value>>, ghost tail: seq<Row>)
    returns (out: seq<seq<Value>>, err: Option<Failure>, last: Option<bytes>, stop: bool)
    requires Indexed(q) && (limit >= 1 ==> |outRows| < limit)
    ensures limit >= 1 ==> last == None
    ensures limit >= 1 ==> (
            var owed := After(outRows, FirstRows(q, rows + tail, limit - |outRows|));
            if stop then owed == (if err.None? then Ok(out) else Err(err.value))
            else err == None && |out| < limit && owed == After(out, FirstRows(q, tail, limit - |out|)))
    ensures limit == 0 ==> out == outRows && err == None && stop == (rows != []) && last.Some? == (rows != [])
  {
    hide EntryRow, Indexed;
    out, err, last := outRows, None, None;
    assert rows[0..] == rows;
    for i := 0 to |rows|
      invariant err == None && last == None && (limit == 0 ==> i == 0 && out == outRows)
      invariant limit >= 1 ==> |out| < limit
      invariant limit >= 1 ==> (
                After(outRows, FirstRows(q, rows + tail, limit - |outRows|)) ==
                After(out, FirstRows(q, rows[i..] + tail, limit - |out|)))
    {
      var row := rows[i];
      if |out| >= limit {
        return out, None, Some(row.key), true;
      }
      ghost var rest, before := rows[i + 1..] + tail, out;
      assert (rows[i..] + tail)[0] == row && (rows[i..] + tail)[1..] == rest;
      var cont;
      cont, out, err := HandleEntry(q, limit, row, out);
      if EntryRow(q, row).Ok? && EntryRow(q, row).value.Some? {
        ghost var emitted := EntryRow(q, row).value.value;
        if cont {
          AfterPush(before, emitted, FirstRows(q, rest, limit - |out|));
        }
      }
      if cont {
        if |out| >= limit {
          return out, None, Some(row.key), true;
        }
      } else {
        return out, err, None, true;
      }
    }
    assert rows[|rows|..] + tail == tail;
    return out, None, None, false;
  }

  /** The outer loop: over the partitions, or over the engines. A partition scan also leaves
      between partitions once the limit is reached. */
  method ScanGroups(q: Query, groups: seq<seq<Row>>, limit: nat, perPartition: bool)
    returns (out: seq<seq<Value>>, err: Option<Failure>, last: Option<bytes>)
    requires Indexed(q)
    ensures limit >= 1 ==> last == None
    ensures limit >= 1 ==> FirstRows(q, Concat(groups), limit) == (if err.None? then Ok(out) else Err(err.value))
    ensures limit == 0 ==> out == [] && err == None
    ensures limit == 0 ==>
              (last.Some? <==> if perPartition then groups != [] && groups[0] != [] else Concat(groups) != [])
  {
    hide FirstRows, Indexed;
    out, err, last := [], None, None;
    assert groups[0..] == groups;
    if limit >= 1 {
      AfterNone(FirstRows(q, Concat(groups), limit));
    }
    for g := 0 to |groups|
      invariant err == None && last == None && (limit == 0 ==> out == [] && (perPartition ==> g == 0))
      invariant limit == 0 ==> Concat(groups) == Concat(groups[g..])
      invariant limit >= 1 ==> |out| < limit
      invariant limit >= 1 ==>
                  FirstRows(q, Concat(groups), limit)
                  == After(out, FirstRows(q, Concat(groups[g..]), limit - |out|))
    {
      assert groups[g..][0] == groups[g] && groups[g..][1..] == groups[g + 1..];
      assert Concat(groups[g..]) == groups[g] + Concat(groups[g + 1..]);
      var stop;
      out, err, last, stop := ScanGroup(q, groups[g], limit, out, Concat(groups[g + 1..]));
      if stop {
        return;
      }
      if perPartition && |out| >= limit {
        return;
      }
    }
    if limit >= 1 {
      NothingLeft(q, limit - |out|);
      assert out + [] == out;
    }
  }

  lemma NothingLeft(q: Query, limit: nat)
    requires Indexed(q) && limit >= 1
    ensures FirstRows(q, [], limit) == Ok([])
  {
  }
}
