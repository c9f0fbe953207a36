/** PREPARE then EXECUTE (src/query.rs: `prepared_info`; src/server.rs): one value per
    announced type is exactly what execution consumes. */
module Prepared {
  import opened Bytes
  import opened Values
  import opened RowCodec
  import opened SelectPlans
  import opened Binds
  import opened Bindings
  import opened Reading

  datatype Dml =
    | Select(where: seq<Relation>)
    | DeleteFrom(where: seq<Relation>)
    | InsertInto(columns: seq<Ident>, values: seq<Operand>)
    | UpdateSet(sets: seq<Assignment>, where: seq<Relation>)

  /** The types `prepared_info` announces. */
  function Plan(t: TableDef, s: Dml): Result<seq<ColumnType>> {
    match s
    case Select(where) => WhereAnnounced(t, where)
    case DeleteFrom(where) => WhereAnnounced(t, where)
    case InsertInto(columns, _) => ColumnsAnnounced(t, columns)
    case UpdateSet(sets, where) =>
      var first :- ColumnsAnnounced(t, Ids(sets));
      var rest :- WhereAnnounced(t, where);
      Ok(first + rest)
  }

  function Zip(columns: seq<Ident>, values: seq<Operand>): (r: seq<Assignment>)
    requires |columns| == |values|
    ensures |r| == |values| && forall i | 0 <= i < |r| :: r[i] == Assignment(columns[i], values[i], false)
  {
    seq(|values|, i requires 0 <= i < |values| => Assignment(columns[i], values[i], false))
  }

  function Asked(t: TableDef, s: Dml): Asks {
    match s
    case Select(where) => WhereAsks(t, where)
    case DeleteFrom(where) => WhereAsks(t, where)
    case InsertInto(columns, values) =>
      if |columns| != |values| then REJECTS else AssignmentsAsk(t, Zip(columns, values), false)
    case UpdateSet(sets, where) => Then(AssignmentsAsk(t, sets, true), WhereAsks(t, where))
  }

  /** Every assigned value is a marker. */
  predicate Marked(s: Dml) {
    match s
    case InsertInto(_, values) => forall i | 0 <= i < |values| :: values[i].Param?
    case UpdateSet(sets, _) => AllParams(sets)
    case _ => true
  }

  lemma {:induction false} IdsOfZip(columns: seq<Ident>, values: seq<Operand>)
    requires |columns| == |values|
    ensures Ids(Zip(columns, values)) == columns
    decreases |columns|
  {
    if columns != [] {
      var z := Zip(columns, values);
      assert z[1..] == Zip(columns[1..], values[1..]);
      IdsOfZip(columns[1..], values[1..]);
    }
  }

  lemma InsertMatches(t: TableDef, columns: seq<Ident>, values: seq<Operand>)
    requires Folded(t.columns) && |columns| == |values|
    ensures var s := InsertInto(columns, values);
            && (Asked(t, s).complete ==> Plan(t, s).Ok?)
            && (Plan(t, s).Ok? && Marked(s) ==> Follows(Asked(t, s), Plan(t, s).value))
            && (Plan(t, s).Ok? && !Marked(s) ==> |Asked(t, s).types| < |Plan(t, s).value|)
  {
    hide Folded, AssignmentsAsk, ColumnsAnnounced;
    var z := Zip(columns, values);
    IdsOfZip(columns, values);
    ValueBindsExactly(t, z, false);
    assert AllParams(z) <==> Marked(InsertInto(columns, values));
  }

  lemma UpdateMatches(t: TableDef, sets: seq<Assignment>, where: seq<Relation>)
    requires Folded(t.columns)
    ensures var s := UpdateSet(sets, where);
            && (Asked(t, s).complete ==> Plan(t, s).Ok?)
            && (Plan(t, s).Ok? && Marked(s) ==> Follows(Asked(t, s), Plan(t, s).value))
            && (Plan(t, s).Ok? && !Marked(s) ==> |Asked(t, s).types| < |Plan(t, s).value|)
  {
    hide Folded, AssignmentsAsk, ColumnsAnnounced, WhereAsks, WhereAnnounced;
    ValueBindsExactly(t, sets, true);
    WhereBindsMatch(t, where);
    if Plan(t, UpdateSet(sets, where)).Ok? && AllParams(sets) {
      FollowsThen(AssignmentsAsk(t, sets, true), ColumnsAnnounced(t, Ids(sets)).value, WhereAsks(t, where),
          WhereAnnounced(t, where).value);
    }
  }

  /** PREPARE accepts every statement execution accepts. Execution never asks for more than
      was announced; with every assigned value a marker it follows the announcement type by
      type, and a statement that runs to the end uses up the announcement if and only if
      every assigned value is a marker. */
  lemma PlanMatchesExactly(t: TableDef, s: Dml)
    requires Folded(t.columns)
    ensures Asked(t, s).complete ==> Plan(t, s).Ok?
    ensures Plan(t, s).Ok? && Marked(s) ==> Follows(Asked(t, s), Plan(t, s).value)
    ensures Plan(t, s).Ok? ==> |Asked(t, s).types| <= |Plan(t, s).value|
    ensures Asked(t, s).complete && Marked(s) ==> Asked(t, s).types == Plan(t, s).value
    ensures Asked(t, s).complete && !Marked(s) ==> |Asked(t, s).types| < |Plan(t, s).value|
  {
    hide Folded, AssignmentsAsk, ColumnsAnnounced, WhereAsks, WhereAnnounced;
    match s
    case Select(where) => WhereBindsMatch(t, where);
    case DeleteFrom(where) => WhereBindsMatch(t, where);
    case InsertInto(columns, values) =>
      if |columns| == |values| {
        InsertMatches(t, columns, values);
      }
    case UpdateSet(sets, where) => UpdateMatches(t, sets, where);
  }

  /** What the statement says with these values: for a SELECT or DELETE its filters, for an
      INSERT its cells, for an UPDATE its cells and then its filters, whose markers come
      after those of the assignments. */
  ghost predicate StatementSays(
      t: TableDef, s: Dml, given: seq<Option<bytes>>, literal: Literals, cells: seq<Cell>, filters: seq<Filter>)
  {
    match s
    case Select(where) => cells == [] && WhereSays(t, where, given, 0, literal, filters)
    case DeleteFrom(where) => cells == [] && WhereSays(t, where, given, 0, literal, filters)
    case InsertInto(columns, values) =>
      && |columns| == |values| && filters == []
      && AssignmentsSay(t, Zip(columns, values), false, given, 0, literal, cells)
    case UpdateSet(sets, where) =>
      && AssignmentsSay(t, sets, true, given, 0, literal, cells)
      && WhereSays(t, where, given, MarkersAmong(sets, |sets|), literal, filters)
  }

  /** What the operand loops read. */
  function StatementRead(t: TableDef, s: Dml, given: seq<Option<bytes>>,
      literal: Literals): Result<(seq<Cell>, seq<Filter>)>
  {
    match s
    case Select(where) => var fs :- FiltersRead(t, where, given, literal); Ok(([], fs))
    case DeleteFrom(where) => var fs :- FiltersRead(t, where, given, literal); Ok(([], fs))
    case InsertInto(columns, values) =>
      if |columns| != |values| then Err(Syntax)
      else var cells :- CellsRead(t, Zip(columns, values), false, given, literal); Ok((cells, []))
    case UpdateSet(sets, where) =>
      var cells :- CellsRead(t, sets, true, given, literal);
      var fs :- FiltersRead(t, where, given[|AssignmentsAsk(t, sets, true).types|..], literal);
      Ok((cells, fs))
  }

  /** They read exactly what the statement says, and succeed exactly when it says something. */
  lemma {:induction false} StatementExactly(
      t: TableDef, s: Dml, given: seq<Option<bytes>>, literal: Literals, cells: seq<Cell>, filters: seq<Filter>)
    ensures StatementRead(t, s, given, literal) == Ok((cells, filters))
            <==> StatementSays(t, s, given, literal, cells, filters)
  {
    hide FiltersRead, CellsRead, WhereSays, AssignmentsSay, AssignmentsAsk, MarkersAmong;
    assert given[0..] == given;
    match s
    case Select(where) => WhereExactly(t, where, given, 0, literal, filters);
    case DeleteFrom(where) => WhereExactly(t, where, given, 0, literal, filters);
    case InsertInto(columns, values) =>
      if |columns| == |values| {
        AssignmentsExactly(t, Zip(columns, values), false, given, 0, literal, cells);
      }
    case UpdateSet(sets, where) =>
      AssignmentsExactly(t, sets, true, given, 0, literal, cells);
      if CellsRead(t, sets, true, given, literal).Ok? {
        AsksAmong(t, sets, true);
        WhereExactly(t, where, given, MarkersAmong(sets, |sets|), literal, filters);
      }
  }

  /** A statement takes what it asks for, in order, and answers exactly what it says. */
  method Bind(b: Cursor, t: TableDef, s: Dml, literal: Literals) returns (r: Result<(seq<Cell>, seq<Filter>)>)
    requires b.Valid() && !b.starved && b.log == []
    modifies b
    ensures b.Took([], Asked(t, s), r.Ok?)
    ensures forall cells, filters ::
              r == Ok((cells, filters)) <==> StatementSays(t, s, b.values, literal, cells, filters)
    ensures r.Ok? ==> FiltersOk(t, r.value.1) && forall i | 0 <= i < |r.value.0| :: r.value.0[i].idx < |t.columns|
  {
    hide AssignmentsAsk, WhereAsks, FiltersRead, CellsRead, Known, StatementSays;
    assert b.values[b.next..] == b.values;
    match s {
      case Select(where) =>
        var filters := b.ParseFilters(t, where, literal);
        r := if filters.Ok? then Ok(([], filters.value)) else Err(filters.why);
      case DeleteFrom(where) =>
        var filters := b.ParseFilters(t, where, literal);
        r := if filters.Ok? then Ok(([], filters.value)) else Err(filters.why);
      case InsertInto(columns, values) =>
        if |columns| != |values| {
          r := Err(Syntax);
        } else {
          var cells := b.TakeAssignments(t, Zip(columns, values), false, literal);
          r := if cells.Ok? then Ok((cells.value, [])) else Err(cells.why);
        }
      case UpdateSet(sets, where) =>
        var cells := b.TakeAssignments(t, sets, true, literal);
        if cells.Err? {
          r := Err(cells.why);
        } else {
          var filters := b.ParseFilters(t, where, literal);
          r := if filters.Ok? then Ok((cells.value, filters.value)) else Err(filters.why);
        }
    }
    assert r == StatementRead(t, s, b.values, literal);
    forall cells, filters
      ensures r == Ok((cells, filters)) <==> StatementSays(t, s, b.values, literal, cells, filters)
    {
      StatementExactly(t, s, b.values, literal, cells, filters);
    }
  }

  /** EXECUTE: the value count is checked against the announcement, then the statement takes
      its values and answers exactly what it says. On folded columns no request ever finds
      the values used up; if every assigned value is a marker each value is read at its
      announced type and a success leaves none unused; otherwise a success leaves some. */
  method ExecutePrepared(t: TableDef, s: Dml, given: seq<Option<bytes>>, literal: Literals)
    returns (r: Result<(seq<Cell>, seq<Filter>)>, b: Cursor)
    requires Plan(t, s).Ok?
    ensures fresh(b) && b.Valid() && b.values == given
    ensures |given| != |Plan(t, s).value| ==> r == Err(Invalid) && b.log == []
    ensures |given| == |Plan(t, s).value| ==>
              forall cells, filters ::
                r == Ok((cells, filters)) <==> StatementSays(t, s, given, literal, cells, filters)
    ensures Folded(t.columns) ==> !b.starved
    ensures Folded(t.columns) && Marked(s) ==> b.log <= Plan(t, s).value
    ensures Folded(t.columns) && r.Ok? ==> (b.next == |given| <==> Marked(s))
    ensures r.Ok? ==> FiltersOk(t, r.value.1) && forall i | 0 <= i < |r.value.0| :: r.value.0[i].idx < |t.columns|
  {
    hide Folded, Asked, Plan, FiltersOk, Marked, StatementSays;
    b := new Cursor(given);
    if |given| != |Plan(t, s).value| {
      return Err(Invalid), b;
    }
    r := Bind(b, t, s, literal);
    if Folded(t.columns) {
      PlanMatchesExactly(t, s);
    }
  }

  /* ---------- Where announcement and execution part ---------- */

  const KEY_VALUE := TableDef(
    [0x6B], [0x74],
    [ColumnDef([0x6B], TInt, true, false), ColumnDef([0x76], TInt, false, false)],
    [[0x6B]], [])

  const SET_FIVE := Assignment(Unquoted([0x76]), Const([0x35]), false)
  const KEY_GIVEN := Relation(ColumnRef(Unquoted([0x6B])), Equal, Param)

  lemma ColumnsFound()
    ensures Position(KEY_VALUE.columns, NormId(SET_FIVE.id)) == Some(1)
    ensures Position(KEY_VALUE.columns, NormId(KEY_GIVEN.obj.id)) == FindColumn(KEY_VALUE.columns, KEY_GIVEN.obj.id)
        == Some(0)
  {
    assert Lower([0x76]) == [0x76] && Lower([0x6B]) == [0x6B];
    assert KEY_VALUE.columns[1..][0].name == [0x76];
  }

  lemma OneColumn(t: TableDef, id: Ident)
    requires Position(t.columns, NormId(id)).Some?
    ensures ColumnsAnnounced(t, [id]) == Ok([t.columns[Position(t.columns, NormId(id)).value].colType])
  {
    var ct := t.columns[Position(t.columns, NormId(id)).value].colType;
    assert [id][1..] == [] && ColumnsAnnounced(t, [id][1..]) == Ok([]) && [ct] + [] == [ct];
  }

  lemma ShiftPlanned()
    ensures Plan(KEY_VALUE, UpdateSet([SET_FIVE], [KEY_GIVEN])) == Ok([TInt, TInt])
    ensures Asked(KEY_VALUE, UpdateSet([SET_FIVE], [KEY_GIVEN])) == Asks([TInt], true)
  {
    hide Position, FindColumn, NormId, IdentEq;
    ColumnsFound();
    assert [SET_FIVE][1..] == [] && [KEY_GIVEN][1..] == [];
    var ids := Ids([SET_FIVE]);
    assert Ids([SET_FIVE][1..]) == [] && [SET_FIVE.id] + [] == [SET_FIVE.id];
    assert ids == [SET_FIVE.id] && ids[1..] == [];
    OneColumn(KEY_VALUE, SET_FIVE.id);
    assert Announced(KEY_VALUE, KEY_GIVEN) == Ok([TInt]);
    assert WhereAnnounced(KEY_VALUE, [KEY_GIVEN]) == Ok([TInt]) by {
      assert WhereAnnounced(KEY_VALUE, [KEY_GIVEN][1..]) == Ok([]);
    }
    assert AssignmentsAsk(KEY_VALUE, [SET_FIVE], true) == NOTHING;
    assert WhereAsks(KEY_VALUE, [KEY_GIVEN]) == Asks([TInt], true);
    assert [TInt] + [TInt] == [TInt, TInt];
  }

  /** `UPDATE t SET v = 5 WHERE k = ?` announces two values and uses one: the value the
      client binds for `v` is taken as the key. */
  lemma LiteralShiftsTheKey(v: bytes, k: bytes, literal: Literals)
    requires literal([0x35], TInt).Some? && FromRaw(v, TInt).Ok?
    ensures Plan(KEY_VALUE, UpdateSet([SET_FIVE], [KEY_GIVEN])) == Ok([TInt, TInt])
    ensures Asked(KEY_VALUE, UpdateSet([SET_FIVE], [KEY_GIVEN])) == Asks([TInt], true)
    ensures CellsRead(KEY_VALUE, [SET_FIVE], true, [Some(v), Some(k)], literal)
        == Ok([Cell(1, literal([0x35], TInt).value)])
    ensures FiltersRead(KEY_VALUE, [KEY_GIVEN], [Some(v), Some(k)], literal) == Ok([Eq([0x6B], FromRaw(v, TInt).value)])
  {
    hide FromRaw, Position, FindColumn;
    ColumnsFound();
    ShiftPlanned();
    var given := [Some(v), Some(k)];
    assert [SET_FIVE][0..] == [SET_FIVE] && [KEY_GIVEN][0..] == [KEY_GIVEN] && [SET_FIVE][1..] == []
        && [KEY_GIVEN][1..] == [];
    assert AssignmentAsks(KEY_VALUE, SET_FIVE, true) == NOTHING
        && RelationAsks(KEY_VALUE, KEY_GIVEN) == Asks([TInt], true);
    var c, f := Cell(1, literal([0x35], TInt).value), Eq([0x6B], FromRaw(v, TInt).value);
    assert CellRead(KEY_VALUE, SET_FIVE, true, given, literal) == Ok(c);
    assert RelationFilter(KEY_VALUE, KEY_GIVEN, given, literal) == Ok(f);
    CellsCons(KEY_VALUE, [SET_FIVE], 0, true, given, literal);
    FiltersCons(KEY_VALUE, [KEY_GIVEN], 0, given, literal);
    NothingRead(KEY_VALUE, true, given[0..], literal);
    NothingRead(KEY_VALUE, true, given[1..], literal);
    assert [c] + [] == [c] && [f] + [] == [f];
  }

  /** A column created as `"K"`: execution finds it under the unquoted name `k`, PREPARE does
      not. */
  lemma MixedCaseIsNotPrepared()
    ensures var t := TableDef([0x6B], [0x74], [ColumnDef([0x4B], TInt, true, false)], [[0x4B]], []);
            var where := [Relation(ColumnRef(Unquoted([0x6B])), Equal, Param)];
            !Folded(t.columns) && WhereAsks(t, where) == Asks([TInt], true) && WhereAnnounced(t, where) == Err(Invalid)
  {
    assert Lower([0x4B]) == [0x6B] && Lower([0x6B]) == [0x6B];
    var cols := [ColumnDef([0x4B], TInt, true, false)];
    assert FindColumn(cols, Unquoted([0x6B])) == Some(0) && cols[1..] == [];
    assert Position(cols, [0x6B]) == None;
    assert !FoldedAt(cols, 0);
    assert [Relation(ColumnRef(Unquoted([0x6B])), Equal, Param)][1..] == [];
  }
}
