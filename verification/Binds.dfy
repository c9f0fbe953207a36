/** Bind markers (src/query.rs, src/server.rs): the types announced by PREPARE against the
    types consumed, in order, when the statement executes. `literal` stands for the text
    parser of literals. */
module Binds {
  import opened Bytes
  import opened Values
  import opened RowCodec
  import opened SelectPlans

  /* ---------- Statements as parsed ---------- */

  datatype Ident = Quoted(text: bytes) | Unquoted(text: bytes)

  /** `norm_id`, used when planning. */
  function NormId(id: Ident): bytes {
    match id case Quoted(s) => s case Unquoted(s) => Lower(s)
  }

  /** `ident_eq`, used when executing. */
  predicate IdentEq(id: Ident, name: bytes) {
    match id case Quoted(s) => s == name case Unquoted(s) => Lower(s) == Lower(name)
  }

  datatype Operand =
    | NullLit
    | Const(text: bytes)
    | Param
    | Tuple(items: seq<Operand>)
    | ColumnRef(id: Ident)
    | SetLit(elems: seq<bytes>)
    | ListLit(elems: seq<bytes>)
    | MapLit(entries: seq<(bytes, bytes)>)
    | Other

  datatype Operator = Equal | IsIn | Unsupported

  datatype Relation = Relation(obj: Operand, oper: Operator, value: Operand)

  /** `find` by `ident_eq`. */
  function FindColumn(cols: seq<ColumnDef>, id: Ident): (r: Option<nat>)
    ensures r.Some? ==> r.value < |cols| && IdentEq(id, cols[r.value].name)
    ensures r.None? ==> forall c <- cols :: !IdentEq(id, c.name)
  {
    if cols == [] then None
    else if IdentEq(id, cols[0].name) then Some(0)
    else match FindColumn(cols[1..], id) case None => None case Some(i) => Some(i + 1)
  }

  /* ---------- Announced at PREPARE ---------- */

  /** One bind specification per marker of a WHERE relation. */
  function Announced(t: TableDef, rel: Relation): Result<seq<ColumnType>> {
    if !rel.obj.ColumnRef? then Err(Invalid)
    else match Position(t.columns, NormId(rel.obj.id))
      case None => Err(Invalid)
      case Some(i) => Ok(Markers(rel.value, t.columns[i].colType))
  }

  function Markers(v: Operand, ct: ColumnType): seq<ColumnType> {
    match v
    case Param => [ct]
    case Tuple(items) => ItemMarkers(items, ct)
    case _ => []
  }

  function ItemMarkers(items: seq<Operand>, ct: ColumnType): seq<ColumnType> {
    if items == [] then [] else (if items[0].Param? then [ct] else []) + ItemMarkers(items[1..], ct)
  }

  /** `collect_where_binds`. */
  function WhereAnnounced(t: TableDef, where: seq<Relation>): Result<seq<ColumnType>> {
    if where == [] then Ok([]) else
    var first :- Announced(t, where[0]);
    var rest :- WhereAnnounced(t, where[1..]);
    Ok(first + rest)
  }

  /** One specification per column of an INSERT, or per assignment of an UPDATE. */
  function ColumnsAnnounced(t: TableDef, ids: seq<Ident>): Result<seq<ColumnType>> {
    if ids == [] then Ok([]) else
    match Position(t.columns, NormId(ids[0]))
    case None => Err(Invalid)
    case Some(i) =>
      var rest :- ColumnsAnnounced(t, ids[1..]);
      Ok([t.columns[i].colType] + rest)
  }

  /* ---------- Asked for when executing ---------- */

  /** The types asked for up to the first rejected element; `complete` if none is rejected. */
  datatype Asks = Asks(types: seq<ColumnType>, complete: bool)

  const NOTHING := Asks([], true)
  const REJECTS := Asks([], false)

  function Then(a: Asks, b: Asks): Asks {
    if a.complete then Asks(a.types + b.types, b.complete) else a
  }

  function RelationAsks(t: TableDef, rel: Relation): Asks {
    if !rel.obj.ColumnRef? then REJECTS
    else match FindColumn(t.columns, rel.obj.id)
      case None => REJECTS
      case Some(i) =>
        var ct := t.columns[i].colType;
        match rel.oper
        case Equal =>
          (match rel.value
           case NullLit => NOTHING
           case Const(_) => NOTHING
           case Param => Asks([ct], true)
           case _ => REJECTS)
        case IsIn =>
          (match rel.value
           case Tuple(items) => ItemsAsk(items, ct)
           case Const(_) => NOTHING
           case Param => Asks([ct], true)
           case _ => REJECTS)
        case Unsupported => REJECTS
  }

  function ItemAsks(item: Operand, ct: ColumnType): Asks {
    match item case Const(_) => NOTHING case Param => Asks([ct], true) case _ => REJECTS
  }

  function ItemsAsk(items: seq<Operand>, ct: ColumnType): Asks {
    if items == [] then NOTHING else Then(ItemAsks(items[0], ct), ItemsAsk(items[1..], ct))
  }

  function WhereAsks(t: TableDef, where: seq<Relation>): Asks {
    if where == [] then NOTHING else Then(RelationAsks(t, where[0]), WhereAsks(t, where[1..]))
  }

  /** What `operand_to_value` asks for; collection literals hold no markers. */
  function OperandAsks(v: Operand, ct: ColumnType): Asks {
    match v
    case NullLit => NOTHING
    case Const(_) => NOTHING
    case Param => Asks([ct], true)
    case SetLit(_) => if ct.TSet? then NOTHING else REJECTS
    case ListLit(_) => if ct.TList? then NOTHING else REJECTS
    case MapLit(_) => if ct.TMap? then NOTHING else REJECTS
    case _ => REJECTS
  }

  /** A column with its value, an INSERT's found by `ident_eq`, an UPDATE's by its name.
      `relative` marks `c = c + x`, which execution refuses. */
  datatype Assignment = Assignment(id: Ident, value: Operand, relative: bool)

  function Target(t: TableDef, id: Ident, byName: bool): (r: Option<nat>)
    ensures r.Some? ==> r.value < |t.columns|
  {
    if byName then Position(t.columns, NormId(id)) else FindColumn(t.columns, id)
  }

  function AssignmentAsks(t: TableDef, a: Assignment, byName: bool): Asks {
    if a.relative then REJECTS else
    match Target(t, a.id, byName)
    case None => REJECTS
    case Some(i) => OperandAsks(a.value, t.columns[i].colType)
  }

  function AssignmentsAsk(t: TableDef, xs: seq<Assignment>, byName: bool): Asks {
    if xs == [] then NOTHING
    else Then(AssignmentAsks(t, xs[0], byName), AssignmentsAsk(t, xs[1..], byName))
  }

  /* ---------- They agree ---------- */

  lemma {:induction false} FirstFound(cols: seq<ColumnDef>, id: Ident, j: nat)
    requires j < |cols| && IdentEq(id, cols[j].name)
    ensures FindColumn(cols, id).Some? && FindColumn(cols, id).value <= j
    decreases |cols|
  {
    hide IdentEq;
    if !IdentEq(id, cols[0].name) {
      FirstFound(cols[1..], id, j - 1);
    }
  }

  lemma {:induction false} FirstPosition(cols: seq<ColumnDef>, name: bytes, j: nat)
    requires j < |cols| && cols[j].name == name
    ensures Position(cols, name).Some? && Position(cols, name).value <= j
    decreases |cols|
  {
    if cols[0].name != name {
      FirstPosition(cols[1..], name, j - 1);
    }
  }

  /** Every column name stands, in lower case, at or before its own place: so when all names
      are lower case. */
  predicate Folded(cols: seq<ColumnDef>) {
    forall i | 0 <= i < |cols| :: FoldedAt(cols, i)
  }

  predicate FoldedAt(cols: seq<ColumnDef>, i: nat)
    requires i < |cols|
  {
    exists j :: 0 <= j <= i && cols[j].name == Lower(cols[i].name)
  }

  lemma LowerTwice(s: bytes)
    ensures Lower(Lower(s)) == Lower(s)
  {
  }

  /** On such columns both name lookups find the same column, or neither finds one. */
  lemma SameColumn(cols: seq<ColumnDef>, id: Ident)
    requires Folded(cols)
    ensures Position(cols, NormId(id)) == FindColumn(cols, id)
  {
    hide Lower, Position, FindColumn;
    var found, at := FindColumn(cols, id), Position(cols, NormId(id));
    if at.Some? {
      assert IdentEq(id, cols[at.value].name) by { LowerTwice(id.text); }
      FirstFound(cols, id, at.value);
    }
    if found.Some? {
      var i := found.value;
      if id.Unquoted? {
        assert FoldedAt(cols, i);
        var j :| 0 <= j <= i && cols[j].name == Lower(cols[i].name);
        FirstPosition(cols, NormId(id), j);
      } else {
        FirstPosition(cols, NormId(id), i);
      }
    }
  }

  /** PREPARE and execution resolve every identifier alike if and only if the columns are
      folded. */
  lemma IdentifiersAgreeExactly(cols: seq<ColumnDef>)
    ensures (forall id :: Position(cols, NormId(id)) == FindColumn(cols, id)) <==> Folded(cols)
  {
    hide Lower, Position, FindColumn;
    if Folded(cols) {
      forall id
        ensures Position(cols, NormId(id)) == FindColumn(cols, id)
      {
        SameColumn(cols, id);
      }
    } else {
      var i :| 0 <= i < |cols| && !FoldedAt(cols, i);
      var id := Unquoted(cols[i].name);
      FirstFound(cols, id, i);
      assert Position(cols, NormId(id)) != FindColumn(cols, id);
    }
  }

  /** `asks` never departs from `announced`, and covers it once nothing is rejected. */
  predicate Follows(asks: Asks, announced: seq<ColumnType>) {
    asks.types <= announced && (asks.complete ==> asks.types == announced)
  }

  lemma FollowsThen(a: Asks, x: seq<ColumnType>, b: Asks, y: seq<ColumnType>)
    requires Follows(a, x) && Follows(b, y)
    ensures Follows(Then(a, b), x + y)
  {
  }

  lemma {:induction false} ItemsFollow(items: seq<Operand>, ct: ColumnType)
    ensures Follows(ItemsAsk(items, ct), ItemMarkers(items, ct))
    decreases |items|
  {
    if items != [] {
      ItemsFollow(items[1..], ct);
      FollowsThen(ItemAsks(items[0], ct), if items[0].Param? then [ct] else [], ItemsAsk(items[1..], ct),
          ItemMarkers(items[1..], ct));
    }
  }

  lemma RelationFollows(t: TableDef, rel: Relation)
    requires Folded(t.columns)
    ensures RelationAsks(t, rel).complete ==> Announced(t, rel).Ok?
    ensures Announced(t, rel).Ok? ==> Follows(RelationAsks(t, rel), Announced(t, rel).value)
  {
    hide Folded;
    if rel.obj.ColumnRef? {
      SameColumn(t.columns, rel.obj.id);
      match FindColumn(t.columns, rel.obj.id)
      case None =>
      case Some(i) =>
        if rel.value.Tuple? {
          ItemsFollow(rel.value.items, t.columns[i].colType);
        }
    }
  }

  /** For every WHERE clause: PREPARE accepts whatever execution accepts, the types asked
      for, in order, are a prefix of those announced even when execution rejects part of
      the clause, and they are all of them when it does not. So for every SELECT and
      DELETE. */
  lemma {:induction false} WhereBindsMatch(t: TableDef, where: seq<Relation>)
    requires Folded(t.columns)
    ensures WhereAsks(t, where).complete ==> WhereAnnounced(t, where).Ok?
    ensures WhereAnnounced(t, where).Ok? ==> Follows(WhereAsks(t, where), WhereAnnounced(t, where).value)
    decreases |where|
  {
    hide Folded, RelationAsks, Announced;
    if where != [] {
      WhereBindsMatch(t, where[1..]);
      RelationFollows(t, where[0]);
      if WhereAnnounced(t, where).Ok? {
        FollowsThen(RelationAsks(t, where[0]), Announced(t, where[0]).value, WhereAsks(t, where[1..]),
            WhereAnnounced(t, where[1..]).value);
      }
    }
  }

  function Ids(xs: seq<Assignment>): seq<Ident> {
    if xs == [] then [] else [xs[0].id] + Ids(xs[1..])
  }

  predicate AllParams(xs: seq<Assignment>) {
    forall i | 0 <= i < |xs| :: xs[i].value.Param?
  }

  lemma AssignmentFollows(t: TableDef, a: Assignment, byName: bool)
    requires byName || Folded(t.columns)
    ensures Target(t, a.id, byName) == Position(t.columns, NormId(a.id))
    ensures a.value.Param? && Target(t, a.id, byName).Some? ==>
              Follows(AssignmentAsks(t, a, byName), [t.columns[Target(t, a.id, byName).value].colType])
    ensures !a.value.Param? ==> AssignmentAsks(t, a, byName).types == []
    ensures |AssignmentAsks(t, a, byName).types| <= 1
    ensures AssignmentAsks(t, a, byName).complete ==> Target(t, a.id, byName).Some?
  {
    hide Folded;
    if !byName {
      SameColumn(t.columns, a.id);
    }
  }

  /** PREPARE announces one type per assigned column whatever stands there, so an INSERT or
      the assignments of an UPDATE ask for exactly the announced types if and only if every
      value is a marker (and none is relative); any other value leaves announced types
      unused. */
  lemma {:induction false} ValueBindsExactly(t: TableDef, xs: seq<Assignment>, byName: bool)
    requires byName || Folded(t.columns)
    ensures AssignmentsAsk(t, xs, byName).complete ==> ColumnsAnnounced(t, Ids(xs)).Ok?
    ensures ColumnsAnnounced(t, Ids(xs)).Ok? ==>
              (var announced := ColumnsAnnounced(t, Ids(xs)).value;
               && |announced| == |xs|
               && (AllParams(xs) ==> Follows(AssignmentsAsk(t, xs, byName), announced))
               && (!AllParams(xs) ==> |AssignmentsAsk(t, xs, byName).types| < |announced|))
    decreases |xs|
  {
    hide Folded, AssignmentAsks, Target;
    if xs != [] {
      var rest := xs[1..];
      assert Ids(xs)[0] == xs[0].id && Ids(xs)[1..] == Ids(rest);
      AssignmentFollows(t, xs[0], byName);
      ValueBindsExactly(t, rest, byName);
      assert AllParams(xs) <==> xs[0].value.Param? && AllParams(rest) by {
        assert forall i | 1 <= i < |xs| :: xs[i] == rest[i - 1];
      }
      if ColumnsAnnounced(t, Ids(xs)).Ok? && AllParams(xs) {
        FollowsThen(AssignmentAsks(t, xs[0], byName), ColumnsAnnounced(t, Ids(xs)).value[..1],
            AssignmentsAsk(t, rest, byName), ColumnsAnnounced(t, Ids(rest)).value);
      }
    }
  }
}
