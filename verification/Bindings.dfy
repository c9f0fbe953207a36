/** Consuming bind values (src/query.rs: `Binds`, `operand_to_value`, `parse_filters` and
    the operand loops of INSERT and UPDATE; src/server.rs: EXECUTE). */
module Bindings {
  import opened Bytes
  import opened Values
  import opened Codec
  import opened RowCodec
  import opened SelectPlans
  import opened Binds

  /** `parse_literal`: the text parser, `None` where it refuses. */
  type Literals = (bytes, ColumnType) -> Option<Value>

  function Parsed(v: Option<Value>): Result<Value> {
    if v.Some? then Ok(v.value) else Err(Invalid)
  }

  /** A bound value decoded at the type asked for. */
  function Bound(given: Option<bytes>, ct: ColumnType): Result<Value> {
    match given
    case None => Ok(Null)
    case Some(raw) =>
      match FromRaw(raw, ct)
      case Ok(v) => Ok(v)
      case Err(e) => Err(if e.Panicked? then Panicked else Invalid)
  }

  function First(given: seq<Option<bytes>>, ct: ColumnType): (r: Result<Value>)
    ensures r.Ok? ==> given != []
  {
    if given == [] then Err(Invalid) else Bound(given[0], ct)
  }

  /* ---------- What each clause reads from the values given ---------- */

  function Texts(texts: seq<bytes>, ct: ColumnType, literal: Literals): Result<seq<Value>> {
    if texts == [] then Ok([]) else
    var v :- Parsed(literal(texts[0], ct));
    var rest :- Texts(texts[1..], ct, literal);
    Ok([v] + rest)
  }

  function TextPairs(texts: seq<(bytes, bytes)>, k: ColumnType, v: ColumnType, literal: Literals): Result<seq<Entry>> {
    if texts == [] then Ok([]) else
    var key :- Parsed(literal(texts[0].0, k));
    var val :- Parsed(literal(texts[0].1, v));
    var rest :- TextPairs(texts[1..], k, v, literal);
    Ok([Entry(key, val)] + rest)
  }

  function OperandValue(v: Operand, ct: ColumnType, given: seq<Option<bytes>>, literal: Literals): (r: Result<Value>)
    ensures r.Ok? ==> OperandAsks(v, ct).complete && |OperandAsks(v, ct).types| <= |given|
  {
    match v
    case NullLit => Ok(Null)
    case Const(text) => Parsed(literal(text, ct))
    case Param => First(given, ct)
    case SetLit(texts) => if !ct.TSet? then Err(Invalid) else var vs :- Texts(texts, ct.elem, literal); Ok(Set(vs))
    case ListLit(texts) => if !ct.TList? then Err(Invalid) else var vs :- Texts(texts, ct.elem, literal); Ok(List(vs))
    case MapLit(texts) =>
      if !ct.TMap? then Err(Invalid) else var es :- TextPairs(texts, ct.key, ct.val, literal); Ok(Map(es))
    case _ => Err(Invalid)
  }

  function ItemValue(item: Operand, ct: ColumnType, given: seq<Option<bytes>>, literal: Literals): (r: Result<Value>)
    ensures r.Ok? ==> ItemAsks(item, ct).complete && |ItemAsks(item, ct).types| <= |given|
  {
    if item.Const? || item.Param? then OperandValue(item, ct, given, literal) else Err(Invalid)
  }

  function ItemValues(items: seq<Operand>, ct: ColumnType, given: seq<Option<bytes>>,
      literal: Literals): (r: Result<seq<Value>>)
    ensures r.Ok? ==> ItemsAsk(items, ct).complete && |ItemsAsk(items, ct).types| <= |given|
    decreases |items|
  {
    if items == [] then Ok([]) else
    var v :- ItemValue(items[0], ct, given, literal);
    var rest :- ItemValues(items[1..], ct, given[|ItemAsks(items[0], ct).types|..], literal);
    Ok([v] + rest)
  }

  function RelationFilter(t: TableDef, rel: Relation, given: seq<Option<bytes>>, literal: Literals): (r: Result<Filter>)
    ensures r.Ok? ==> RelationAsks(t, rel).complete && |RelationAsks(t, rel).types| <= |given| && Known(t, r.value.name)
  {
    if !rel.obj.ColumnRef? then Err(Invalid)
    else match FindColumn(t.columns, rel.obj.id)
      case None => Err(Invalid)
      case Some(i) =>
        var def := t.columns[i];
        assert def in t.columns;
        match rel.oper
        case Equal =>
          if rel.value.NullLit? then Ok(Eq(def.name, Null)) else
          var v :- ItemValue(rel.value, def.colType, given, literal);
          Ok(Eq(def.name, v))
        case IsIn =>
          if rel.value.Tuple? then
            var vs :- ItemValues(rel.value.items, def.colType, given, literal);
            Ok(In(def.name, vs))
          else
            var v :- ItemValue(rel.value, def.colType, given, literal);
            Ok(In(def.name, [v]))
        case Unsupported => Err(Invalid)
  }

  function FiltersRead(t: TableDef, where: seq<Relation>, given: seq<Option<bytes>>,
      literal: Literals): (r: Result<seq<Filter>>)
    ensures r.Ok? ==> WhereAsks(t, where).complete && |WhereAsks(t, where).types| <= |given|
    decreases |where|
  {
    if where == [] then Ok([]) else
    var f :- RelationFilter(t, where[0], given, literal);
    var rest :- FiltersRead(t, where[1..], given[|RelationAsks(t, where[0]).types|..], literal);
    Ok([f] + rest)
  }

  function CellRead(t: TableDef, a: Assignment, byName: bool, given: seq<Option<bytes>>,
      literal: Literals): (r: Result<Cell>)
    ensures r.Ok? ==> AssignmentAsks(t, a, byName).complete && |AssignmentAsks(t, a, byName).types| <= |given|
    ensures r.Ok? ==> r.value.idx < |t.columns|
  {
    if a.relative then Err(Invalid) else
    match Target(t, a.id, byName)
    case None => Err(Invalid)
    case Some(i) =>
      var v :- OperandValue(a.value, t.columns[i].colType, given, literal);
      Ok(Cell(i, v))
  }

  function CellsRead(t: TableDef, xs: seq<Assignment>, byName: bool, given: seq<Option<bytes>>,
      literal: Literals): (r: Result<seq<Cell>>)
    ensures r.Ok? ==> AssignmentsAsk(t, xs, byName).complete && |AssignmentsAsk(t, xs, byName).types| <= |given|
    decreases |xs|
  {
    if xs == [] then Ok([]) else
    var c :- CellRead(t, xs[0], byName, given, literal);
    var rest :- CellsRead(t, xs[1..], byName, given[|AssignmentAsks(t, xs[0], byName).types|..], literal);
    Ok([c] + rest)
  }

  /* ---------- One element at a time ---------- */

  lemma ItemsCons(items: seq<Operand>, i: nat, ct: ColumnType, given: seq<Option<bytes>>, literal: Literals)
    requires i < |items|
    ensures ItemsAsk(items[i..], ct) == Then(ItemAsks(items[i], ct), ItemsAsk(items[i + 1..], ct))
    ensures match ItemValue(items[i], ct, given, literal)
            case Err(e) => ItemValues(items[i..], ct, given, literal) == Err(e)
            case Ok(v) => ItemValues(items[i..], ct, given, literal)
                          == After([v], ItemValues(items[i + 1..], ct, given[|ItemAsks(items[i], ct).types|..],
                              literal))
  {
    hide ItemValue, ItemAsks;
    assert items[i..][0] == items[i] && items[i..][1..] == items[i + 1..];
  }

  lemma FiltersCons(t: TableDef, where: seq<Relation>, i: nat, given: seq<Option<bytes>>, literal: Literals)
    requires i < |where|
    ensures WhereAsks(t, where[i..]) == Then(RelationAsks(t, where[i]), WhereAsks(t, where[i + 1..]))
    ensures match RelationFilter(t, where[i], given, literal)
            case Err(e) => FiltersRead(t, where[i..], given, literal) == Err(e)
            case Ok(f) => FiltersRead(t, where[i..], given, literal)
                          == After([f], FiltersRead(t, where[i + 1..], given[|RelationAsks(t, where[i]).types|..],
                              literal))
  {
    hide RelationFilter, RelationAsks;
    assert where[i..][0] == where[i] && where[i..][1..] == where[i + 1..];
  }

  lemma CellsCons(t: TableDef, xs: seq<Assignment>, i: nat, byName: bool, given: seq<Option<bytes>>, literal: Literals)
    requires i < |xs|
    ensures AssignmentsAsk(t, xs[i..], byName)
            == Then(AssignmentAsks(t, xs[i], byName), AssignmentsAsk(t, xs[i + 1..], byName))
    ensures match CellRead(t, xs[i], byName, given, literal)
            case Err(e) => CellsRead(t, xs[i..], byName, given, literal) == Err(e)
            case Ok(c) => CellsRead(t, xs[i..], byName, given, literal)
                          == After([c], CellsRead(t, xs[i + 1..], byName,
                              given[|AssignmentAsks(t, xs[i], byName).types|..], literal))
  {
    hide CellRead, AssignmentAsks;
    assert xs[i..][0] == xs[i] && xs[i..][1..] == xs[i + 1..];
  }

  lemma NoItems(ct: ColumnType, given: seq<Option<bytes>>, literal: Literals)
    ensures ItemsAsk([], ct) == NOTHING && ItemValues([], ct, given, literal) == Ok([])
  {
  }

  lemma NothingRead(t: TableDef, byName: bool, given: seq<Option<bytes>>, literal: Literals)
    ensures WhereAsks(t, []) == AssignmentsAsk(t, [], byName) == NOTHING
    ensures FiltersRead(t, [], given, literal) == Ok([])
    ensures CellsRead(t, [], byName, given, literal) == Ok([])
  {
  }

  /** Of `all` that was asked for since `was`, `rest` is still to come. */
  predicate Owes(was: seq<ColumnType>, all: Asks, log: seq<ColumnType>, rest: Asks) {
    log + rest.types == was + all.types && rest.complete == all.complete
  }

  lemma Onward(was: seq<ColumnType>, all: Asks, log: seq<ColumnType>, a: Asks, rest: Asks)
    requires Owes(was, all, log, Then(a, rest))
    ensures log + a.types <= was + all.types
    ensures a.complete ==> Owes(was, all, log + a.types, rest)
  {
    if a.complete {
      assert log + (a.types + rest.types) == log + a.types + rest.types;
    }
  }

  lemma Paid(was: seq<ColumnType>, all: Asks, log: seq<ColumnType>)
    ensures Owes(was, all, was, all)
    ensures Owes(was, all, log, NOTHING) ==> all.complete && log == was + all.types
  {
    assert log + [] == log;
  }

  /* ---------- The cursor ---------- */

  method ParseTexts(texts: seq<bytes>, ct: ColumnType, literal: Literals) returns (r: Result<seq<Value>>)
    ensures r == Texts(texts, ct, literal)
  {
    var out: seq<Value> := [];
    AfterNone(Texts(texts, ct, literal));
    assert texts[0..] == texts;
    for i := 0 to |texts|
      invariant Texts(texts, ct, literal) == After(out, Texts(texts[i..], ct, literal))
    {
      assert texts[i..][0] == texts[i] && texts[i..][1..] == texts[i + 1..];
      var v := literal(texts[i], ct);
      if v.None? {
        return Err(Invalid);
      }
      AfterPush(out, v.value, Texts(texts[i + 1..], ct, literal));
      out := out + [v.value];
    }
    assert out + [] == out;
    return Ok(out);
  }

  method ParsePairs(texts: seq<(bytes, bytes)>, k: ColumnType, v: ColumnType,
      literal: Literals) returns (r: Result<seq<Entry>>)
    ensures r == TextPairs(texts, k, v, literal)
  {
    var out: seq<Entry> := [];
    AfterNone(TextPairs(texts, k, v, literal));
    assert texts[0..] == texts;
    for i := 0 to |texts|
      invariant TextPairs(texts, k, v, literal) == After(out, TextPairs(texts[i..], k, v, literal))
    {
      assert texts[i..][0] == texts[i] && texts[i..][1..] == texts[i + 1..];
      var key, val := literal(texts[i].0, k), literal(texts[i].1, v);
      if key.None? || val.None? {
        return Err(Invalid);
      }
      AfterPush(out, Entry(key.value, val.value), TextPairs(texts[i + 1..], k, v, literal));
      out := out + [Entry(key.value, val.value)];
    }
    assert out + [] == out;
    return Ok(out);
  }

  class Cursor {
    const values: seq<Option<bytes>>
    var next: nat
    /** The types asked for so far, and whether a request found no value left. */
    ghost var log: seq<ColumnType>
    ghost var starved: bool

    ghost predicate Valid()
      reads this
    {
      |log| == next <= |values|
    }

    /** What one clause may do to the cursor: take a prefix of what it asks for, all of it if
        it succeeds, and run short only if it asks for more than is left. */
    ghost predicate Took(before: seq<ColumnType>, asks: Asks, ok: bool)
      reads this
    {
      && Valid()
      && before <= log <= before + asks.types
      && (ok ==> !starved && asks.complete && log == before + asks.types)
      && (starved ==> |before + asks.types| > |values|)
    }

    constructor (given: seq<Option<bytes>>)
      ensures Valid() && values == given && next == 0 && log == [] && !starved
    {
      values, next, log, starved := given, 0, [], false;
    }

    method Take(ct: ColumnType) returns (r: Result<Value>)
      requires Valid() && !starved
      modifies this
      ensures Took(old(log), Asks([ct], true), r.Ok?)
      ensures r == First(old(values[next..]), ct)
    {
      if next >= |values| {
        starved := true;
        return Err(Invalid);
      }
      var given := values[next];
      next, log := next + 1, log + [ct];
      if given.None? {
        return Ok(Null);
      }
      var v := FromRaw(given.value, ct);
      if v.Err? && !v.why.Panicked? {
        return Err(Invalid);
      }
      return v;
    }

    method OperandToValue(v: Operand, ct: ColumnType, literal: Literals) returns (r: Result<Value>)
      requires Valid() && !starved
      modifies this
      ensures Took(old(log), OperandAsks(v, ct), r.Ok?)
      ensures r == OperandValue(v, ct, old(values[next..]), literal)
    {
      match v
      case NullLit => return Ok(Null);
      case Const(text) => return Parsed(literal(text, ct));
      case Param => r := Take(ct);
      case SetLit(texts) =>
        if !ct.TSet? {
          return Err(Invalid);
        }
        var vs := ParseTexts(texts, ct.elem, literal);
        return if vs.Ok? then Ok(Set(vs.value)) else Err(vs.why);
      case ListLit(texts) =>
        if !ct.TList? {
          return Err(Invalid);
        }
        var vs := ParseTexts(texts, ct.elem, literal);
        return if vs.Ok? then Ok(List(vs.value)) else Err(vs.why);
      case MapLit(texts) =>
        if !ct.TMap? {
          return Err(Invalid);
        }
        var es := ParsePairs(texts, ct.key, ct.val, literal);
        return if es.Ok? then Ok(Map(es.value)) else Err(es.why);
      case _ => return Err(Invalid);
    }

    method TakeItem(item: Operand, ct: ColumnType, literal: Literals) returns (r: Result<Value>)
      requires Valid() && !starved
      modifies this
      ensures Took(old(log), ItemAsks(item, ct), r.Ok?)
      ensures r == ItemValue(item, ct, old(values[next..]), literal)
    {
      match item
      case Const(text) => return Parsed(literal(text, ct));
      case Param => r := Take(ct);
      case _ => return Err(Invalid);
    }

    method TakeItems(items: seq<Operand>, ct: ColumnType, literal: Literals) returns (r: Result<seq<Value>>)
      requires Valid() && !starved
      modifies this
      ensures Took(old(log), ItemsAsk(items, ct), r.Ok?)
      ensures r == ItemValues(items, ct, old(values[next..]), literal)
    {
      hide ItemValue, ItemAsks, ItemValues, ItemsAsk, Owes, Then;
      var out: seq<Value> := [];
      ghost var all := ItemsAsk(items, ct);
      Paid(log, all, log);
      AfterNone(ItemValues(items, ct, values[next..], literal));
      assert items[0..] == items;
      for i := 0 to |items|
        invariant Valid() && !starved && old(log) <= log
        invariant Owes(old(log), all, log, ItemsAsk(items[i..], ct))
        invariant ItemValues(items, ct, old(values[next..]), literal)
            == After(out, ItemValues(items[i..], ct, values[next..], literal))
      {
        ItemsCons(items, i, ct, values[next..], literal);
        Onward(old(log), all, log, ItemAsks(items[i], ct), ItemsAsk(items[i + 1..], ct));
        ghost var now := next;
        var v := TakeItem(items[i], ct, literal);
        if v.Err? {
          return Err(v.why);
        }
        assert values[now..][|ItemAsks(items[i], ct).types|..] == values[next..];
        AfterPush(out, v.value, ItemValues(items[i + 1..], ct, values[next..], literal));
        out := out + [v.value];
      }
      Paid(old(log), all, log);
      NoItems(ct, values[next..], literal);
      assert items[|items|..] == [];
      assert out + [] == out;
      return Ok(out);
    }

    method TakeRelation(t: TableDef, rel: Relation, literal: Literals) returns (r: Result<Filter>)
      requires Valid() && !starved
      modifies this
      ensures Took(old(log), RelationAsks(t, rel), r.Ok?)
      ensures r == RelationFilter(t, rel, old(values[next..]), literal)
    {
      if !rel.obj.ColumnRef? {
        return Err(Invalid);
      }
      var found := FindColumn(t.columns, rel.obj.id);
      if found.None? {
        return Err(Invalid);
      }
      var def := t.columns[found.value];
      match rel.oper
      case Equal =>
        if rel.value.NullLit? {
          return Ok(Eq(def.name, Null));
        }
        var v := TakeItem(rel.value, def.colType, literal);
        return if v.Ok? then Ok(Eq(def.name, v.value)) else Err(v.why);
      case IsIn =>
        if rel.value.Tuple? {
          var vs := TakeItems(rel.value.items, def.colType, literal);
          return if vs.Ok? then Ok(In(def.name, vs.value)) else Err(vs.why);
        }
        var v := TakeItem(rel.value, def.colType, literal);
        return if v.Ok? then Ok(In(def.name, [v.value])) else Err(v.why);
      case Unsupported => return Err(Invalid);
    }

    /** `parse_filters`. */
    method ParseFilters(t: TableDef, where: seq<Relation>, literal: Literals) returns (r: Result<seq<Filter>>)
      requires Valid() && !starved
      modifies this
      ensures Took(old(log), WhereAsks(t, where), r.Ok?)
      ensures r == FiltersRead(t, where, old(values[next..]), literal)
      ensures r.Ok? ==> FiltersOk(t, r.value)
    {
      hide RelationFilter, RelationAsks, FiltersRead, WhereAsks, Position, Owes, Then;
      var out: seq<Filter> := [];
      ghost var all := WhereAsks(t, where);
      Paid(log, all, log);
      AfterNone(FiltersRead(t, where, values[next..], literal));
      assert where[0..] == where;
      for i := 0 to |where|
        invariant Valid() && !starved && old(log) <= log && FiltersOk(t, out)
        invariant Owes(old(log), all, log, WhereAsks(t, where[i..]))
        invariant FiltersRead(t, where, old(values[next..]), literal)
            == After(out, FiltersRead(t, where[i..], values[next..], literal))
      {
        FiltersCons(t, where, i, values[next..], literal);
        Onward(old(log), all, log, RelationAsks(t, where[i]), WhereAsks(t, where[i + 1..]));
        ghost var now := next;
        var f := TakeRelation(t, where[i], literal);
        if f.Err? {
          return Err(f.why);
        }
        assert values[now..][|RelationAsks(t, where[i]).types|..] == values[next..];
        AfterPush(out, f.value, FiltersRead(t, where[i + 1..], values[next..], literal));
        out := out + [f.value];
      }
      Paid(old(log), all, log);
      NothingRead(t, true, values[next..], literal);
      assert where[|where|..] == [];
      assert out + [] == out;
      return Ok(out);
    }

    method TakeAssignment(t: TableDef, a: Assignment, byName: bool, literal: Literals) returns (r: Result<Cell>)
      requires Valid() && !starved
      modifies this
      ensures Took(old(log), AssignmentAsks(t, a, byName), r.Ok?)
      ensures r == CellRead(t, a, byName, old(values[next..]), literal)
    {
      if a.relative {
        return Err(Invalid);
      }
      var target := Target(t, a.id, byName);
      if target.None? {
        return Err(Invalid);
      }
      var v := OperandToValue(a.value, t.columns[target.value].colType, literal);
      return if v.Ok? then Ok(Cell(target.value, v.value)) else Err(v.why);
    }

    /** The operand loops of INSERT and UPDATE. */
    method TakeAssignments(t: TableDef, xs: seq<Assignment>, byName: bool,
        literal: Literals) returns (r: Result<seq<Cell>>)
      requires Valid() && !starved
      modifies this
      ensures Took(old(log), AssignmentsAsk(t, xs, byName), r.Ok?)
      ensures r == CellsRead(t, xs, byName, old(values[next..]), literal)
      ensures r.Ok? ==> forall i | 0 <= i < |r.value| :: r.value[i].idx < |t.columns|
    {
      hide CellRead, AssignmentAsks, CellsRead, AssignmentsAsk, Owes, Then;
      var out: seq<Cell> := [];
      ghost var all := AssignmentsAsk(t, xs, byName);
      Paid(log, all, log);
      AfterNone(CellsRead(t, xs, byName, values[next..], literal));
      assert xs[0..] == xs;
      for i := 0 to |xs|
        invariant Valid() && !starved && old(log) <= log
        invariant forall j | 0 <= j < |out| :: out[j].idx < |t.columns|
        invariant Owes(old(log), all, log, AssignmentsAsk(t, xs[i..], byName))
        invariant CellsRead(t, xs, byName, old(values[next..]), literal)
            == After(out, CellsRead(t, xs[i..], byName, values[next..], literal))
      {
        CellsCons(t, xs, i, byName, values[next..], literal);
        Onward(old(log), all, log, AssignmentAsks(t, xs[i], byName), AssignmentsAsk(t, xs[i + 1..], byName));
        ghost var now := next;
        var c := TakeAssignment(t, xs[i], byName, literal);
        if c.Err? {
          return Err(c.why);
        }
        assert values[now..][|AssignmentAsks(t, xs[i], byName).types|..] == values[next..];
        AfterPush(out, c.value, CellsRead(t, xs[i + 1..], byName, values[next..], literal));
        out := out + [c.value];
      }
      Paid(old(log), all, log);
      NothingRead(t, byName, values[next..], literal);
      assert xs[|xs|..] == [];
      assert out + [] == out;
      return Ok(out);
    }
  }
}
