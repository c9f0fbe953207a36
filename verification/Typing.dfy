/** Operands that were parsed or bound have their column's type (src/query.rs), so bound
    statements are the proper statements the refinement speaks about. */
module Typing {
  import opened Bytes
  import opened Counting
  import opened Values
  import opened Keys
  import opened RowCodec
  import opened SelectPlans
  import opened PlanEquivalence
  import opened Binds
  import opened Bindings
  import opened Statements
  import opened Refinement

  /** `parse_literal` yields a value of the type asked for. */
  ghost predicate TypedLiterals(literal: Literals) {
    forall text, ct :: literal(text, ct).Some? ==> WellTyped(literal(text, ct).value, ct)
  }

  lemma BoundTyped(given: Option<bytes>, ct: ColumnType)
    ensures Bound(given, ct).Ok? ==> Storable(Bound(given, ct).value, ct)
  {
    hide FromWire, WellTyped;
    if given.Some? {
      DecodedWellTyped(I32(|given.value|) + given.value, ct);
    }
  }

  lemma {:induction false} TextsTyped(texts: seq<bytes>, ct: ColumnType, literal: Literals)
    requires TypedLiterals(literal)
    ensures Texts(texts, ct, literal).Ok? ==> AllTyped(Texts(texts, ct, literal).value, ct)
    ensures Texts(texts, ct, literal).Ok? ==> 4 * |texts| <= |WireAll(Texts(texts, ct, literal).value)|
    ensures Texts(texts, ct, literal).Ok? ==> |Texts(texts, ct, literal).value| == |texts|
    decreases |texts|
  {
    hide WellTyped, Raw;
    if texts != [] && Texts(texts, ct, literal).Ok? {
      TextsTyped(texts[1..], ct, literal);
      var vs := Texts(texts, ct, literal).value;
      assert vs[1..] == Texts(texts[1..], ct, literal).value && WellTyped(vs[0], ct);
    }
  }

  lemma {:induction false} TextPairsTyped(texts: seq<(bytes, bytes)>, k: ColumnType, w: ColumnType, literal: Literals)
    requires TypedLiterals(literal)
    ensures TextPairs(texts, k, w, literal).Ok? ==> PairsTyped(TextPairs(texts, k, w, literal).value, k, w)
    ensures TextPairs(texts, k, w, literal).Ok? ==> 4 * |texts| <= |WirePairs(TextPairs(texts, k, w, literal).value)|
    ensures TextPairs(texts, k, w, literal).Ok? ==> |TextPairs(texts, k, w, literal).value| == |texts|
    decreases |texts|
  {
    hide WellTyped, Raw;
    if texts != [] && TextPairs(texts, k, w, literal).Ok? {
      TextPairsTyped(texts[1..], k, w, literal);
      var es := TextPairs(texts, k, w, literal).value;
      assert es[1..] == TextPairs(texts[1..], k, w, literal).value;
      assert WellTyped(es[0].key, k) && WellTyped(es[0].val, w);
      assert |WireEntry(es[0])| >= 4;
    }
  }

  /** Whatever an operand evaluates to is null or of its column's type, if its encoding is
      shorter than 2^31 bytes. */
  lemma OperandTyped(v: Operand, ct: ColumnType, given: seq<Option<bytes>>, literal: Literals)
    requires TypedLiterals(literal)
    ensures var r := OperandValue(v, ct, given, literal);
            r.Ok? && Fits(Raw(r.value)) ==> Storable(r.value, ct)
  {
    hide Texts, TextPairs, AllTyped, PairsTyped, WireAll, WirePairs, Bound;
    match v
    case Param =>
      if given != [] {
        BoundTyped(given[0], ct);
      }
    case SetLit(texts) =>
      if ct.TSet? {
        TextsTyped(texts, ct.elem, literal);
      }
    case ListLit(texts) =>
      if ct.TList? {
        TextsTyped(texts, ct.elem, literal);
      }
    case MapLit(texts) =>
      if ct.TMap? {
        TextPairsTyped(texts, ct.key, ct.val, literal);
      }
    case _ =>
  }

  predicate FittingCells(cells: seq<Cell>) {
    forall i | 0 <= i < |cells| :: Fits(Raw(cells[i].val))
  }

  /** The cells an INSERT or UPDATE reads are typed. */
  lemma {:induction false} CellsTyped(t: TableDef, xs: seq<Assignment>, byName: bool, given: seq<Option<bytes>>,
      literal: Literals)
    requires TypedLiterals(literal) && CellsRead(t, xs, byName, given, literal).Ok?
    requires FittingCells(CellsRead(t, xs, byName, given, literal).value)
    ensures TypedCells(t, CellsRead(t, xs, byName, given, literal).value)
    decreases |xs|
  {
    hide OperandValue, Storable, Raw, TypedLiterals, Target, AssignmentAsks;
    if xs != [] {
      var all := CellsRead(t, xs, byName, given, literal).value;
      var rest := given[|AssignmentAsks(t, xs[0], byName).types|..];
      assert all[1..] == CellsRead(t, xs[1..], byName, rest, literal).value;
      assert forall i | 0 <= i < |all[1..]| :: all[1..][i] == all[i + 1];
      CellsTyped(t, xs[1..], byName, rest, literal);
      assert all[0] == CellRead(t, xs[0], byName, given, literal).value;
      CellTyped(t, xs[0], byName, given, literal);
      assert forall i | 1 <= i < |all| :: all[i] == all[1..][i - 1];
    }
  }

  lemma CellTyped(t: TableDef, a: Assignment, byName: bool, given: seq<Option<bytes>>, literal: Literals)
    requires TypedLiterals(literal) && CellRead(t, a, byName, given, literal).Ok?
    requires Fits(Raw(CellRead(t, a, byName, given, literal).value.val))
    ensures var c := CellRead(t, a, byName, given, literal).value;
            c.idx < |t.columns| && Storable(c.val, t.columns[c.idx].colType)
  {
    hide OperandValue, Storable, Raw, TypedLiterals;
    var i := Target(t, a.id, byName).value;
    OperandTyped(a.value, t.columns[i].colType, given, literal);
  }

  /** An equality compares with a value of its column's type. */
  predicate TypedFilter(t: TableDef, f: Filter) {
    f.Eq? ==> exists i :: 0 <= i < |t.columns| && t.columns[i].name == f.name && Storable(f.val, t.columns[i].colType)
  }

  lemma RelationTyped(t: TableDef, rel: Relation, given: seq<Option<bytes>>, literal: Literals)
    requires TypedLiterals(literal) && RelationFilter(t, rel, given, literal).Ok?
    ensures TypedFilter(t, RelationFilter(t, rel, given, literal).value)
  {
    hide Storable, Raw, TypedLiterals, ItemValues;
    var f := RelationFilter(t, rel, given, literal).value;
    if f.Eq? {
      var i := FindColumn(t.columns, rel.obj.id).value;
      var ct := t.columns[i].colType;
      assert Storable(f.val, ct) by {
        ItemTyped(rel.value, ct, given, literal);
        NullStorable(ct);
      }
    }
  }

  lemma NullStorable(ct: ColumnType)
    ensures Storable(Null, ct)
  {
  }

  lemma ItemTyped(v: Operand, ct: ColumnType, given: seq<Option<bytes>>, literal: Literals)
    requires TypedLiterals(literal)
    ensures ItemValue(v, ct, given, literal).Ok? ==> Storable(ItemValue(v, ct, given, literal).value, ct)
  {
    hide Bound;
    if v.Param? && given != [] {
      BoundTyped(given[0], ct);
    }
  }

  lemma {:induction false} FiltersTyped(t: TableDef, where: seq<Relation>, given: seq<Option<bytes>>, literal: Literals)
    requires TypedLiterals(literal) && FiltersRead(t, where, given, literal).Ok?
    ensures var fs := FiltersRead(t, where, given, literal).value;
            forall i | 0 <= i < |fs| :: TypedFilter(t, fs[i])
    decreases |where|
  {
    hide RelationFilter, TypedFilter, TypedLiterals, RelationAsks;
    if where != [] {
      RelationTyped(t, where[0], given, literal);
      FiltersTyped(t, where[1..], given[|RelationAsks(t, where[0]).types|..], literal);
    }
  }

  /* ---------- Bound statements are proper ---------- */

  lemma {:induction false} FilterKeyTyped(t: TableDef, filters: seq<Filter>, names: seq<bytes>, i: nat)
    requires FilterKey(filters, names).Ok? && i < |names|
    ensures |FilterKey(filters, names).value| == |names|
    ensures Eq(names[i], FilterKey(filters, names).value[i]) in filters && !FilterKey(filters, names).value[i].Null?
    decreases |names|
  {
    hide FirstEq;
    FirstEqIsFilter(filters, names[0]);
    if names[1..] != [] {
      FilterKeyTyped(t, filters, names[1..], if i > 0 then i - 1 else 0);
    }
  }

  lemma KeyFilterTyped(t: TableDef, f: Filter, i: nat)
    requires ValidTable(t) && i < |KeyNames(t)| && f.Eq? && f.name == KeyNames(t)[i] && TypedFilter(t, f)
    ensures !f.val.Null? ==> WellTyped(f.val, KeyType(t, i))
  {
    hide WellTyped, Position;
    var c :| 0 <= c < |t.columns| && t.columns[c].name == f.name && Storable(f.val, t.columns[c].colType);
    assert c == Idx(t, KeyNames(t)[i]);
  }

  /** The key of a bound UPDATE or DELETE holds values of the key columns' types. */
  lemma FilterKeyWords(t: TableDef, filters: seq<Filter>)
    requires ValidTable(t) && FilterKey(filters, KeyNames(t)).Ok?
    requires forall i | 0 <= i < |filters| :: TypedFilter(t, filters[i])
    requires ShortParts(RawAll(FilterKey(filters, KeyNames(t)).value))
    ensures KeyWords(t, FilterKey(filters, KeyNames(t)).value)
  {
    hide FilterKey, WellTyped, Raw, TypedFilter, ValidTable;
    var ws := FilterKey(filters, KeyNames(t)).value;
    HasKey(t);
    FilterKeyTyped(t, filters, KeyNames(t), 0);
    forall i | 0 <= i < |ws|
      ensures WellTyped(ws[i], KeyType(t, i))
    {
      FilterKeyTyped(t, filters, KeyNames(t), i);
      var j :| 0 <= j < |filters| && filters[j] == Eq(KeyNames(t)[i], ws[i]);
      KeyFilterTyped(t, filters[j], i);
    }
  }

  lemma {:induction false} InsertKeyTyped(t: TableDef, cells: seq<Cell>, names: seq<bytes>, i: nat)
    requires (forall j | 0 <= j < |names| :: Known(t, names[j])) && InsertKey(t, cells, names).Ok? && i < |names|
    ensures |InsertKey(t, cells, names).value| == |names| && Known(t, names[i])
    ensures var w := InsertKey(t, cells, names).value[i];
            Latest(cells, Idx(t, names[i])) == Some(w) && !w.Null?
    decreases |names|
  {
    hide Latest;
    if names[1..] != [] {
      InsertKeyTyped(t, cells, names[1..], if i > 0 then i - 1 else 0);
    }
  }

  /** So does the key of a bound INSERT. */
  lemma InsertKeyWords(t: TableDef, cells: seq<Cell>)
    requires ValidTable(t) && TypedCells(t, cells) && InsertKey(t, cells, KeyNames(t)).Ok?
    requires ShortParts(RawAll(InsertKey(t, cells, KeyNames(t)).value))
    ensures KeyWords(t, InsertKey(t, cells, KeyNames(t)).value)
  {
    hide InsertKey, WellTyped, Raw, Latest, TypedCells;
    var ws := InsertKey(t, cells, KeyNames(t)).value;
    HasKey(t);
    InsertKeyTyped(t, cells, KeyNames(t), 0);
    forall i | 0 <= i < |ws|
      ensures WellTyped(ws[i], KeyType(t, i))
    {
      InsertKeyTyped(t, cells, KeyNames(t), i);
      LatestTyped(t, cells, Idx(t, KeyNames(t)[i]));
    }
  }

  /** Statements read from typed literals and bound values are proper, as far as sizes allow:
      encoded values shorter than 2^31 bytes and key parts shorter than 2^16. */
  lemma BoundStatementsAreProper(
      t: TableDef, xs: seq<Assignment>, byName: bool, where: seq<Relation>,
      given: seq<Option<bytes>>, later: seq<Option<bytes>>, literal: Literals)
    requires ValidTable(t) && TypedLiterals(literal)
    requires CellsRead(t, xs, byName, given, literal).Ok?
    requires FittingCells(CellsRead(t, xs, byName, given, literal).value)
    requires FiltersRead(t, where, later, literal).Ok?
    ensures var cells := CellsRead(t, xs, byName, given, literal).value;
            var filters := FiltersRead(t, where, later, literal).value;
            && (ShortKey(t, InsertInto(cells)) ==> ProperStatement(t, InsertInto(cells)))
            && (ShortKey(t, UpdateSet(cells, filters)) ==> ProperStatement(t, UpdateSet(cells, filters)))
            && (ShortKey(t, DeleteFrom(filters)) ==> ProperStatement(t, DeleteFrom(filters)))
  {
    hide CellsRead, FiltersRead, TypedCells, InsertKey, FilterKey;
    hide KeyWords, TypedFilter, RawAll, ShortParts, ValidTable;
    var cells, filters := CellsRead(t, xs, byName, given, literal).value, FiltersRead(t, where, later, literal).value;
    KnownKeys(t);
    CellsTyped(t, xs, byName, given, literal);
    FiltersTyped(t, where, later, literal);
    if InsertKey(t, cells, KeyNames(t)).Ok? && ShortKey(t, InsertInto(cells)) {
      InsertKeyWords(t, cells);
    }
    if FilterKey(filters, KeyNames(t)).Ok? && ShortKey(t, DeleteFrom(filters)) {
      FilterKeyWords(t, filters);
    }
  }

  /** The parts of the key a statement addresses, if any, are shorter than 2^16 bytes. */
  predicate ShortKey(t: TableDef, st: Statement)
    requires ValidTable(t) && !st.TruncateTable?
  {
    KeyOf(t, st).Ok? ==> ShortParts(RawAll(KeyOf(t, st).value))
  }
}
