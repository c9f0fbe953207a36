/** What a bound statement says (src/query.rs), stated from the clauses, the values given and
    the literals alone: one filter per relation, one cell per assignment, each holding the
    literal's value or the given value whose position is the number of markers before it. */
module Reading {
  import opened Bytes
  import opened Values
  import opened RowCodec
  import opened SelectPlans
  import opened Binds
  import opened Bindings

  /* ---------- Markers ---------- */

  function One(o: Operand): nat {
    if o.Param? then 1 else 0
  }

  /** How many of the first `k` items are markers. */
  function ParamsBefore(items: seq<Operand>, k: nat): nat
    requires k <= |items|
  {
    if k == 0 then 0 else ParamsBefore(items, k - 1) + One(items[k - 1])
  }

  /** How many values an operand takes. */
  function MarkersIn(v: Operand): nat {
    match v case Param => 1 case Tuple(items) => ParamsBefore(items, |items|) case _ => 0
  }

  /** How many values the first `k` relations take. */
  function MarkersBefore(where: seq<Relation>, k: nat): nat
    requires k <= |where|
  {
    if k == 0 then 0 else MarkersBefore(where, k - 1) + MarkersIn(where[k - 1].value)
  }

  /** How many values the first `k` assignments take. */
  function MarkersAmong(xs: seq<Assignment>, k: nat): nat
    requires k <= |xs|
  {
    if k == 0 then 0 else MarkersAmong(xs, k - 1) + One(xs[k - 1].value)
  }

  /* ---------- What each clause says ---------- */

  /** A value given for a marker, at the column's type. */
  predicate Gives(given: Option<bytes>, ct: ColumnType, v: Value) {
    match given case None => v == Null case Some(raw) => FromRaw(raw, ct) == Ok(v)
  }

  predicate TextsSay(texts: seq<bytes>, ct: ColumnType, literal: Literals, vs: seq<Value>) {
    |vs| == |texts| && forall i | 0 <= i < |vs| :: literal(texts[i], ct) == Some(vs[i])
  }

  predicate PairsSay(texts: seq<(bytes, bytes)>, k: ColumnType, w: ColumnType, literal: Literals, es: seq<Entry>) {
    && |es| == |texts|
    && forall i | 0 <= i < |es| ::
         literal(texts[i].0, k) == Some(es[i].key) && literal(texts[i].1, w) == Some(es[i].val)
  }

  /** The operand, with its marker at position `at`, stands for `v` in a column of type `ct`. */
  predicate Says(o: Operand, ct: ColumnType, given: seq<Option<bytes>>, at: nat, literal: Literals, v: Value) {
    match o
    case NullLit => v == Null
    case Const(text) => literal(text, ct) == Some(v)
    case Param => at < |given| && Gives(given[at], ct, v)
    case SetLit(texts) => ct.TSet? && v.Set? && TextsSay(texts, ct.elem, literal, v.elems)
    case ListLit(texts) => ct.TList? && v.List? && TextsSay(texts, ct.elem, literal, v.elems)
    case MapLit(texts) => ct.TMap? && v.Map? && PairsSay(texts, ct.key, ct.val, literal, v.entries)
    case _ => false
  }

  /** Column `c` is the first the identifier matches: ignoring case unless it is quoted. */
  predicate Resolves(cols: seq<ColumnDef>, id: Ident, c: nat) {
    c < |cols| && IdentEq(id, cols[c].name) && forall d | 0 <= d < c :: !IdentEq(id, cols[d].name)
  }

  /** Column `c` is the first of that name, lower-cased unless it is quoted. */
  predicate Named(cols: seq<ColumnDef>, id: Ident, c: nat) {
    c < |cols| && cols[c].name == NormId(id) && forall d | 0 <= d < c :: cols[d].name != NormId(id)
  }

  predicate ItemsSay(items: seq<Operand>, ct: ColumnType, given: seq<Option<bytes>>, at: nat, literal: Literals,
      vs: seq<Value>)
  {
    && |vs| == |items|
    && forall i | 0 <= i < |items| :: ItemAt(items, ct, given, at, literal, vs, i)
  }

  predicate ItemAt(items: seq<Operand>, ct: ColumnType, given: seq<Option<bytes>>, at: nat, literal: Literals,
      vs: seq<Value>, i: nat)
    requires i < |items| == |vs|
  {
    ItemSays(items[i], ct, given, at + ParamsBefore(items, i), literal, vs[i])
  }

  /** In a list only literals and markers are read. */
  predicate ItemSays(o: Operand, ct: ColumnType, given: seq<Option<bytes>>, at: nat, literal: Literals, v: Value) {
    (o.Const? || o.Param?) && Says(o, ct, given, at, literal, v)
  }

  /** The relation, its markers from position `at` on, says filter `f`: an equality for `=`, a
      list for `IN`, on the column it resolves to. */
  ghost predicate RelationSays(t: TableDef, rel: Relation, given: seq<Option<bytes>>, at: nat, literal: Literals,
      f: Filter)
  {
    rel.obj.ColumnRef? && exists c: nat ::
      && Resolves(t.columns, rel.obj.id, c) && f.name == t.columns[c].name
      && var ct := t.columns[c].colType;
         match rel.oper
         case Equal =>
           f.Eq? && (rel.value.NullLit? || rel.value.Const? || rel.value.Param?)
           && Says(rel.value, ct, given, at, literal, f.val)
         case IsIn =>
           f.In? &&
           (if rel.value.Tuple? then ItemsSay(rel.value.items, ct, given, at, literal, f.vals)
            else |f.vals| == 1 && ItemSays(rel.value, ct, given, at, literal, f.vals[0]))
         case Unsupported => false
  }

  ghost predicate WhereSays(t: TableDef, where: seq<Relation>, given: seq<Option<bytes>>, at: nat, literal: Literals,
      fs: seq<Filter>)
  {
    && |fs| == |where|
    && forall k | 0 <= k < |where| :: RelationAt(t, where, given, at, literal, fs, k)
  }

  ghost predicate RelationAt(t: TableDef, where: seq<Relation>, given: seq<Option<bytes>>, at: nat, literal: Literals,
      fs: seq<Filter>, k: nat)
    requires k < |where| == |fs|
  {
    RelationSays(t, where[k], given, at + MarkersBefore(where, k), literal, fs[k])
  }

  predicate AssignmentSays(t: TableDef, a: Assignment, byName: bool, given: seq<Option<bytes>>, at: nat,
      literal: Literals, c: Cell)
  {
    && !a.relative
    && (if byName then Named(t.columns, a.id, c.idx) else Resolves(t.columns, a.id, c.idx))
    && Says(a.value, t.columns[c.idx].colType, given, at, literal, c.val)
  }

  predicate AssignmentsSay(t: TableDef, xs: seq<Assignment>, byName: bool, given: seq<Option<bytes>>, at: nat,
      literal: Literals, cells: seq<Cell>)
  {
    && |cells| == |xs|
    && forall k | 0 <= k < |xs| :: AssignmentAt(t, xs, byName, given, at, literal, cells, k)
  }

  predicate AssignmentAt(t: TableDef, xs: seq<Assignment>, byName: bool, given: seq<Option<bytes>>, at: nat,
      literal: Literals, cells: seq<Cell>, k: nat)
    requires k < |xs| == |cells|
  {
    AssignmentSays(t, xs[k], byName, given, at + MarkersAmong(xs, k), literal, cells[k])
  }

  /* ---------- Operands ---------- */

  lemma {:induction false} TextsExactly(texts: seq<bytes>, ct: ColumnType, literal: Literals, vs: seq<Value>)
    ensures Texts(texts, ct, literal) == Ok(vs) <==> TextsSay(texts, ct, literal, vs)
    decreases |texts|
  {
    if texts != [] && vs != [] {
      TextsExactly(texts[1..], ct, literal, vs[1..]);
      assert vs == [vs[0]] + vs[1..];
      assert forall i | 1 <= i < |texts| :: texts[i] == texts[1..][i - 1];
      assert forall i | 1 <= i < |vs| :: vs[i] == vs[1..][i - 1];
    }
  }

  lemma {:induction false} PairsExactly(
      texts: seq<(bytes, bytes)>, k: ColumnType, w: ColumnType, literal: Literals, es: seq<Entry>)
    ensures TextPairs(texts, k, w, literal) == Ok(es) <==> PairsSay(texts, k, w, literal, es)
    decreases |texts|
  {
    if texts != [] && es != [] {
      PairsExactly(texts[1..], k, w, literal, es[1..]);
      assert es == [es[0]] + es[1..];
      assert forall i | 1 <= i < |texts| :: texts[i] == texts[1..][i - 1];
      assert forall i | 1 <= i < |es| :: es[i] == es[1..][i - 1];
    }
  }

  lemma {:induction false} OperandExactly(
      o: Operand, ct: ColumnType, given: seq<Option<bytes>>, at: nat, literal: Literals, v: Value)
    requires at <= |given|
    ensures OperandValue(o, ct, given[at..], literal) == Ok(v) <==> Says(o, ct, given, at, literal, v)
  {
    hide Texts, TextPairs, TextsSay, PairsSay, FromRaw;
    match o
    case SetLit(texts) => if ct.TSet? && v.Set? { TextsExactly(texts, ct.elem, literal, v.elems); }
    case ListLit(texts) => if ct.TList? && v.List? { TextsExactly(texts, ct.elem, literal, v.elems); }
    case MapLit(texts) => if ct.TMap? && v.Map? { PairsExactly(texts, ct.key, ct.val, literal, v.entries); }
    case _ =>
  }

  lemma {:induction false} ItemsExactly(
      items: seq<Operand>, ct: ColumnType, given: seq<Option<bytes>>, at: nat, literal: Literals, vs: seq<Value>)
    requires at <= |given|
    ensures ItemValues(items, ct, given[at..], literal) == Ok(vs) <==> ItemsSay(items, ct, given, at, literal, vs)
    decreases |items|
  {
    hide OperandValue, Says;
    if items != [] && vs != [] {
      var o, n := items[0], One(items[0]);
      OperandExactly(o, ct, given, at, literal, vs[0]);
      ItemsShift(items, ct, given, at, literal, vs);
      if ItemValue(o, ct, given[at..], literal) == Ok(vs[0]) {
        assert |ItemAsks(o, ct).types| == n && given[at..][n..] == given[at + n..];
        ItemsExactly(items[1..], ct, given, at + n, literal, vs[1..]);
        assert vs == [vs[0]] + vs[1..];
      }
    }
  }

  lemma {:induction false} ParamsShift(items: seq<Operand>, k: nat)
    requires items != [] && k < |items|
    ensures ParamsBefore(items, k + 1) == One(items[0]) + ParamsBefore(items[1..], k)
  {
    if k > 0 {
      ParamsShift(items, k - 1);
    }
  }

  /** The items after the first, their markers counted on. */
  lemma {:induction false} ItemsShift(
      items: seq<Operand>, ct: ColumnType, given: seq<Option<bytes>>, at: nat, literal: Literals, vs: seq<Value>)
    requires items != [] && vs != []
    ensures var n := One(items[0]);
            ItemsSay(items, ct, given, at, literal, vs) <==>
              && ItemSays(items[0], ct, given, at, literal, vs[0])
              && ItemsSay(items[1..], ct, given, at + n, literal, vs[1..])
  {
    hide ItemAt, One;
    var n := One(items[0]);
    if |vs| == |items| {
      var rest, tail, from := items[1..], vs[1..], at + n;
      forall k | 0 <= k < |items|
        ensures k == 0 ==>
                  (ItemAt(items, ct, given, at, literal, vs, k)
                   <==> ItemSays(items[0], ct, given, at, literal, vs[0]))
        ensures k > 0 ==>
                  (ItemAt(items, ct, given, at, literal, vs, k)
                   <==> ItemAt(rest, ct, given, from, literal, tail, k - 1))
      {
        ItemAtShift(items, ct, given, at, literal, vs, k);
      }
      hide ItemSays;
      if ItemsSay(items, ct, given, at, literal, vs) {
        assert ItemAt(items, ct, given, at, literal, vs, 0);
        forall k | 0 <= k < |rest|
          ensures ItemAt(rest, ct, given, from, literal, tail, k)
        {
          assert ItemAt(items, ct, given, at, literal, vs, k + 1);
        }
      }
    }
  }

  lemma {:induction false} ItemAtShift(
      items: seq<Operand>, ct: ColumnType, given: seq<Option<bytes>>, at: nat, literal: Literals,
      vs: seq<Value>, k: nat)
    requires k < |items| == |vs|
    ensures k == 0 ==>
              (ItemAt(items, ct, given, at, literal, vs, k)
               <==> ItemSays(items[0], ct, given, at, literal, vs[0]))
    ensures k > 0 ==>
              (ItemAt(items, ct, given, at, literal, vs, k)
               <==> ItemAt(items[1..], ct, given, at + One(items[0]), literal, vs[1..], k - 1))
  {
    hide ItemSays, One, ParamsBefore;
    FirstParams(items);
    if k > 0 {
      ParamsShift(items, k - 1);
      assert items[1..][k - 1] == items[k] && vs[1..][k - 1] == vs[k];
    }
  }

  lemma FirstParams(items: seq<Operand>)
    ensures ParamsBefore(items, 0) == 0
  {
  }

  /* ---------- Columns ---------- */

  lemma {:induction false} ResolvesExactly(cols: seq<ColumnDef>, id: Ident, c: nat)
    ensures FindColumn(cols, id) == Some(c) <==> Resolves(cols, id, c)
    decreases |cols|
  {
    hide IdentEq;
    if cols != [] {
      if c > 0 {
        ResolvesExactly(cols[1..], id, c - 1);
        assert forall d | 1 <= d < |cols| :: cols[d] == cols[1..][d - 1];
      }
      if Resolves(cols, id, c) && c > 0 {
        assert !IdentEq(id, cols[0].name);
      }
    }
  }

  lemma {:induction false} NamedExactly(cols: seq<ColumnDef>, id: Ident, c: nat)
    ensures Position(cols, NormId(id)) == Some(c) <==> Named(cols, id, c)
    decreases |cols|
  {
    hide NormId;
    if cols != [] {
      if c > 0 {
        NamedExactly(cols[1..], id, c - 1);
        assert forall d | 1 <= d < |cols| :: cols[d] == cols[1..][d - 1];
      }
      if Named(cols, id, c) && c > 0 {
        assert cols[0].name != NormId(id);
      }
    }
  }

  /* ---------- Relations and assignments ---------- */

  lemma {:induction false} RelationExactly(
      t: TableDef, rel: Relation, given: seq<Option<bytes>>, at: nat, literal: Literals, f: Filter)
    requires at <= |given|
    ensures RelationFilter(t, rel, given[at..], literal) == Ok(f) <==> RelationSays(t, rel, given, at, literal, f)
  {
    hide FindColumn, OperandValue, Says, ItemValues, ItemsSay, Resolves;
    if rel.obj.ColumnRef? {
      forall c: nat
        ensures FindColumn(t.columns, rel.obj.id) == Some(c) <==> Resolves(t.columns, rel.obj.id, c)
      {
        ResolvesExactly(t.columns, rel.obj.id, c);
      }
      match FindColumn(t.columns, rel.obj.id)
      case None =>
      case Some(c) =>
        var ct := t.columns[c].colType;
        if f.Eq? {
          OperandExactly(rel.value, ct, given, at, literal, f.val);
          NullIsNull(ct, given, at, literal, f.val);
        } else if rel.value.Tuple? {
          ItemsExactly(rel.value.items, ct, given, at, literal, f.vals);
        } else if |f.vals| == 1 {
          OperandExactly(rel.value, ct, given, at, literal, f.vals[0]);
          assert f.vals == [f.vals[0]];
        }
    }
  }

  lemma NullIsNull(ct: ColumnType, given: seq<Option<bytes>>, at: nat, literal: Literals, v: Value)
    ensures Says(NullLit, ct, given, at, literal, v) <==> v == Null
  {
  }

  lemma {:induction false} AsksMarkers(t: TableDef, rel: Relation)
    requires RelationAsks(t, rel).complete
    ensures |RelationAsks(t, rel).types| == MarkersIn(rel.value)
  {
    hide FindColumn;
    match FindColumn(t.columns, rel.obj.id)
    case None =>
    case Some(i) =>
      if rel.value.Tuple? {
        ItemsAskMarkers(rel.value.items, t.columns[i].colType);
      }
  }

  lemma {:induction false} ItemsAskMarkers(items: seq<Operand>, ct: ColumnType)
    requires ItemsAsk(items, ct).complete
    ensures |ItemsAsk(items, ct).types| == ParamsBefore(items, |items|)
    decreases |items|
  {
    if items != [] {
      ItemsAskMarkers(items[1..], ct);
      ParamsShift(items, |items| - 1);
    }
  }

  lemma {:induction false} MarkersShift(where: seq<Relation>, k: nat)
    requires where != [] && k < |where|
    ensures MarkersBefore(where, k + 1) == MarkersIn(where[0].value) + MarkersBefore(where[1..], k)
  {
    if k > 0 {
      MarkersShift(where, k - 1);
    }
  }

  lemma {:induction false} WhereShift(
      t: TableDef, where: seq<Relation>, given: seq<Option<bytes>>, at: nat, literal: Literals,
      fs: seq<Filter>)
    requires where != [] && fs != []
    ensures WhereSays(t, where, given, at, literal, fs) <==>
              && RelationSays(t, where[0], given, at, literal, fs[0])
              && WhereSays(t, where[1..], given, at + MarkersIn(where[0].value), literal, fs[1..])
  {
    hide RelationAt, MarkersIn;
    var n := MarkersIn(where[0].value);
    if |fs| == |where| {
      var rest, tail, from := where[1..], fs[1..], at + n;
      forall k | 0 <= k < |where|
        ensures k == 0 ==>
                  (RelationAt(t, where, given, at, literal, fs, k)
                   <==> RelationSays(t, where[0], given, at, literal, fs[0]))
        ensures k > 0 ==>
                  (RelationAt(t, where, given, at, literal, fs, k)
                   <==> RelationAt(t, rest, given, from, literal, tail, k - 1))
      {
        RelationAtShift(t, where, given, at, literal, fs, k);
      }
      hide RelationSays;
      if WhereSays(t, where, given, at, literal, fs) {
        assert RelationAt(t, where, given, at, literal, fs, 0);
        forall k | 0 <= k < |rest|
          ensures RelationAt(t, rest, given, from, literal, tail, k)
        {
          assert RelationAt(t, where, given, at, literal, fs, k + 1);
        }
      }
    }
  }

  lemma {:induction false} RelationAtShift(
      t: TableDef, where: seq<Relation>, given: seq<Option<bytes>>, at: nat, literal: Literals,
      fs: seq<Filter>, k: nat)
    requires k < |where| == |fs|
    ensures k == 0 ==>
              (RelationAt(t, where, given, at, literal, fs, k)
               <==> RelationSays(t, where[0], given, at, literal, fs[0]))
    ensures k > 0 ==>
              (RelationAt(t, where, given, at, literal, fs, k)
               <==> RelationAt(t, where[1..], given, at + MarkersIn(where[0].value), literal, fs[1..], k - 1))
  {
    hide RelationSays, MarkersIn, MarkersBefore;
    FirstMarkers(where);
    if k > 0 {
      MarkersShift(where, k - 1);
      assert where[1..][k - 1] == where[k] && fs[1..][k - 1] == fs[k];
    }
  }

  lemma FirstMarkers(where: seq<Relation>)
    ensures MarkersBefore(where, 0) == 0
  {
  }

  /** The filters a WHERE clause is read as are exactly those it says. */
  lemma {:induction false} WhereExactly(
      t: TableDef, where: seq<Relation>, given: seq<Option<bytes>>, at: nat, literal: Literals, fs: seq<Filter>)
    requires at <= |given|
    ensures FiltersRead(t, where, given[at..], literal) == Ok(fs) <==> WhereSays(t, where, given, at, literal, fs)
    decreases |where|
  {
    hide RelationFilter, RelationSays, RelationAsks, MarkersIn;
    if where != [] && fs != [] {
      RelationExactly(t, where[0], given, at, literal, fs[0]);
      WhereShift(t, where, given, at, literal, fs);
      if RelationFilter(t, where[0], given[at..], literal) == Ok(fs[0]) {
        var n := |RelationAsks(t, where[0]).types|;
        AsksMarkers(t, where[0]);
        assert given[at..][n..] == given[at + n..];
        WhereExactly(t, where[1..], given, at + n, literal, fs[1..]);
        assert fs == [fs[0]] + fs[1..];
      }
    }
  }

  lemma {:induction false} AssignmentExactly(
      t: TableDef, a: Assignment, byName: bool, given: seq<Option<bytes>>, at: nat, literal: Literals, c: Cell)
    requires at <= |given|
    ensures CellRead(t, a, byName, given[at..], literal) == Ok(c)
            <==> AssignmentSays(t, a, byName, given, at, literal, c)
    ensures AssignmentAsks(t, a, byName).complete ==>
              |AssignmentAsks(t, a, byName).types| == One(a.value)
  {
    hide FindColumn, Position, OperandValue, Says, Resolves, Named;
    if byName {
      NamedExactly(t.columns, a.id, c.idx);
    } else {
      ResolvesExactly(t.columns, a.id, c.idx);
    }
    if Target(t, a.id, byName) == Some(c.idx) {
      OperandExactly(a.value, t.columns[c.idx].colType, given, at, literal, c.val);
    }
  }

  lemma {:induction false} AmongShift(xs: seq<Assignment>, k: nat)
    requires xs != [] && k < |xs|
    ensures MarkersAmong(xs, k + 1) == One(xs[0].value) + MarkersAmong(xs[1..], k)
  {
    if k > 0 {
      AmongShift(xs, k - 1);
    }
  }

  lemma {:induction false} AssignmentsShift(
      t: TableDef, xs: seq<Assignment>, byName: bool, given: seq<Option<bytes>>, at: nat, literal: Literals,
      cells: seq<Cell>)
    requires xs != [] && cells != []
    ensures var n := One(xs[0].value);
            AssignmentsSay(t, xs, byName, given, at, literal, cells) <==>
              && AssignmentSays(t, xs[0], byName, given, at, literal, cells[0])
              && AssignmentsSay(t, xs[1..], byName, given, at + n, literal, cells[1..])
  {
    hide AssignmentAt, One;
    var n := One(xs[0].value);
    if |cells| == |xs| {
      var rest, tail, from := xs[1..], cells[1..], at + n;
      forall k | 0 <= k < |xs|
        ensures k == 0 ==>
                  (AssignmentAt(t, xs, byName, given, at, literal, cells, k)
                   <==> AssignmentSays(t, xs[0], byName, given, at, literal, cells[0]))
        ensures k > 0 ==>
                  (AssignmentAt(t, xs, byName, given, at, literal, cells, k)
                   <==> AssignmentAt(t, rest, byName, given, from, literal, tail, k - 1))
      {
        AssignmentAtShift(t, xs, byName, given, at, literal, cells, k);
      }
      hide AssignmentSays;
      if AssignmentsSay(t, xs, byName, given, at, literal, cells) {
        assert AssignmentAt(t, xs, byName, given, at, literal, cells, 0);
        forall k | 0 <= k < |rest|
          ensures AssignmentAt(t, rest, byName, given, from, literal, tail, k)
        {
          assert AssignmentAt(t, xs, byName, given, at, literal, cells, k + 1);
        }
      }
    }
  }

  lemma {:induction false} AssignmentAtShift(
      t: TableDef, xs: seq<Assignment>, byName: bool, given: seq<Option<bytes>>, at: nat,
      literal: Literals, cells: seq<Cell>, k: nat)
    requires k < |xs| == |cells|
    ensures k == 0 ==>
              (AssignmentAt(t, xs, byName, given, at, literal, cells, k)
               <==> AssignmentSays(t, xs[0], byName, given, at, literal, cells[0]))
    ensures k > 0 ==>
              (AssignmentAt(t, xs, byName, given, at, literal, cells, k)
               <==> AssignmentAt(t, xs[1..], byName, given, at + One(xs[0].value), literal, cells[1..], k - 1))
  {
    hide AssignmentSays, One, MarkersAmong;
    FirstAmong(xs);
    if k > 0 {
      AmongShift(xs, k - 1);
      assert xs[1..][k - 1] == xs[k] && cells[1..][k - 1] == cells[k];
    }
  }

  lemma FirstAmong(xs: seq<Assignment>)
    ensures MarkersAmong(xs, 0) == 0
  {
  }

  /** The cells assignments are read as are exactly those they say. */
  lemma {:induction false} AssignmentsExactly(
      t: TableDef, xs: seq<Assignment>, byName: bool, given: seq<Option<bytes>>, at: nat, literal: Literals,
      cells: seq<Cell>)
    requires at <= |given|
    ensures CellsRead(t, xs, byName, given[at..], literal) == Ok(cells)
            <==> AssignmentsSay(t, xs, byName, given, at, literal, cells)
    decreases |xs|
  {
    hide CellRead, AssignmentSays, AssignmentAsks;
    if xs != [] && cells != [] {
      AssignmentExactly(t, xs[0], byName, given, at, literal, cells[0]);
      AssignmentsShift(t, xs, byName, given, at, literal, cells);
      if CellRead(t, xs[0], byName, given[at..], literal) == Ok(cells[0]) {
        var n := |AssignmentAsks(t, xs[0], byName).types|;
        assert given[at..][n..] == given[at + n..];
        AssignmentsExactly(t, xs[1..], byName, given, at + n, literal, cells[1..]);
        assert cells == [cells[0]] + cells[1..];
      }
    }
  }

  lemma {:induction false} AsksAmong(t: TableDef, xs: seq<Assignment>, byName: bool)
    requires AssignmentsAsk(t, xs, byName).complete
    ensures |AssignmentsAsk(t, xs, byName).types| == MarkersAmong(xs, |xs|)
    decreases |xs|
  {
    hide AssignmentAsks;
    if xs != [] {
      AsksAmong(t, xs[1..], byName);
      AssignmentExactly(t, xs[0], byName, [], 0, (_, _) => None, Cell(0, Null));
      AmongShift(xs, |xs| - 1);
    }
  }
}
