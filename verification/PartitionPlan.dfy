/** The partition-product scan (src/query.rs): how often it visits a row, and the exact
    condition under which it answers like the full scan. */
module PartitionPlan {
  import opened Bytes
  import opened Counting
  import opened Values
  import opened Equality
  import opened Keys
  import opened Pipeline
  import opened Scan
  import opened Sharding
  import opened RowCodec
  import opened Projection
  import opened SelectPlans
  import opened PlanEquivalence

  /* ---------- The partition product ---------- */

  lemma {:induction false} ExtendMembers(combos: seq<seq<bytes>>, values: seq<bytes>, c: seq<bytes>)
    ensures c in Extend(combos, values) <==> c != [] && c[..|c| - 1] in combos && c[|c| - 1] in values
    decreases |combos|
  {
    if combos != [] {
      ExtendMembers(combos[1..], values, c);
      var first := seq(|values|, i requires 0 <= i < |values| => combos[0] + [values[i]]);
      if c != [] && c[..|c| - 1] == combos[0] && c[|c| - 1] in values {
        var i :| 0 <= i < |values| && values[i] == c[|c| - 1];
        assert first[i] == c;
      }
      if c in first {
        var i :| 0 <= i < |first| && first[i] == c;
        assert c == combos[0] + [values[i]];
        assert c[..|c| - 1] == combos[0];
      }
    }
  }

  /** From position `n` on, `c` takes each column's part from that column's list. */
  predicate TakesFrom(filters: seq<Filter>, names: seq<bytes>, n: nat, c: seq<bytes>)
    requires |c| == n + |names|
  {
    forall i | 0 <= i < |names| :: c[n + i] in RawAll(Listed(filters, names[i]))
  }

  lemma TakesFromCons(filters: seq<Filter>, names: seq<bytes>, n: nat, c: seq<bytes>)
    requires |c| == n + |names| && names != []
    ensures TakesFrom(filters, names, n, c) <==>
            c[n] in RawAll(Listed(filters, names[0])) && TakesFrom(filters, names[1..], n + 1, c)
  {
    hide RawAll, Listed;
    if TakesFrom(filters, names[1..], n + 1, c) && c[n] in RawAll(Listed(filters, names[0])) {
      forall i | 0 <= i < |names|
        ensures c[n + i] in RawAll(Listed(filters, names[i]))
      {
        if i > 0 {
          assert names[1..][i - 1] == names[i] && c[n + 1 + (i - 1)] == c[n + i];
        }
      }
    }
    if TakesFrom(filters, names, n, c) {
      assert c[n + 0] in RawAll(Listed(filters, names[0]));
      forall i | 0 <= i < |names[1..]|
        ensures c[n + 1 + i] in RawAll(Listed(filters, names[1..][i]))
      {
        assert c[n + (i + 1)] in RawAll(Listed(filters, names[i + 1]));
      }
    }
  }

  /** The partitions are exactly the tuples that take each column's part from its list. */
  lemma {:induction false} ProductMembers(filters: seq<Filter>, names: seq<bytes>, combos: seq<seq<bytes>>, n: nat,
      c: seq<bytes>)
    requires forall x <- combos :: |x| == n
    ensures c in Product(filters, names, combos) <==>
            |c| == n + |names| && c[..n] in combos && TakesFrom(filters, names, n, c)
    decreases |names|
  {
    hide Extend, Listed, TakesFrom, RawAll;
    if names == [] {
      if |c| == n {
        assert c[..n] == c;
        TakesFromNone(filters, n, c);
      }
    } else {
      var values := RawAll(Listed(filters, names[0]));
      var next := Extend(combos, values);
      forall x <- next
        ensures |x| == n + 1
      {
        ExtendMembers(combos, values, x);
      }
      ProductMembers(filters, names[1..], next, n + 1, c);
      if |c| == n + |names| {
        ExtendMembers(combos, values, c[..n + 1]);
        assert c[..n + 1][..n] == c[..n] && c[..n + 1][n] == c[n];
        TakesFromCons(filters, names, n, c);
      }
    }
  }

  lemma TakesFromNone(filters: seq<Filter>, n: nat, c: seq<bytes>)
    requires |c| == n
    ensures TakesFrom(filters, [], n, c)
  {
  }

  lemma PartitionMembers(t: TableDef, filters: seq<Filter>, c: seq<bytes>)
    ensures c in Partitions(t, filters) <==>
            |c| == |t.partitionKeys| && TakesFrom(filters, t.partitionKeys, 0, c)
  {
    hide Product, TakesFrom;
    ProductMembers(filters, t.partitionKeys, [[]], 0, c);
    assert c[..0] == [];
  }

  lemma {:induction false} ListedMembers(filters: seq<Filter>, name: bytes, f: Filter, v: Value)
    requires f in filters && f.name == name && (if f.Eq? then v == f.val else v in f.vals)
    ensures v in Listed(filters, name)
    decreases |filters|
  {
    if filters[0] != f {
      ListedMembers(filters[1..], name, f, v);
    }
  }

  lemma {:induction false} ListedAppend(a: seq<Filter>, b: seq<Filter>, name: bytes)
    ensures Listed(a + b, name) == Listed(a, name) + Listed(b, name)
    decreases |a|
  {
    hide ListedBy;
    if a == [] {
      assert a + b == b && [] + Listed(b, name) == Listed(b, name);
    } else {
      assert (a + b)[0] == a[0] && (a + b)[1..] == a[1..] + b;
      ListedAppend(a[1..], b, name);
    }
  }

  /** The values listed for a column: those of its equalities and lists, in filter order. */
  lemma ListedExactly(before: seq<Filter>, f: Filter, name: bytes)
    ensures Listed([], name) == [] && Listed(before + [f], name) == Listed(before, name) + ListedBy(f, name)
  {
    ListedAppend(before, [f], name);
    ListedAlone(f, name);
  }

  lemma {:induction false} ListedAlone(f: Filter, name: bytes)
    ensures Listed([f], name) == ListedBy(f, name)
  {
    assert [f][1..] == [] && Listed([f][1..], name) == [];
    assert ListedBy(f, name) + [] == ListedBy(f, name);
  }

  lemma RawListed(vs: seq<Value>, v: Value)
    requires v in vs
    ensures Raw(v) in RawAll(vs)
  {
    hide Raw;
    var i :| 0 <= i < |vs| && vs[i] == v;
    assert RawAll(vs)[i] == Raw(v);
  }

  /* ---------- How often a row is visited ---------- */

  lemma {:induction false} ExtendTimes(combos: seq<seq<bytes>>, values: seq<bytes>, c: seq<bytes>)
    requires c != []
    ensures Times(Extend(combos, values), c) == Times(combos, c[..|c| - 1]) * Times(values, c[|c| - 1])
    decreases |combos|
  {
    if combos != [] {
      var first := seq(|values|, i requires 0 <= i < |values| => combos[0] + [values[i]]);
      ExtendTimes(combos[1..], values, c);
      TimesAppend(first, Extend(combos[1..], values), c);
      ExtendOneTimes(combos[0], values, c);
      Distribute(if combos[0] == c[..|c| - 1] then 1 else 0, Times(combos[1..], c[..|c| - 1]),
          Times(values, c[|c| - 1]));
    }
  }

  lemma Distribute(a: nat, b: nat, k: nat)
    ensures (a + b) * k == a * k + b * k
  {
  }

  lemma {:induction false} ExtendOneTimes(combo: seq<bytes>, values: seq<bytes>, c: seq<bytes>)
    requires c != []
    ensures Times(seq(|values|, i requires 0 <= i < |values| => combo + [values[i]]), c)
            == (if combo == c[..|c| - 1] then 1 else 0) * Times(values, c[|c| - 1])
    decreases |values|
  {
    var all := seq(|values|, i requires 0 <= i < |values| => combo + [values[i]]);
    if values != [] {
      var rest := values[1..];
      assert all[1..] == seq(|rest|, i requires 0 <= i < |rest| => combo + [rest[i]]);
      ExtendOneTimes(combo, rest, c);
      assert all[0] == c <==> combo == c[..|c| - 1] && values[0] == c[|c| - 1] by {
        assert c == c[..|c| - 1] + [c[|c| - 1]];
        assert all[0][..|combo|] == combo && all[0][|combo|] == values[0];
      }
    }
  }

  /** How often the product holds `c`, given that its first `n` parts are taken. */
  function Ways(filters: seq<Filter>, names: seq<bytes>, n: nat, c: seq<bytes>): nat
    requires |c| == n + |names|
    decreases |names|
  {
    if names == [] then 1
    else Times(RawAll(Listed(filters, names[0])), c[n]) * Ways(filters, names[1..], n + 1, c)
  }

  lemma {:induction false} ProductTimes(filters: seq<Filter>, names: seq<bytes>, combos: seq<seq<bytes>>, n: nat,
      c: seq<bytes>)
    requires |c| == n + |names|
    ensures Times(Product(filters, names, combos), c) == Times(combos, c[..n]) * Ways(filters, names, n, c)
    decreases |names|
  {
    hide Extend, Listed, RawAll, Times;
    if names == [] {
      assert c[..n] == c;
    } else {
      var values := RawAll(Listed(filters, names[0]));
      ProductTimes(filters, names[1..], Extend(combos, values), n + 1, c);
      ExtendTimes(combos, values, c[..n + 1]);
      assert c[..n + 1][..n] == c[..n] && c[..n + 1][n] == c[n];
      Reassociate(Times(combos, c[..n]), Times(values, c[n]), Ways(filters, names[1..], n + 1, c));
    }
  }

  lemma Reassociate(a: nat, b: nat, k: nat)
    ensures a * b * k == a * (b * k)
  {
  }

  /** The product holds every tuple once exactly when every list holds its part once. */
  lemma {:induction false} WaysOnce(filters: seq<Filter>, names: seq<bytes>, n: nat, c: seq<bytes>)
    requires |c| == n + |names|
    ensures Ways(filters, names, n, c) == 1 <==>
              forall i | 0 <= i < |names| :: Times(RawAll(Listed(filters, names[i])), c[n + i]) == 1
    decreases |names|
  {
    hide Listed, RawAll, Times;
    if names != [] {
      var first, rest := Times(RawAll(Listed(filters, names[0])), c[n]), Ways(filters, names[1..], n + 1, c);
      WaysOnce(filters, names[1..], n + 1, c);
      ProductIsOne(first, rest);
      assert forall i | 1 <= i < |names| :: names[i] == names[1..][i - 1] && c[n + i] == c[n + 1 + (i - 1)];
      assert c[n + 0] == c[n];
    }
  }

  lemma ProductIsOne(a: nat, b: nat)
    ensures a * b == 1 <==> a == 1 && b == 1
  {
    if a > 1 && b > 0 {
      assert a * b >= a;
    }
  }

  lemma PartitionTimes(t: TableDef, filters: seq<Filter>, c: seq<bytes>)
    requires |c| == |t.partitionKeys|
    ensures Times(Partitions(t, filters), c) == Ways(filters, t.partitionKeys, 0, c)
  {
    hide Product, Ways;
    ProductTimes(filters, t.partitionKeys, [[]], 0, c);
    var none: seq<seq<bytes>> := [[]];
    assert c[..0] == [] && none[1..] == [] && Times(none, []) == 1;
  }

  /** Listed values fit a key part. */
  predicate ShortLists(filters: seq<Filter>, names: seq<bytes>) {
    forall i | 0 <= i < |names| :: forall v <- Listed(filters, names[i]) :: |Raw(v)| < 0x1_0000
  }

  predicate ShortPartitions(t: TableDef, ps: seq<seq<bytes>>) {
    forall i | 0 <= i < |ps| :: |ps[i]| == |t.partitionKeys| && ShortParts(ps[i])
  }

  lemma PartitionsAreShort(t: TableDef, filters: seq<Filter>)
    requires ShortLists(filters, t.partitionKeys)
    ensures ShortPartitions(t, Partitions(t, filters))
  {
    hide Product, Listed, Partitions, Raw;
    var ps := Partitions(t, filters);
    forall j | 0 <= j < |ps|
      ensures |ps[j]| == |t.partitionKeys| && ShortParts(ps[j])
    {
      PartitionMembers(t, filters, ps[j]);
      forall i | 0 <= i < |ps[j]|
        ensures |ps[j][i]| < 0x1_0000
      {
        assert ps[j][0 + i] in RawAll(Listed(filters, t.partitionKeys[i]));
      }
    }
  }

  /** Scanning the partitions one after another visits a row of the table once for every time
      its partition is listed. */
  lemma {:induction false} GroupTimes(dbs: seq<Db>, t: TableDef, ps: seq<seq<bytes>>, r: Row, ws: seq<Value>)
    requires dbs != [] && ValidTable(t) && StoredTable(dbs, t) && ShortPartitions(t, ps)
    requires InTable(dbs, t, r) && StoredAs(t, r, ws) && |t.partitionKeys| <= |ws|
    ensures Times(Concat(PartitionGroups(dbs, t, ps)), r) == Times(ps, RawAll(ws)[..|t.partitionKeys|])
    decreases |ps|
  {
    hide RowsBelow, Route, RowKey, StoredTable, InTable, StoredAs, Raw, ValidTable;
    if ps != [] {
      var groups, n := PartitionGroups(dbs, t, ps), |t.partitionKeys|;
      assert groups[1..] == PartitionGroups(dbs, t, ps[1..]);
      GroupTimes(dbs, t, ps[1..], r, ws);
      TimesAppend(groups[0], Concat(groups[1..]), r);
      var a := AddressIn(t, ps[0]);
      RowsBelowDistinct(dbs[Route(a, |dbs|)], RowKey(a));
      TimesDistinct(groups[0], r);
      assert ps[0] != [] by { HasPartition(t); }
      PartitionRows(dbs, t, ps[0], r);
      assert ps[0] <= RawAll(ws) <==> ps[0] == RawAll(ws)[..n];
    }
  }

  lemma HasPartition(t: TableDef)
    requires ValidTable(t)
    ensures t.partitionKeys != []
  {
  }

  lemma {:induction false} GroupsOfTable(dbs: seq<Db>, t: TableDef, ps: seq<seq<bytes>>, r: Row)
    requires dbs != [] && ValidTable(t) && StoredTable(dbs, t) && ShortPartitions(t, ps)
    requires r in Concat(PartitionGroups(dbs, t, ps))
    ensures InTable(dbs, t, r)
  {
    hide RowsBelow, Route, RowKey, StoredTable, InTable, StoredAs, ValidTable;
    var groups := PartitionGroups(dbs, t, ps);
    ConcatMembers(groups, r);
    var i :| 0 <= i < |groups| && r in groups[i];
    assert ps[i] != [] by { HasPartition(t); }
    PartitionRows(dbs, t, ps[i], r);
  }

  /* ---------- The exact condition ---------- */

  /** Every filter on the column accepts `w`. */
  predicate Takes(filters: seq<Filter>, name: bytes, w: Value) {
    forall f <- filters | f.name == name :: AcceptsWord(f, w)
  }

  /** `w` can stand in key column `i`. */
  predicate Fitting(t: TableDef, i: nat, w: Value)
    requires ValidTable(t) && i < |KeyNames(t)|
  {
    WellTyped(w, KeyType(t, i)) && |Raw(w)| < 0x1_0000
  }

  /** No value passes the filters on key column `i`. */
  ghost predicate Barren(t: TableDef, filters: seq<Filter>, i: nat)
    requires ValidTable(t) && i < |KeyNames(t)|
  {
    forall w | Fitting(t, i, w) :: !Takes(filters, KeyNames(t)[i], w)
  }

  /** Every value that passes the filters on key column `i` is listed once, byte for byte. */
  ghost predicate ListedOnce(t: TableDef, filters: seq<Filter>, i: nat)
    requires ValidTable(t) && i < |KeyNames(t)|
  {
    forall w | Fitting(t, i, w) && Takes(filters, KeyNames(t)[i], w) ::
      Times(RawAll(Listed(filters, KeyNames(t)[i])), Raw(w)) == 1
  }

  ghost predicate PartitionsExact(t: TableDef, filters: seq<Filter>)
    requires ValidTable(t)
  {
    || (exists i | 0 <= i < |t.partitionKeys| :: Barren(t, filters, i))
    || (forall i | 0 <= i < |t.partitionKeys| :: ListedOnce(t, filters, i))
  }

  /** The values of an emitting entry pass the filters on their columns. */
  lemma EmitterTakes(t: TableDef, filters: seq<Filter>, selected: seq<nat>, r: Row, ws: seq<Value>)
    requires ValidTable(t) && FiltersOk(t, filters) && Below(selected, |t.columns|) && StoredAs(t, r, ws)
    requires Emits(QueryOf(t, filters, selected), r)
    ensures |ws| == |KeyNames(t)|
    ensures forall i | 0 <= i < |ws| :: Fitting(t, i, ws[i]) && Takes(filters, KeyNames(t)[i], ws[i])
  {
    hide EntryRow, QueryOf, Raw, WellTyped, RowKey, StoredVal, AcceptsWord, ValidTable;
    EntryMeaning(t, filters, selected, r, ws);
    forall i | 0 <= i < |ws|
      ensures |Raw(ws[i])| < 0x1_0000
    {
      assert Raw(ws[i]) == RawAll(ws)[i];
    }
  }

  /** On filters of any shape: if every acceptable value of each partition column is listed
      once, or some column accepts nothing, the partition scan answers what the full scan
      answers, up to order. */
  lemma PartitionPlanAgrees(dbs: seq<Db>, t: TableDef, filters: seq<Filter>, selected: seq<nat>)
    requires dbs != [] && ValidTable(t) && FiltersOk(t, filters) && Below(selected, |t.columns|) && StoredTable(dbs, t)
    requires ShortLists(filters, t.partitionKeys) && PartitionsExact(t, filters)
    ensures var q := QueryOf(t, filters, selected);
            multiset(Emit(q, Concat(PartitionGroups(dbs, t, Partitions(t, filters)))))
            == multiset(Emit(q, Concat(TableGroups(dbs, t))))
  {
    hide Emits, QueryOf, Emit, Partitions, PartitionGroups;
    hide TableGroups, Concat, StoredTable, ValidTable, Below, FiltersOk;
    var q := QueryOf(t, filters, selected);
    forall r | Emits(q, r)
      ensures Times(Concat(PartitionGroups(dbs, t, Partitions(t, filters))), r) == Times(Concat(TableGroups(dbs, t)), r)
    {
      VisitedAlike(dbs, t, filters, selected, r);
    }
    SameEmitters(q, Concat(PartitionGroups(dbs, t, Partitions(t, filters))), Concat(TableGroups(dbs, t)));
  }

  lemma TableTimes(dbs: seq<Db>, t: TableDef, r: Row)
    requires dbs != [] && ValidTable(t) && StoredTable(dbs, t)
    ensures Times(Concat(TableGroups(dbs, t)), r) == if InTable(dbs, t, r) then 1 else 0
  {
    hide RowsBelow, Sharded, ValidTable, TableGroups, Concat, StoredAs;
    TableRows(dbs, t);
    TimesDistinct(Concat(TableGroups(dbs, t)), r);
  }

  lemma VisitedAlike(dbs: seq<Db>, t: TableDef, filters: seq<Filter>, selected: seq<nat>, r: Row)
    requires dbs != [] && ValidTable(t) && FiltersOk(t, filters) && Below(selected, |t.columns|) && StoredTable(dbs, t)
    requires ShortLists(filters, t.partitionKeys) && PartitionsExact(t, filters)
    requires Emits(QueryOf(t, filters, selected), r)
    ensures Times(Concat(PartitionGroups(dbs, t, Partitions(t, filters))), r) == Times(Concat(TableGroups(dbs, t)), r)
  {
    hide Emits, QueryOf, Partitions, PartitionGroups, TableGroups, Concat, StoredTable, ValidTable;
    hide InTable, StoredAs, Raw, Listed, WellTyped, Takes, Times, Ways;
    var ps := Partitions(t, filters);
    PartitionsAreShort(t, filters);
    TableTimes(dbs, t, r);
    TimesMember(Concat(PartitionGroups(dbs, t, ps)), r);
    if InTable(dbs, t, r) {
      PartitionRows(dbs, t, [[]], r);
      var ws :| StoredAs(t, r, ws);
      EmitterTakes(t, filters, selected, r, ws);
      GroupTimes(dbs, t, ps, r, ws);
      EmitterListedOnce(t, filters, ws);
    } else if r in Concat(PartitionGroups(dbs, t, ps)) {
      GroupsOfTable(dbs, t, ps, r);
    }
  }

  lemma EmitterListedOnce(t: TableDef, filters: seq<Filter>, ws: seq<Value>)
    requires ValidTable(t) && PartitionsExact(t, filters) && |ws| == |KeyNames(t)|
    requires forall i | 0 <= i < |ws| :: Fitting(t, i, ws[i]) && Takes(filters, KeyNames(t)[i], ws[i])
    ensures Times(Partitions(t, filters), RawAll(ws)[..|t.partitionKeys|]) == 1
  {
    hide Partitions, ValidTable, Raw, Listed, Fitting, Takes, Times, Ways;
    var n := |t.partitionKeys|;
    var p := RawAll(ws)[..n];
    PartitionTimes(t, filters, p);
    WaysOnce(filters, t.partitionKeys, 0, p);
    forall i | 0 <= i < n
      ensures !Barren(t, filters, i)
    {
      assert Fitting(t, i, ws[i]) && Takes(filters, KeyNames(t)[i], ws[i]);
    }
    forall i | 0 <= i < n
      ensures Times(RawAll(Listed(filters, t.partitionKeys[i])), p[0 + i]) == 1
    {
      assert KeyNames(t)[i] == t.partitionKeys[i] && p[i] == Raw(ws[i]);
      assert ListedOnce(t, filters, i);
    }
  }

  /* ---------- A simple case ---------- */

  /** Every value listed for these columns equals only itself. */
  predicate SharpLists(filters: seq<Filter>, names: seq<bytes>) {
    forall i | 0 <= i < |names| :: forall v <- Listed(filters, names[i]) :: Sharp(v)
  }

  /** No value is listed twice. */
  predicate DistinctLists(filters: seq<Filter>, names: seq<bytes>) {
    forall i | 0 <= i < |names| :: Distinct(RawAll(Listed(filters, names[i])))
  }

  /** Byte-distinct listed values without zeros meet the condition. */
  lemma DistinctListsAreExact(t: TableDef, filters: seq<Filter>)
    requires ValidTable(t) && PartitionRestricted(t, filters)
    requires SharpLists(filters, t.partitionKeys) && DistinctLists(filters, t.partitionKeys)
    ensures PartitionsExact(t, filters)
  {
    hide ValidTable, Raw, WellTyped, Listed, Sharp, ValueEq, Times;
    forall i, w | 0 <= i < |t.partitionKeys| && Takes(filters, KeyNames(t)[i], w)
      ensures Times(RawAll(Listed(filters, KeyNames(t)[i])), Raw(w)) == 1
    {
      var name := t.partitionKeys[i];
      assert KeyNames(t)[i] == name && name in t.partitionKeys;
      var f :| f in filters && f.name == name;
      assert AcceptsWord(f, w);
      var v := match f case Eq(_, v) => v case In(_, vs) => var v :| v in vs && ValueEq(v, w); v;
      ListedMembers(filters, name, f, v);
      SharpExactly(v);
      RawListed(Listed(filters, name), w);
      TimesDistinct(RawAll(Listed(filters, name)), Raw(w));
    }
  }
}
