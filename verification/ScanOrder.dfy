/** The order in which scans visit rows (src/query.rs, src/storage.rs), which decides what a
    LIMIT returns: engines one after the other, keys ascending within an engine; partitions
    in the order of the nested loops over the listed values. */
module ScanOrder {
  import opened Bytes
  import opened Counting
  import opened Keys
  import opened Pipeline
  import opened Scan
  import opened Sharding
  import opened RowCodec
  import opened SelectPlans
  import opened PlanEquivalence
  import opened PartitionPlan

  /* ---------- Positions in a concatenation ---------- */

  /** Group and place of position `k`. */
  function Place<T>(groups: seq<seq<T>>, k: nat): (p: (nat, nat))
    requires k < |Concat(groups)|
    ensures p.0 < |groups| && p.1 < |groups[p.0]| && groups[p.0][p.1] == Concat(groups)[k]
    decreases |groups|
  {
    if k < |groups[0]| then (0, k)
    else
      var p := Place(groups[1..], k - |groups[0]|);
      (p.0 + 1, p.1)
  }

  lemma {:induction false} PlaceAscends<T>(groups: seq<seq<T>>, k: nat, l: nat)
    requires k < l < |Concat(groups)|
    ensures var p, q := Place(groups, k), Place(groups, l); p.0 < q.0 || (p.0 == q.0 && p.1 < q.1)
    decreases |groups|
  {
    if k >= |groups[0]| {
      PlaceAscends(groups[1..], k - |groups[0]|, l - |groups[0]|);
    }
  }

  /** Entries below a prefix are visited in ascending key order. */
  lemma RowsAscend(db: Db, prefix: bytes, i: nat, j: nat)
    requires i < j < |RowsBelow(db, prefix)|
    ensures Less(RowsBelow(db, prefix)[i].key, RowsBelow(db, prefix)[j].key)
  {
    hide SortedKeys, Less, RowsBelow;
    RowsBelowAt(db, prefix);
    SortedAscending(KeysBelow(db, prefix));
  }

  /* ---------- Table scans ---------- */

  /** A table scan visits the engines in order, and the rows of each in ascending key order. */
  lemma TableScanOrder(dbs: seq<Db>, t: TableDef, k: nat, l: nat, e: nat, f: nat)
    requires ValidTable(t) && Sharded(dbs) && k < l < |Concat(TableGroups(dbs, t))|
    requires e < |dbs| && f < |dbs|
    requires Concat(TableGroups(dbs, t))[k].key in dbs[e] && Concat(TableGroups(dbs, t))[l].key in dbs[f]
    ensures e < f || (e == f && Less(Concat(TableGroups(dbs, t))[k].key, Concat(TableGroups(dbs, t))[l].key))
  {
    hide RowsBelow, Less, Sharded, ValidTable, Concat, DataPrefix;
    var groups := TableGroups(dbs, t);
    var p, q := Place(groups, k), Place(groups, l);
    PlaceAscends(groups, k, l);
    EngineOfRow(dbs, t, p.0, p.1, e);
    EngineOfRow(dbs, t, q.0, q.1, f);
    if p.0 == q.0 {
      RowsAscend(dbs[e], DataPrefix(t.keyspace, t.name), p.1, q.1);
    }
  }

  lemma EngineOfRow(dbs: seq<Db>, t: TableDef, g: nat, i: nat, e: nat)
    requires ValidTable(t) && Sharded(dbs) && g < |dbs| && e < |dbs| && i < |TableGroups(dbs, t)[g]|
    requires TableGroups(dbs, t)[g][i].key in dbs[e]
    ensures e == g && TableGroups(dbs, t)[g] == RowsBelow(dbs[g], DataPrefix(t.keyspace, t.name))
  {
    hide RowsBelow, DataPrefix, ValidTable, Sharded, StartsWith;
    var prefix, row := DataPrefix(t.keyspace, t.name), TableGroups(dbs, t)[g][i];
    assert row in RowsBelow(dbs[g], prefix);
    RowsBelowMembers(dbs[g], prefix, row);
    var other := Row(row.key, dbs[e][row.key]);
    RowsBelowMembers(dbs[e], prefix, other);
    KeyHome(dbs, t, g, e, row.key);
  }

  lemma KeyHome(dbs: seq<Db>, t: TableDef, e: nat, f: nat, k: bytes)
    requires Sharded(dbs) && e < |dbs| && f < |dbs| && k in dbs[e] && k in dbs[f]
    requires StartsWith(k, DataPrefix(t.keyspace, t.name))
    ensures e == f
  {
    hide EncodeKey, Route;
    var prefix := DataPrefix(t.keyspace, t.name);
    assert prefix[..3] == DT_PREFIX && k[..3] == prefix[..3];
    assert Lives(k, e, |dbs|) && Lives(k, f, |dbs|);
    var a :| Good(a) && RowKey(a) == k && Route(a, |dbs|) == e;
    var b :| Good(b) && RowKey(b) == k && Route(b, |dbs|) == f;
    RowKeyInjective(a, b);
  }

  /* ---------- Partition scans ---------- */

  /** All tuples, one value from each list, the first list in the outermost loop. */
  function Tuples(lists: seq<seq<bytes>>): seq<seq<bytes>> {
    if lists == [] then [[]] else Heads(lists[0], Tuples(lists[1..]))
  }

  function Heads(values: seq<bytes>, tails: seq<seq<bytes>>): (r: seq<seq<bytes>>) {
    if values == [] then [] else Behind([values[0]], tails) + Heads(values[1..], tails)
  }

  function Behind(c: seq<bytes>, tails: seq<seq<bytes>>): (r: seq<seq<bytes>>)
    ensures |r| == |tails| && forall i | 0 <= i < |r| :: r[i] == c + tails[i]
  {
    seq(|tails|, i requires 0 <= i < |tails| => c + tails[i])
  }

  /** Every combination followed by every tail. */
  function Join(combos: seq<seq<bytes>>, tails: seq<seq<bytes>>): seq<seq<bytes>> {
    if combos == [] then [] else Behind(combos[0], tails) + Join(combos[1..], tails)
  }

  lemma {:induction false} JoinAppend(a: seq<seq<bytes>>, b: seq<seq<bytes>>, tails: seq<seq<bytes>>)
    ensures Join(a + b, tails) == Join(a, tails) + Join(b, tails)
    decreases |a|
  {
    if a == [] {
      assert a + b == b;
    } else {
      assert (a + b)[0] == a[0] && (a + b)[1..] == a[1..] + b;
      JoinAppend(a[1..], b, tails);
    }
  }

  /** One combination extended by every value, then by every tail. */
  lemma {:induction false} JoinValues(c: seq<bytes>, values: seq<bytes>, tails: seq<seq<bytes>>)
    ensures Join(seq(|values|, i requires 0 <= i < |values| => c + [values[i]]), tails)
            == Behind(c, Heads(values, tails))
    decreases |values|
  {
    var all := seq(|values|, i requires 0 <= i < |values| => c + [values[i]]);
    if values != [] {
      var rest := values[1..];
      assert all[1..] == seq(|rest|, i requires 0 <= i < |rest| => c + [rest[i]]);
      JoinValues(c, rest, tails);
      BehindBehind(c, values[0], tails, Heads(rest, tails));
    }
  }

  lemma BehindBehind(c: seq<bytes>, v: bytes, tails: seq<seq<bytes>>, more: seq<seq<bytes>>)
    ensures Behind(c + [v], tails) + Behind(c, more) == Behind(c, Behind([v], tails) + more)
  {
    var x, y := Behind(c + [v], tails) + Behind(c, more), Behind(c, Behind([v], tails) + more);
    forall i | 0 <= i < |tails|
      ensures x[i] == y[i]
    {
      assert c + [v] + tails[i] == c + ([v] + tails[i]);
    }
  }

  lemma {:induction false} JoinExtend(combos: seq<seq<bytes>>, values: seq<bytes>, tails: seq<seq<bytes>>)
    ensures Join(Extend(combos, values), tails) == Join(combos, Heads(values, tails))
    decreases |combos|
  {
    hide Heads, Behind;
    if combos != [] {
      JoinExtend(combos[1..], values, tails);
      JoinValues(combos[0], values, tails);
      var first := seq(|values|, i requires 0 <= i < |values| => combos[0] + [values[i]]);
      JoinAppend(first, Extend(combos[1..], values), tails);
    }
  }

  function Lists(filters: seq<Filter>, names: seq<bytes>): seq<seq<bytes>> {
    if names == [] then [] else [RawAll(Listed(filters, names[0]))] + Lists(filters, names[1..])
  }

  lemma {:induction false} ProductIsTuples(filters: seq<Filter>, names: seq<bytes>, combos: seq<seq<bytes>>)
    ensures Product(filters, names, combos) == Join(combos, Tuples(Lists(filters, names)))
    decreases |names|
  {
    hide Extend, Listed, Heads;
    if names == [] {
      JoinNothing(combos);
    } else {
      var values := RawAll(Listed(filters, names[0]));
      ProductIsTuples(filters, names[1..], Extend(combos, values));
      JoinExtend(combos, values, Tuples(Lists(filters, names[1..])));
      assert Lists(filters, names)[0] == values && Lists(filters, names)[1..] == Lists(filters, names[1..]);
    }
  }

  lemma {:induction false} JoinNothing(combos: seq<seq<bytes>>)
    ensures Join(combos, [[]]) == combos
    decreases |combos|
  {
    if combos != [] {
      JoinNothing(combos[1..]);
      var none: seq<seq<bytes>> := [[]];
      assert combos[0] + none[0] == combos[0];
      assert Behind(combos[0], none) == [combos[0]];
    }
  }

  /** The partitions are scanned in the order of nested loops over the listed values, the
      first partition column outermost. */
  lemma PartitionScanOrder(t: TableDef, filters: seq<Filter>)
    ensures Partitions(t, filters) == Tuples(Lists(filters, t.partitionKeys))
  {
    hide Product, Tuples;
    ProductIsTuples(filters, t.partitionKeys, [[]]);
    var none: seq<seq<bytes>> := [[]];
    var all := Tuples(Lists(filters, t.partitionKeys));
    assert none[1..] == [] && Join(none, all) == Behind([], all) + [];
    assert forall i | 0 <= i < |all| :: [] + all[i] == all[i];
    assert Behind([], all) == all;
  }

  /* ---------- The order of tuples ---------- */

  /** Which of the blocks of `n` holds position `k`, and where. */
  function Block(n: nat, count: nat, k: nat): (p: (nat, nat))
    requires k < count * n
    ensures p.0 < count && p.1 < n
    decreases count
  {
    if k < n then (0, k) else
    assert count * n == n + (count - 1) * n;
    var p := Block(n, count - 1, k - n);
    (p.0 + 1, p.1)
  }

  lemma {:induction false} BlockAscends(n: nat, count: nat, k: nat, l: nat)
    requires k < l < count * n
    ensures var p, q := Block(n, count, k), Block(n, count, l); p.0 < q.0 || (p.0 == q.0 && p.1 < q.1)
    decreases count
  {
    if k >= n {
      assert count * n == n + (count - 1) * n;
      BlockAscends(n, count - 1, k - n, l - n);
    }
  }

  lemma {:induction false} HeadsAt(values: seq<bytes>, tails: seq<seq<bytes>>, k: nat)
    ensures |Heads(values, tails)| == |values| * |tails|
    ensures k < |values| * |tails| ==>
              (var p := Block(|tails|, |values|, k); Heads(values, tails)[k] == [values[p.0]] + tails[p.1])
    decreases |values|
  {
    var n := |tails|;
    if values != [] {
      assert |values| * n == n + (|values| - 1) * n;
      HeadsAt(values[1..], tails, if k < n then 0 else k - n);
    }
  }

  /** The places in the lists that make up tuple `k`. */
  function Digits(lists: seq<seq<bytes>>, k: nat): seq<nat>
    requires k < |Tuples(lists)|
  {
    if lists == [] then [] else
    var tails := Tuples(lists[1..]);
    HeadsAt(lists[0], tails, k);
    var p := Block(|tails|, |lists[0]|, k);
    [p.0] + Digits(lists[1..], p.1)
  }

  predicate LexLess(x: seq<nat>, y: seq<nat>) {
    x != [] && y != [] && (x[0] < y[0] || (x[0] == y[0] && LexLess(x[1..], y[1..])))
  }

  /** Tuple `k` is made of the values at its places, and later tuples have lexicographically
      later places. */
  lemma {:induction false} TuplesInOrder(lists: seq<seq<bytes>>, k: nat, l: nat)
    requires k <= l < |Tuples(lists)|
    ensures |Digits(lists, k)| == |Tuples(lists)[k]| == |lists|
    ensures forall i | 0 <= i < |lists| ::
              Digits(lists, k)[i] < |lists[i]| && Tuples(lists)[k][i] == lists[i][Digits(lists, k)[i]]
    ensures k < l ==> LexLess(Digits(lists, k), Digits(lists, l))
    decreases |lists|
  {
    hide Heads, Block;
    if lists != [] {
      var tails, rest := Tuples(lists[1..]), lists[1..];
      HeadsAt(lists[0], tails, k);
      HeadsAt(lists[0], tails, l);
      var p, q := Block(|tails|, |lists[0]|, k), Block(|tails|, |lists[0]|, l);
      if k < l {
        BlockAscends(|tails|, |lists[0]|, k, l);
      }
      var later := if p.0 == q.0 && p.1 <= q.1 then q.1 else p.1;
      TuplesInOrder(rest, p.1, later);
      assert Digits(lists, k)[1..] == Digits(rest, p.1) && Digits(lists, l)[1..] == Digits(rest, q.1);
      assert Tuples(lists)[k] == [lists[0][p.0]] + tails[p.1];
      assert forall i | 1 <= i < |lists| :: lists[i] == rest[i - 1];
    }
  }

  /** A partition scan visits the rows of the partitions in that order, and within a partition
      in ascending key order. */
  lemma PartitionRowsOrder(dbs: seq<Db>, t: TableDef, ps: seq<seq<bytes>>, k: nat, l: nat)
    requires dbs != [] && k < l < |Concat(PartitionGroups(dbs, t, ps))|
    ensures var all := Concat(PartitionGroups(dbs, t, ps));
            exists g: nat, h: nat ::
              && g <= h < |ps|
              && StartsWith(all[k].key, RowKey(AddressIn(t, ps[g])))
              && StartsWith(all[l].key, RowKey(AddressIn(t, ps[h])))
              && (g < h || Less(all[k].key, all[l].key))
  {
    hide RowsBelow, Less, Concat, RowKey, Route, StartsWith;
    var groups := PartitionGroups(dbs, t, ps);
    var all := Concat(groups);
    var p, q := Place(groups, k), Place(groups, l);
    PlaceAscends(groups, k, l);
    BelowPartition(dbs, t, ps, p.0, p.1);
    BelowPartition(dbs, t, ps, q.0, q.1);
    if p.0 == q.0 {
      var a := AddressIn(t, ps[p.0]);
      RouteInRange(a, |dbs|);
      RowsAscend(dbs[Route(a, |dbs|)], RowKey(a), p.1, q.1);
    }
  }

  lemma BelowPartition(dbs: seq<Db>, t: TableDef, ps: seq<seq<bytes>>, g: nat, i: nat)
    requires dbs != [] && g < |ps| && i < |PartitionGroups(dbs, t, ps)[g]|
    ensures StartsWith(PartitionGroups(dbs, t, ps)[g][i].key, RowKey(AddressIn(t, ps[g])))
  {
    hide RowsBelow, RowKey, Route, StartsWith;
    var a := AddressIn(t, ps[g]);
    RouteInRange(a, |dbs|);
    var row := PartitionGroups(dbs, t, ps)[g][i];
    assert row in RowsBelow(dbs[Route(a, |dbs|)], RowKey(a));
    RowsBelowMembers(dbs[Route(a, |dbs|)], RowKey(a), row);
  }
}
