/** Ordered scans of one engine and their correctness across engines (src/storage.rs). */
module Scan {
  import opened Bytes
  import opened Keys
  import opened Pipeline
  import opened Protocol

  /* ---------- Byte order on key sets ---------- */

  lemma TotalOrder()
    ensures forall a: bytes, b: bytes :: AtMost(a, b) && AtMost(b, a) ==> a == b
  {
    forall a: bytes, b: bytes | AtMost(a, b) && AtMost(b, a)
      ensures a == b
    {
      LessTotal(a, b);
    }
  }

  lemma {:induction false} LeastExists(s: set<bytes>)
    requires s != {}
    ensures exists m :: m in s && forall k <- s :: AtMost(m, k)
  {
    hide Less, AtMost;
    var x :| x in s;
    if s == {x} {
      AtMostReflexive(x);
    } else {
      var rest := s - {x};
      assert rest != {} by { assert s == {x} + rest; }
      LeastExists(rest);
      var m :| m in rest && forall k <- rest :: AtMost(m, k);
      AtMostTotal(m, x);
      AtMostReflexive(x);
      if AtMost(m, x) {
        assert forall k <- s :: AtMost(m, k);
      } else {
        forall k <- s
          ensures AtMost(x, k)
        {
          if k != x {
            AtMostTransitive(x, m, k);
          }
        }
      }
    }
  }

  lemma AtMostReflexive(a: bytes)
    ensures AtMost(a, a)
  {
    LessIrreflexive(a);
  }

  lemma AtMostTotal(a: bytes, b: bytes)
    ensures AtMost(a, b) || AtMost(b, a)
  {
    if Less(b, a) && Less(a, b) {
      LessTransitive(a, b, a);
      LessIrreflexive(a);
    }
  }

  function Least(s: set<bytes>): (m: bytes)
    requires s != {}
    ensures m in s && forall k <- s :: AtMost(m, k)
  {
    LeastExists(s);
    TotalOrder();
    var m :| m in s && forall k <- s :: AtMost(m, k);
    m
  }

  /** The order an iterator visits a set of keys in. */
  function SortedKeys(s: set<bytes>): (ks: seq<bytes>)
    ensures |ks| == |s|
    decreases |s|
  {
    if s == {} then [] else
    var m := Least(s);
    var rest := SortedKeys(s - {m});
    [m] + rest
  }

  lemma {:induction false} SortedMembers(s: set<bytes>)
    ensures forall k :: k in SortedKeys(s) <==> k in s
    decreases |s|
  {
    if s != {} {
      SortedMembers(s - {Least(s)});
    }
  }

  ghost predicate Ascending(ks: seq<bytes>) {
    forall i, j | 0 <= i < j < |ks| :: Less(ks[i], ks[j])
  }

  lemma {:induction false} SortedAscending(s: set<bytes>)
    ensures Ascending(SortedKeys(s))
    decreases |s|
  {
    hide Less, AtMost;
    if s != {} {
      var m := Least(s);
      SortedAscending(s - {m});
      var ks := SortedKeys(s);
      forall i, j | 0 <= i < j < |ks|
        ensures Less(ks[i], ks[j])
      {
        if i == 0 {
          assert ks[j] == SortedKeys(s - {m})[j - 1];
          SortedMembers(s - {m});
          assert ks[j] in SortedKeys(s - {m});
          AtMostStrict(m, ks[j]);
        } else {
          assert ks[1..] == SortedKeys(s - {m});
          assert ks[1..][i - 1] == ks[i] && ks[1..][j - 1] == ks[j];
        }
      }
    }
  }

  lemma AtMostStrict(a: bytes, b: bytes)
    requires AtMost(a, b) && a != b
    ensures Less(a, b)
  {
    LessTotal(a, b);
  }

  ghost predicate Before(a: set<bytes>, b: set<bytes>) {
    forall x <- a, y <- b :: Less(x, y)
  }

  lemma LeastOfUnion(a: set<bytes>, b: set<bytes>)
    requires a != {} && Before(a, b)
    ensures Least(a + b) == Least(a)
    ensures a + b - {Least(a)} == (a - {Least(a)}) + b && Before(a - {Least(a)}, b)
  {
    hide Less, AtMost;
    var m, n := Least(a), Least(a + b);
    assert m in a + b;
    if n in b {
      LessExcludes(m, n);
    }
    AtMostAntisymmetric(m, n);
    LessNever(a, b, m);
  }

  /** Keys that all come before another set are visited first. */
  lemma {:induction false} SortedSplit(a: set<bytes>, b: set<bytes>)
    requires Before(a, b)
    ensures SortedKeys(a + b) == SortedKeys(a) + SortedKeys(b)
    decreases |a|
  {
    if a == {} {
      assert a + b == b;
    } else {
      hide Before, Least, SortedKeys;
      var m := Least(a);
      LeastOfUnion(a, b);
      SortedCons(a + b);
      SortedCons(a);
      SortedSplit(a - {m}, b);
      Reassociate(m, SortedKeys(a - {m}), SortedKeys(b));
    }
  }

  lemma Reassociate(m: bytes, x: seq<bytes>, y: seq<bytes>)
    ensures [m] + (x + y) == [m] + x + y
  {
  }

  lemma SortedCons(s: set<bytes>)
    requires s != {}
    ensures SortedKeys(s) == [Least(s)] + SortedKeys(s - {Least(s)})
  {
  }

  lemma LessExcludes(m: bytes, n: bytes)
    requires Less(m, n)
    ensures AtMost(m, n) && !AtMost(n, m)
  {
    AtMostTotal(m, n);
  }

  lemma AtMostAntisymmetric(m: bytes, n: bytes)
    requires AtMost(m, n) && AtMost(n, m)
    ensures m == n
  {
    LessTotal(m, n);
  }

  lemma LessNever(a: set<bytes>, b: set<bytes>, m: bytes)
    requires m in a && Before(a, b)
    ensures m !in b
  {
    if m in b {
      LessIrreflexive(m);
    }
  }

  /* ---------- One engine ---------- */

  function KeysBelow(db: Db, prefix: bytes): set<bytes> {
    set k | k in db && StartsWith(k, prefix)
  }

  function KeysFrom(db: Db, start: bytes): set<bytes> {
    set k | k in db && AtMost(start, k)
  }

  datatype Row = Row(key: bytes, val: bytes)

  function Pick(db: Db, ks: seq<bytes>): (rows: seq<Row>)
    requires forall k <- ks :: k in db
    ensures |rows| == |ks| && forall i | 0 <= i < |ks| :: rows[i] == Row(ks[i], db[ks[i]])
  {
    seq(|ks|, i requires 0 <= i < |ks| => assert ks[i] in ks; Row(ks[i], db[ks[i]]))
  }

  /** All rows whose key starts with `prefix`, in key order. */
  function RowsBelow(db: Db, prefix: bytes): seq<Row> {
    SortedMembers(KeysBelow(db, prefix));
    Pick(db, SortedKeys(KeysBelow(db, prefix)))
  }

  /** Seeking to `prefix` and stopping at the first other key misses none. */
  lemma PrefixIsContiguous(db: Db, prefix: bytes)
    ensures var others := KeysFrom(db, prefix) - KeysBelow(db, prefix);
            SortedKeys(KeysFrom(db, prefix)) == SortedKeys(KeysBelow(db, prefix)) + SortedKeys(others)
  {
    hide SortedKeys, Less, AtMost;
    var mine := KeysBelow(db, prefix);
    var others := KeysFrom(db, prefix) - mine;
    forall k <- mine
      ensures k in KeysFrom(db, prefix)
    {
      PrefixAtMost(prefix, k);
    }
    forall x <- mine, y <- others
      ensures Less(x, y)
    {
      LessTotal(x, y);
      PrefixAtMost(prefix, x);
      if Less(y, x) {
        Contiguous(prefix, y, x);
      }
    }
    SortedSplit(mine, others);
    assert mine + others == KeysFrom(db, prefix);
  }

  /** The callback, given all entries so far, asks to stop at none of the first `n` calls. */
  ghost predicate GoesOn(stop: seq<Row> -> bool, rows: seq<Row>, n: nat)
    requires n <= |rows|
  {
    forall i | 1 <= i <= n :: !stop(rows[..i])
  }

  /** `for_each_on_engine`: an iterator positioned at `prefix`, left at the first key without
      it or when the callback says stop. What was visited is a leading run of the entries
      below the prefix: all of them, or those up to the first at which the callback stops. */
  method ForEachOnEngine(db: Db, prefix: bytes, stop: seq<Row> -> bool) returns (out: seq<Row>)
    ensures out <= RowsBelow(db, prefix)
    ensures || (out == RowsBelow(db, prefix) && GoesOn(stop, RowsBelow(db, prefix), |out|))
            || (out != [] && stop(out) && GoesOn(stop, RowsBelow(db, prefix), |out| - 1))
  {
    hide SortedKeys, RowsBelow, KeysFrom, StartsWith;
    var iter := SortedKeys(KeysFrom(db, prefix));
    ghost var rows := RowsBelow(db, prefix);
    Visits(db, prefix);
    out := [];
    for i := 0 to |iter|
      invariant i <= |rows| && out == rows[..i] && GoesOn(stop, rows, i)
    {
      var k := iter[i];
      if !StartsWith(k, prefix) {
        return;
      }
      out := out + [Row(k, db[k])];
      assert out == rows[..i + 1];
      if stop(out) {
        return;
      }
    }
  }

  /** The iterator first visits the entries below the prefix, then only others. */
  lemma Visits(db: Db, prefix: bytes)
    ensures var iter, rows := SortedKeys(KeysFrom(db, prefix)), RowsBelow(db, prefix);
            && |rows| <= |iter|
            && (forall i | 0 <= i < |iter| :: iter[i] in db && (StartsWith(iter[i], prefix) <==> i < |rows|))
            && (forall i | 0 <= i < |rows| :: rows[i] == Row(iter[i], db[iter[i]]))
  {
    hide SortedKeys, AtMost;
    SortedMembers(KeysFrom(db, prefix));
    SortedMembers(KeysBelow(db, prefix));
    IteratorPositions(db, prefix);
    RowsBelowAt(db, prefix);
    hide RowsBelow, Pick;
    var iter, mine := SortedKeys(KeysFrom(db, prefix)), SortedKeys(KeysBelow(db, prefix));
    forall i | 0 <= i < |iter|
      ensures iter[i] in db && (i < |mine| ==> iter[i] == mine[i])
    {
      assert iter[i] in iter;
    }
  }

  lemma RowsBelowAt(db: Db, prefix: bytes)
    ensures var ks, rows := SortedKeys(KeysBelow(db, prefix)), RowsBelow(db, prefix);
            |rows| == |ks| && forall i | 0 <= i < |ks| :: ks[i] in db && rows[i] == Row(ks[i], db[ks[i]])
  {
    SortedMembers(KeysBelow(db, prefix));
    var ks := SortedKeys(KeysBelow(db, prefix));
    forall i | 0 <= i < |ks|
      ensures ks[i] in db
    {
      assert ks[i] in ks;
    }
  }

  lemma IteratorPositions(db: Db, prefix: bytes)
    ensures var iter, mine := SortedKeys(KeysFrom(db, prefix)), SortedKeys(KeysBelow(db, prefix));
            && |mine| <= |iter| && mine == iter[..|mine|]
            && forall i | 0 <= i < |iter| :: StartsWith(iter[i], prefix) <==> i < |mine|
  {
    hide SortedKeys, AtMost;
    PrefixIsContiguous(db, prefix);
    var iter, mine := SortedKeys(KeysFrom(db, prefix)), SortedKeys(KeysBelow(db, prefix));
    var others := KeysFrom(db, prefix) - KeysBelow(db, prefix);
    SortedMembers(KeysBelow(db, prefix));
    SortedMembers(others);
    forall i | 0 <= i < |iter|
      ensures StartsWith(iter[i], prefix) <==> i < |mine|
    {
      if i < |mine| {
        assert iter[i] == mine[i] && mine[i] in mine;
      } else {
        assert iter[i] == SortedKeys(others)[i - |mine|] && iter[i] in SortedKeys(others);
      }
    }
  }

}
