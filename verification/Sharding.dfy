/** Where rows live (src/storage.rs): routing keeps every row on one engine, so a partition
    scan of that engine is complete and a wiped scope is gone everywhere. */
module Sharding {
  import opened Bytes
  import opened Keys
  import opened Pipeline
  import opened Protocol
  import opened Coherence
  import opened Scan

  /** A data key on engine `e` of `n` is the key of a proper address that routes to `e`. */
  ghost predicate Lives(k: bytes, e: nat, n: nat) {
    StartsWith(k, DT_PREFIX) ==> exists a :: Good(a) && RowKey(a) == k && Route(a, n) == e
  }

  ghost predicate Sharded(dbs: seq<Db>) {
    forall e, k | 0 <= e < |dbs| && k in dbs[e] :: Lives(k, e, |dbs|)
  }

  function Dbs(s: System): (dbs: seq<Db>)
    ensures |dbs| == |s.pipes| && forall e | 0 <= e < |dbs| :: dbs[e] == s.pipes[e].db
  {
    seq(|s.pipes|, e requires 0 <= e < |s.pipes| => s.pipes[e].db)
  }

  /** Every put accepted by an engine is for a row that lives there. */
  ghost predicate PutsAtHome(s: System) {
    forall e, op | 0 <= e < |s.pipes| && op in s.pipes[e].accepted && op.Put? :: Lives(op.key, e, |s.pipes|)
  }

  lemma IssueAtHome(s: System, i: nat, e: nat, pc: Pc)
    requires PutsAtHome(s) && i < |s.procs| && e < |s.pipes| && !s.procs[i].req.GetRow? && Proper(s.procs[i].req)
    requires s.procs[i].req.PutRow? ==> e == Route(s.procs[i].req.addr, |s.pipes|)
    ensures PutsAtHome(Issue(s, i, e, pc))
  {
    hide Route, RowKey, StartsWith;
    var t, r := Issue(s, i, e, pc), s.procs[i].req;
    forall f, op | 0 <= f < |t.pipes| && op in t.pipes[f].accepted && op.Put?
      ensures Lives(op.key, f, |t.pipes|)
    {
      if op !in s.pipes[f].accepted {
        assert f == e && op == OpFor(r, s.next);
        assert Good(r.addr) && RowKey(r.addr) == op.key && Route(r.addr, |t.pipes|) == f;
      }
    }
  }

  lemma DoAtHome(s: System, act: Action)
    requires Safe(s) && PutsAtHome(s) && CanDo(s, act)
    ensures PutsAtHome(Do(s, act))
  {
    hide Lives, InOrder, OpFor, Route, RowKey, Cacheable, Home, WriteOk;
    match act
    case Engine(e, step) =>
      StepInOrder(s.pipes[e], step) by { assert PipesOk(s); }
      hide StepPipe, CanStep;
    case Advance(i) =>
      assert s.procs[i] in s.procs;
      var p := s.procs[i];
      if p.pc.Send? && !p.req.GetRow? {
        if !p.req.Truncate? {
          IssueAtHome(s, i, Route(p.req.addr, |s.pipes|), Settle);
        } else if |p.issued| < |s.pipes| {
          IssueAtHome(s, i, |p.issued|, Send);
        }
      } else {
        assert Do(s, act).pipes == s.pipes;
      }
    case _ =>
  }

  lemma {:induction false} RunAtHome(s: System, acts: seq<Action>)
    requires Safe(s) && PutsAtHome(s) && Runs(s, acts)
    ensures PutsAtHome(Final(s, acts))
    decreases |acts|
  {
    hide Safe, PutsAtHome, CanDo, Do;
    if acts != [] {
      DoSafe(s, acts[0]);
      DoAtHome(s, acts[0]);
      RunAtHome(Do(s, acts[0]), acts[1..]);
    }
  }

  /** Whatever the interleaving, every engine only ever holds rows that route to it. */
  lemma ShardingKept(dbs: seq<Db>, caching: bool, acts: seq<Action>)
    requires dbs != [] && Sharded(dbs) && Runs(Fresh(dbs, caching), acts)
    ensures Sharded(Dbs(Final(Fresh(dbs, caching), acts)))
  {
    hide Lives, InOrder, Runs, Final, WriteOk;
    var s0 := Fresh(dbs, caching);
    var s := Final(s0, acts);
    FreshSafe(dbs, caching);
    RunSafe(s0, acts);
    RunAtHome(s0, acts);
    forall e, k | 0 <= e < |s.pipes| && k in s.pipes[e].db
      ensures Lives(k, e, |s.pipes|)
    {
      var p := s.pipes[e];
      assert GrowsPipe(s0.pipes[e], p);
      KeyHasOrigin(p, k);
    }
  }

  /** A key an engine holds was there from the start or was put. */
  lemma KeyHasOrigin(p: Pipe, k: bytes)
    requires InOrder(p) && k in p.db
    ensures k in p.base || exists op :: op in p.accepted && op.Put? && op.key == k
  {
    hide Flatten, Tickets;
    var written := p.accepted[..Committed(p)];
    LastWriterWins(p.base, written, k);
    var i := LastTouch(written, k);
    if i >= 0 {
      assert written[i] == p.accepted[i] && p.accepted[i] in p.accepted;
    }
  }

  /** Rows of one partition, full or partial but not empty, are all on the engine its first
      part routes to: scanning that engine alone finds every one of them. */
  lemma PartitionOnOneEngine(dbs: seq<Db>, part: Address, e: nat, k: bytes)
    requires Sharded(dbs) && Good(part) && part.parts != []
    requires e < |dbs| && k in dbs[e] && StartsWith(k, RowKey(part))
    ensures e == Route(part, |dbs|)
  {
    hide EncodeKey, DataPrefix, Fnv1aFrom;
    assert StartsWith(k, DT_PREFIX) by { DataKey(part, k); }
    assert Lives(k, e, |dbs|);
    var a :| Good(a) && RowKey(a) == k && Route(a, |dbs|) == e;
    assert StartsWith(k, DataPrefix(part.keyspace, part.table));
    TableOfKey(a, part.keyspace, part.table);
    PartitionOfKey(a, part.parts);
    assert a.parts[0] == part.parts[0];
  }

  lemma DataKey(part: Address, k: bytes)
    requires StartsWith(k, RowKey(part))
    ensures StartsWith(k, DT_PREFIX)
  {
    hide EncodeKey;
    assert RowKey(part)[..3] == DT_PREFIX && k[..3] == RowKey(part)[..3];
  }

  /** `for_each_in_partition` on the routed engine visits exactly the rows, on any engine,
      whose key parts begin with the partition's. */
  lemma PartitionScanIsComplete(dbs: seq<Db>, part: Address, row: Row)
    requires dbs != [] && Sharded(dbs) && Good(part) && part.parts != []
    ensures row in RowsBelow(dbs[Route(part, |dbs|)], RowKey(part)) <==>
            exists e :: 0 <= e < |dbs| && row.key in dbs[e] && dbs[e][row.key] == row.val
                        && StartsWith(row.key, RowKey(part))
  {
    hide Lives, RowKey, Route, Sharded;
    var home := Route(part, |dbs|);
    RouteInRange(part, |dbs|);
    RowsBelowMembers(dbs[home], RowKey(part), row);
    forall e | 0 <= e < |dbs| && row.key in dbs[e] && StartsWith(row.key, RowKey(part))
      ensures e == home
    {
      PartitionOnOneEngine(dbs, part, e, row.key);
    }
  }

  lemma RowsBelowMembers(db: Db, prefix: bytes, row: Row)
    ensures row in RowsBelow(db, prefix) <==> row.key in db && db[row.key] == row.val && StartsWith(row.key, prefix)
  {
    hide SortedKeys;
    RowsBelowAt(db, prefix);
    SortedMembers(KeysBelow(db, prefix));
    var ks, rows := SortedKeys(KeysBelow(db, prefix)), RowsBelow(db, prefix);
    if row in rows {
      var i :| 0 <= i < |rows| && rows[i] == row;
      assert ks[i] in ks;
    }
    if row.key in db && db[row.key] == row.val && StartsWith(row.key, prefix) {
      assert row.key in ks;
      var i :| 0 <= i < |ks| && ks[i] == row.key;
      assert rows[i] == row;
    }
  }

  /** DROP TABLE, TRUNCATE and DROP KEYSPACE are exact: when such a call was the last to
      begin and every call has been answered, no engine holds a key below the scope's prefix,
      and every row outside the scope is what it was. */
  lemma WipeIsExact(dbs: seq<Db>, caching: bool, m: Rows, acts: seq<Action>, scope: Scope)
    requires dbs != [] && Sharded(dbs) && Represents(dbs, m)
    requires Runs(Fresh(dbs, caching), acts) && OrderlyRun(Fresh(dbs, caching), acts)
    requires var s := Final(Fresh(dbs, caching), acts);
             && s.procs != [] && s.procs[|s.procs| - 1].req == Truncate(scope)
             && forall p <- s.procs :: p.pc.Acked?
    ensures var s := Final(Fresh(dbs, caching), acts);
            && (forall e, k | 0 <= e < |s.pipes| && k in s.pipes[e].db :: !StartsWith(k, ScopePrefix(scope)))
            && s.pipes != []
            && forall a | Good(a) && !Hits(Truncate(scope), a) ::
                 Lookup(Home(s, a).db, RowKey(a)) == Lookup(Replay(m, s.procs[..|s.procs| - 1]), a)
  {
    hide Runs, Final, OrderlyRun, Represents, Lives, Route, Sharded, DataPrefix, KeyspacePrefix, RowKey, StartsWith;
    var s0 := Fresh(dbs, caching);
    var s := Final(s0, acts);
    FreshSafe(dbs, caching);
    RunSafe(s0, acts);
    ShardingKept(dbs, caching, acts);
    assert s.procs[|s.procs| - 1] in s.procs;
    forall a | Good(a)
      ensures Lookup(Home(s, a).db, RowKey(a)) ==
              if Hits(Truncate(scope), a) then None else Lookup(Replay(m, s.procs[..|s.procs| - 1]), a)
    {
      assert Free(s, a) by { AllAnswered(s, a); }
      RestingRowsAreCoherent(dbs, caching, m, acts, a);
    }
    forall e, k | 0 <= e < |s.pipes| && k in s.pipes[e].db
      ensures !StartsWith(k, ScopePrefix(scope))
    {
      if StartsWith(k, ScopePrefix(scope)) {
        ShardedKey(Dbs(s), scope, e, k);
        var a :| Good(a) && RowKey(a) == k && Route(a, |s.pipes|) == e;
        assert Home(s, a) == s.pipes[e];
        ScopeOfKey(scope, a);
      }
    }
  }

  lemma AllAnswered(s: System, a: Address)
    requires forall p <- s.procs :: p.pc.Acked?
    ensures Free(s, a)
  {
    forall i | 0 <= i < |s.procs|
      ensures !Writing(s.procs[i], a)
    {
      assert s.procs[i] in s.procs;
    }
  }

  lemma ShardedKey(dbs: seq<Db>, scope: Scope, e: nat, k: bytes)
    requires Sharded(dbs) && e < |dbs| && k in dbs[e] && StartsWith(k, ScopePrefix(scope))
    ensures exists a :: Good(a) && RowKey(a) == k && Route(a, |dbs|) == e
  {
    assert ScopePrefix(scope)[..3] == DT_PREFIX && k[..3] == ScopePrefix(scope)[..3];
    assert Lives(k, e, |dbs|);
  }

  lemma ScopeOfKey(scope: Scope, a: Address)
    requires Good(a) && Proper(Truncate(scope)) && StartsWith(RowKey(a), ScopePrefix(scope))
    ensures Hits(Truncate(scope), a)
  {
    match scope
    case Keyspace(ks) => KeyspaceOfKey(a, ks);
    case Table(ks, tb) => TableOfKey(a, ks, tb);
  }
}
