/** Why the coherence result needs its restriction: a concrete run in which a read overlaps
    a delete of the same row (src/storage.rs). */
module Overlap {
  import opened Bytes
  import opened Keys
  import opened Pipeline
  import opened Protocol

  ghost predicate Reaches(s: System, acts: seq<Action>, t: System) {
    Runs(s, acts) && Final(s, acts) == t
  }

  lemma {:induction false} Extend(s: System, acts: seq<Action>, t: System, act: Action, u: System)
    requires Reaches(s, acts, t) && CanDo(t, act) && Do(t, act) == u
    ensures Reaches(s, acts + [act], u)
    decreases |acts|
  {
    hide CanDo, Do;
    if acts == [] {
      assert acts + [act] == [act] && [act][1..] == [];
      assert Runs(u, []) && Final(u, []) == u;
    } else {
      assert (acts + [act])[0] == acts[0] && (acts + [act])[1..] == acts[1..] + [act];
      Extend(Do(s, acts[0]), acts[1..], t, act, u);
    }
  }

  /** The run so far, followed by its `n`-th action. */
  lemma Follow(s: System, run: seq<Action>, n: nat, t: System, u: System)
    requires n < |run| && Reaches(s, run[..n], t) && CanDo(t, run[n]) && Do(t, run[n]) == u
    ensures Reaches(s, run[..n + 1], u)
  {
    hide Reaches, CanDo, Do;
    Extend(s, run[..n], t, run[n], u);
    assert run[..n] + [run[n]] == run[..n + 1];
  }

  /** `delete_row` evicts (call 0, first step); a `get_row` (call 1) misses the cache and reads
      the engine before the tombstone is even queued; the delete runs to its answer; the
      `get_row` fills the cache; a later `get_row` (call 2) is served from there. */
  function OverlapRun(a: Address): seq<Action> {
    [Begin(DeleteRow(a)), Begin(GetRow(a)), Advance(0), Advance(1), Advance(1),
     Advance(0), Engine(0, Recv), Engine(0, Handoff), Engine(0, Write), Engine(0, Wake),
     Advance(0), Advance(0), Advance(1), Begin(GetRow(a)), Advance(2)]
  }

  /** Without the restriction the cache can resurrect a deleted row: the delete is answered,
      its engine no longer holds the row, and a read begun afterwards still returns it. */
  lemma OverlapResurrectsARow(a: Address, v: bytes)
    requires Good(a) && ShouldCache(a.keyspace)
    ensures var s0 := Fresh([map[RowKey(a) := v]], true);
            && Runs(s0, OverlapRun(a))
            && var s := Final(s0, OverlapRun(a));
            && |s.procs| == 3 && s.pipes != []
            && s.procs[0].req == DeleteRow(a) && s.procs[0].pc.Acked?
            && RowKey(a) !in Home(s, a).db
            && s.procs[2].req == GetRow(a) && s.procs[2].pc.Acked? && s.procs[2].found == Some(v)
  {
    hide RowKey, Route, Reaches, Runs, Final, CanDo, Do;
    var s0, run := Fresh([map[RowKey(a) := v]], true), OverlapRun(a);
    var r := Proc(GetRow(a), Look, None, [], 0);
    MissedRead(a, v);
    var s5 := Single(Opened(map[RowKey(a) := v]), map[], 0, [Proc(DeleteRow(a), Send, None, [], 0),
        r.(pc := Fill, found := Some(v))]);
    var s12 := DeletedMeanwhile(a, v, s5);
    var p, d := s12.pipes[0], s12.procs[0];
    var s13 := Single(p, map[RowKey(a) := v], 1, [d, r.(pc := Acked, found := Some(v))]);
    StaleFill(a, v, s12, s13);
    Follow(s0, run, 12, s12, s13);
    var s14 := Single(p, s13.cache, 1, [d, s13.procs[1], r]);
    BeginOne(s13, GetRow(a), s14);
    Follow(s0, run, 13, s13, s14);
    var s15 := Single(p, s13.cache, 1, [d, s13.procs[1], r.(pc := Acked, found := Some(v))]);
    StaleHit(a, v, s14, s15);
    Follow(s0, run, 14, s14, s15);
    assert run[..15] == run;
    ReachesDef(s0, run, s15);
    RouteOne(a);
  }

  /** A system with one caching engine. */
  function Single(p: Pipe, cache: map<bytes, bytes>, next: nat, procs: seq<Proc>): System {
    System([p], true, cache, next, procs, true)
  }

  lemma ReachesDef(s: System, acts: seq<Action>, t: System)
    requires Reaches(s, acts, t)
    ensures Runs(s, acts) && Final(s, acts) == t
  {
  }

  lemma ReachesNil(s: System)
    ensures Reaches(s, [], s)
  {
  }

  lemma FreshSingle(db: Db)
    ensures Fresh([db], true) == Single(Opened(db), map[], 0, [])
  {
    assert OpenedPipes([db]) == [Opened(db)];
  }

  lemma BeginOne(s: System, r: Request, t: System)
    requires s.pipes != [] && s.accepting && Proper(r) && t == s.(procs := s.procs + [Started(r)])
    ensures CanDo(s, Begin(r)) && Do(s, Begin(r)) == t
  {
  }

  lemma EvictOne(a: Address, s: System, t: System)
    requires s.pipes != [] && |s.procs| == 2 && s.cache == map[] && s.procs[0] == Proc(DeleteRow(a), Touch, None, [], 0)
    requires t == s.(procs := [s.procs[0].(pc := Send), s.procs[1]])
    ensures CanDo(s, Advance(0)) && Do(s, Advance(0)) == t
  {
    hide RowKey, Route;
    assert s.procs[0 := s.procs[0].(pc := Send)] == t.procs;
    assert s.cache - {RowKey(a)} == s.cache;
  }

  lemma MissOne(a: Address, s: System, t: System)
    requires s.pipes != [] && |s.procs| == 2 && s.cache == map[] && s.procs[1] == Proc(GetRow(a), Look, None, [], 0)
    requires t == s.(procs := [s.procs[0], s.procs[1].(pc := Fetch)])
    ensures CanDo(s, Advance(1)) && Do(s, Advance(1)) == t
  {
    hide RowKey, Route;
    assert s.procs[1 := s.procs[1].(pc := Fetch)] == t.procs;
  }

  lemma FetchOne(a: Address, v: bytes, s: System, t: System)
    requires |s.pipes| == 1 && |s.procs| == 2 && s.procs[1] == Proc(GetRow(a), Fetch, None, [], 0)
    requires Lookup(s.pipes[0].db, RowKey(a)) == Some(v)
    requires t == s.(procs := [s.procs[0], s.procs[1].(pc := Fill, found := Some(v))])
    ensures CanDo(s, Advance(1)) && Do(s, Advance(1)) == t
  {
    hide RowKey, Route;
    RouteOne(a);
    assert s.procs[1 := s.procs[1].(pc := Fill, found := Some(v))] == t.procs;
  }

  lemma SendOne(a: Address, s: System, t: System)
    requires |s.pipes| == 1 && |s.procs| == 2 && s.next == 0 && s.procs[0] == Proc(DeleteRow(a), Send, None, [], 0)
    requires t == s.(pipes := [Enqueue(s.pipes[0], Delete(RowKey(a), 0))], next := 1,
                     procs := [Proc(DeleteRow(a), Settle, None, [Gate(0, 0)], 0), s.procs[1]])
    ensures CanDo(s, Advance(0)) && Do(s, Advance(0)) == t
  {
    hide RowKey, Route, Enqueue;
    RouteOne(a);
    assert s.pipes[0 := t.pipes[0]] == t.pipes;
    assert s.procs[0].issued + [Gate(0, 0)] == [Gate(0, 0)];
    assert s.procs[0 := t.procs[0]] == t.procs;
  }

  lemma StaleFill(a: Address, v: bytes, s: System, t: System)
    requires s.pipes != [] && s.caching && ShouldCache(a.keyspace) && |s.procs| == 2 && s.cache == map[]
    requires s.procs[1] == Proc(GetRow(a), Fill, Some(v), [], 0)
    requires t == s.(cache := map[RowKey(a) := v], procs := [s.procs[0], s.procs[1].(pc := Acked)])
    ensures CanDo(s, Advance(1)) && Do(s, Advance(1)) == t
  {
    hide RowKey, Route;
    assert s.procs[1 := s.procs[1].(pc := Acked)] == t.procs;
    assert s.cache[RowKey(a) := v] == t.cache;
  }

  lemma StaleHit(a: Address, v: bytes, s: System, t: System)
    requires s.pipes != [] && s.caching && ShouldCache(a.keyspace) && |s.procs| == 3
    requires RowKey(a) in s.cache && s.cache[RowKey(a)] == v && s.procs[2] == Proc(GetRow(a), Look, None, [], 0)
    requires t == s.(procs := s.procs[2 := s.procs[2].(pc := Acked, found := Some(v))])
    ensures CanDo(s, Advance(2)) && Do(s, Advance(2)) == t
  {
    hide RowKey, Route;
  }

  /** The first five steps: the row is evicted and its old value read. */
  lemma MissedRead(a: Address, v: bytes)
    requires Good(a) && ShouldCache(a.keyspace)
    ensures var db: Db := map[RowKey(a) := v];
            Reaches(Fresh([db], true), OverlapRun(a)[..5],
                    Single(Opened(db), map[], 0, [Proc(DeleteRow(a), Send, None, [], 0),
                        Proc(GetRow(a), Fill, Some(v), [], 0)]))
  {
    hide RowKey, Runs, Reaches, CanDo, Do, Fresh;
    var db: Db := map[RowKey(a) := v];
    var s0, run := Fresh([db], true), OverlapRun(a);
    FreshSingle(db);
    assert run[..0] == [];
    ReachesNil(s0);
    var d, r := Proc(DeleteRow(a), Touch, None, [], 0), Proc(GetRow(a), Look, None, [], 0);
    var s1, s2 := s0.(procs := [d]), s0.(procs := [d, r]);
    BeginOne(s0, DeleteRow(a), s1);
    Follow(s0, run, 0, s0, s1);
    BeginOne(s1, GetRow(a), s2);
    Follow(s0, run, 1, s1, s2);
    var s3, s4 := s0.(procs := [d.(pc := Send), r]), s0.(procs := [d.(pc := Send), r.(pc := Fetch)]);
    EvictOne(a, s2, s3);
    Follow(s0, run, 2, s2, s3);
    MissOne(a, s3, s4);
    Follow(s0, run, 3, s3, s4);
    var s5 := s0.(procs := [d.(pc := Send), r.(pc := Fill, found := Some(v))]);
    FetchOne(a, v, s4, s5);
    Follow(s0, run, 4, s4, s5);
  }

  /** The next seven: the delete is sent, committed, awaited and answered. */
  lemma DeletedMeanwhile(a: Address, v: bytes, s5: System) returns (s12: System)
    requires var db: Db := map[RowKey(a) := v];
             && s5 == Single(Opened(db), map[], 0, [Proc(DeleteRow(a), Send, None, [], 0),
                 Proc(GetRow(a), Fill, Some(v), [], 0)])
             && Reaches(Fresh([db], true), OverlapRun(a)[..5], s5)
    ensures Reaches(Fresh([map[RowKey(a) := v]], true), OverlapRun(a)[..12], s12)
    ensures |s12.pipes| == 1 && RowKey(a) !in s12.pipes[0].db
    ensures s12 == Single(s12.pipes[0], map[], 1, [Proc(DeleteRow(a), Acked, None, [Gate(0, 0)], 1), s5.procs[1]])
  {
    hide RowKey, Runs, Reaches, CanDo, Do, StepPipe;
    var s0, run := Fresh([map[RowKey(a) := v]], true), OverlapRun(a);
    var p0, r := s5.pipes[0], s5.procs[1];
    var del := Delete(RowKey(a), 0);
    var p1 := Enqueue(p0, del);
    var d1 := Proc(DeleteRow(a), Settle, None, [Gate(0, 0)], 0);
    var s6 := Single(p1, map[], 1, [d1, r]);
    SendOne(a, s5, s6);
    Follow(s0, run, 5, s5, s6);
    var p2 := p1.(queue := [], open := [del]);
    var p3 := p2.(open := [], commits := [[del]]);
    var p4 := p3.(commits := [], landed := [del], db := Apply(p1.db, del));
    var p5 := p4.(landed := [], done := p1.done + {0});
    CommitOne(p1, del);
    EngineOne(s6, Recv, p2);
    Follow(s0, run, 6, s6, s6.(pipes := [p2]));
    EngineOne(s6.(pipes := [p2]), Handoff, p3);
    Follow(s0, run, 7, s6.(pipes := [p2]), s6.(pipes := [p3]));
    EngineOne(s6.(pipes := [p3]), Write, p4);
    Follow(s0, run, 8, s6.(pipes := [p3]), s6.(pipes := [p4]));
    var s10 := s6.(pipes := [p5]);
    EngineOne(s6.(pipes := [p4]), Wake, p5);
    Follow(s0, run, 9, s6.(pipes := [p4]), s10);
    var s11 := s10.(procs := [d1.(waited := 1), r]);
    SettleOne(s10, s11);
    Follow(s0, run, 10, s10, s11);
    s12 := s10.(procs := [d1.(waited := 1, pc := Acked), r]);
    SettleOne(s11, s12);
    Follow(s0, run, 11, s11, s12);
  }

  lemma EngineOne(s: System, step: PipeStep, p: Pipe)
    requires |s.pipes| == 1 && CanStep(s.pipes[0], step) && StepPipe(s.pipes[0], step) == p
    ensures CanDo(s, Engine(0, step)) && Do(s, Engine(0, step)) == s.(pipes := [p])
  {
    hide CanStep, StepPipe;
    assert s.pipes[0 := p] == [p];
  }

  lemma SettleOne(s: System, t: System)
    requires |s.pipes| == 1 && |s.procs| == 2 && s.procs[0].req.DeleteRow? && s.procs[0].pc.Settle?
    requires s.procs[0].issued == [Gate(0, 0)] && 0 in s.pipes[0].done && s.procs[0].waited <= 1
    requires t == s.(procs := [if s.procs[0].waited == 0 then s.procs[0].(waited := 1) else s.procs[0].(pc := Acked),
        s.procs[1]])
    ensures CanDo(s, Advance(0)) && Do(s, Advance(0)) == t
  {
    assert s.procs[0 := t.procs[0]] == t.procs;
  }

  /** One queued operation travels through an otherwise idle engine. */
  lemma CommitOne(p: Pipe, op: Op)
    requires p.queue == [op] && p.open == [] && p.commits == [] && p.landed == []
    ensures var p2 := p.(queue := [], open := [op]);
            var p3 := p2.(open := [], commits := [[op]]);
            var p4 := p3.(commits := [], landed := [op], db := Apply(p.db, op));
            && CanStep(p, Recv) && StepPipe(p, Recv) == p2
            && CanStep(p2, Handoff) && StepPipe(p2, Handoff) == p3
            && CanStep(p3, Write) && StepPipe(p3, Write) == p4
            && CanStep(p4, Wake) && StepPipe(p4, Wake) == p4.(landed := [], done := p.done + {op.ticket})
  {
    hide Apply;
    assert ApplyAll(p.db, [op]) == Apply(p.db, op);
    assert Tickets([op]) == {op.ticket} by { assert [op][0].ticket in Tickets([op]); }
  }

  lemma RouteOne(a: Address)
    ensures Route(a, 1) == 0
  {
  }
}
