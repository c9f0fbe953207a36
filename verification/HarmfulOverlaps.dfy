/** The remaining overlaps do harm: for every other pair of calls on one row there is a run,
    on one engine, after which the cache and the engine disagree (src/storage.rs). */
module HarmfulOverlaps {
  import opened Bytes
  import opened Keys
  import opened Pipeline
  import opened Protocol
  import opened Guarantees
  import opened Coherence
  import opened Overlap
  import opened Agreement

  /* ---------- Finishing a run ---------- */

  /** Every call has been answered or only has tickets left to await. */
  ghost predicate Winding(s: System) {
    forall i | 0 <= i < |s.procs| :: s.procs[i].pc.Acked? || (s.procs[i].pc.Settle? && !s.procs[i].req.GetRow?)
  }

  ghost predicate SameCalls(s: System, t: System) {
    |t.procs| == |s.procs| && forall i | 0 <= i < |s.procs| :: t.procs[i].req == s.procs[i].req
  }

  /** How many awaits and answers are left. */
  function Left(procs: seq<Proc>): nat {
    if procs == [] then 0 else
    var p := procs[0];
    (if p.pc.Acked? || p.waited > |p.issued| then 0 else |p.issued| - p.waited + 1) + Left(procs[1..])
  }

  lemma {:induction false} LeftShrinks(procs: seq<Proc>, i: nat, p: Proc)
    requires i < |procs| && !procs[i].pc.Acked? && procs[i].waited <= |procs[i].issued|
    requires p == procs[i].(pc := Acked) || (p == procs[i].(waited := procs[i].waited + 1) && p.waited <= |p.issued|)
    ensures Left(procs[i := p]) < Left(procs)
    decreases |procs|
  {
    if i == 0 {
      assert procs[i := p][1..] == procs[1..];
    } else {
      assert procs[i := p][1..] == procs[1..][i - 1 := p];
      LeftShrinks(procs[1..], i - 1, p);
    }
  }

  ghost predicate Drained(s: System) {
    forall e | 0 <= e < |s.pipes| :: s.pipes[e].done == Tickets(s.pipes[e].accepted)
  }

  lemma AnswerOne(s: System, i: nat)
    requires Safe(s) && Winding(s) && Drained(s) && i < |s.procs| && !s.procs[i].pc.Acked?
    ensures CanDo(s, Advance(i))
    ensures var t := Do(s, Advance(i));
            && Winding(t) && t.pipes == s.pipes && t.cache == s.cache && SameCalls(s, t)
            && Left(t.procs) < Left(s.procs)
  {
    hide PipesOk, Left, OpFor, Route, Awake, Drained;
    SafePipes(s);
    var p := s.procs[i];
    assert p in s.procs && WriteOk(s, p);
    if p.waited < |p.issued| {
      TicketCompleted(s, i, p.waited);
    }
    var t := Do(s, Advance(i));
    assert t == StepSettle(s, i);
    LeftShrinks(s.procs, i, t.procs[i]);
  }

  /** With every ticket completed, the calls can be answered one step after the other. */
  lemma {:induction false} AnswerAll(s: System) returns (acts: seq<Action>)
    requires Safe(s) && Winding(s) && Drained(s)
    ensures Runs(s, acts) && forall p <- Final(s, acts).procs :: p.pc.Acked?
    ensures SameCalls(s, Final(s, acts)) && Final(s, acts).cache == s.cache && Final(s, acts).pipes == s.pipes
    decreases Left(s.procs)
  {
    hide Safe, Left, Winding, CanDo, Do;
    if forall p <- s.procs :: p.pc.Acked? {
      acts := [];
    } else {
      var i :| 0 <= i < |s.procs| && !s.procs[i].pc.Acked?;
      AnswerOne(s, i);
      DoSafe(s, Advance(i));
      var rest := AnswerAll(Do(s, Advance(i)));
      acts := [Advance(i)] + rest;
      assert acts[1..] == rest;
    }
  }

  lemma TicketCompleted(s: System, i: nat, j: nat)
    requires Safe(s) && Drained(s) && i < |s.procs| && !s.procs[i].req.GetRow? && j < |s.procs[i].issued|
    ensures Awake(s, s.procs[i].issued[j])
  {
    hide PipesOk, OpFor, Route;
    var p := s.procs[i];
    var g := p.issued[j];
    assert p in s.procs && WriteOk(s, p) && g in p.issued && Sent(s, p.req, g);
    var ops := s.pipes[g.engine].accepted;
    var k :| 0 <= k < |ops| && ops[k] == OpFor(p.req, g.ticket);
    TicketOf(p.req, g.ticket);
    assert ops[k].ticket in Tickets(ops);
  }

  /** A run whose calls only await tickets can be completed: the cache stays as it is and the
      engines end up with everything sent to them. */
  lemma Finish(s: System) returns (acts: seq<Action>)
    requires Safe(s) && Winding(s)
    ensures Runs(s, acts)
    ensures var t := Final(s, acts);
            && SameCalls(s, t) && (forall p <- t.procs :: p.pc.Acked?) && t.cache == s.cache && |t.pipes| == |s.pipes|
            && forall e | 0 <= e < |s.pipes| :: t.pipes[e].db == View(s.pipes[e])
  {
    hide Runs, Final, InOrder, Safe, Stuck, ApplyAll, Pending;
    var drain := DrainExists(s);
    RunSafe(s, drain);
    var d := Final(s, drain);
    EngineKeeps(s, drain);
    forall e | 0 <= e < |s.pipes|
      ensures d.pipes[e].done == Tickets(d.pipes[e].accepted) && d.pipes[e].db == View(s.pipes[e])
    {
      DrainedIsComplete(s, drain, e);
      DrainIsBounded(s, drain);
      SafeInOrder(s, e);
      ViewIsSequential(s.pipes[e]);
    }
    var answers := AnswerAll(d);
    acts := drain + answers;
    RunsAppend(s, drain, answers);
  }

  lemma SafeInOrder(s: System, e: nat)
    requires Safe(s) && e < |s.pipes|
    ensures InOrder(s.pipes[e])
  {
  }

  lemma {:induction false} EngineKeeps(s: System, acts: seq<Action>)
    requires Runs(s, acts) && EngineOnly(acts)
    ensures Final(s, acts).procs == s.procs && Final(s, acts).cache == s.cache
    decreases |acts|
  {
    hide CanStep, StepPipe;
    if acts != [] {
      EngineKeeps(Do(s, acts[0]), acts[1..]);
    }
  }

  lemma {:induction false} RunsAppend(s: System, a: seq<Action>, b: seq<Action>)
    requires Runs(s, a) && Runs(Final(s, a), b)
    ensures Runs(s, a + b) && Final(s, a + b) == Final(Final(s, a), b)
    decreases |a|
  {
    hide CanDo, Do;
    if a == [] {
      assert a + b == b;
    } else {
      assert (a + b)[0] == a[0] && (a + b)[1..] == a[1..] + b;
      RunsAppend(Do(s, a[0]), a[1..], b);
    }
  }

  /* ---------- Single steps on one engine ---------- */

  ghost predicate Steps(s: System, i: nat, t: System) {
    CanDo(s, Advance(i)) && Do(s, Advance(i)) == t
  }

  lemma ReadStep(s: System, i: nat, a: Address)
    requires |s.pipes| == 1 && i < |s.procs| && s.procs[i].req == GetRow(a) && s.caching && ShouldCache(a.keyspace)
    ensures var p := s.procs[i];
            match p.pc
            case Look => (RowKey(a) !in s.cache ==> Steps(s, i, Replace(s, i, p.(pc := Fetch))))
            case Fetch => Steps(s, i, Replace(s, i, p.(pc := Fill, found := Lookup(s.pipes[0].db, RowKey(a)))))
            case Fill =>
              (p.found.Some? ==>
                 Steps(s, i, Replace(s.(cache := s.cache[RowKey(a) := p.found.value]), i, p.(pc := Acked))))
            case _ => true
  {
    hide RowKey, Route;
    RouteOne(a);
  }

  /** What the cache holds after a put or delete touched it. */
  function Touched(cache: map<bytes, bytes>, r: Request): map<bytes, bytes>
    requires r.PutRow? || r.DeleteRow?
  {
    if r.PutRow? then cache[RowKey(r.addr) := r.row] else cache - {RowKey(r.addr)}
  }

  lemma WriteStep(s: System, i: nat)
    requires |s.pipes| == 1 && i < |s.procs| && s.caching
    requires s.procs[i].req.PutRow? || s.procs[i].req.DeleteRow?
    requires ShouldCache(s.procs[i].req.addr.keyspace)
    ensures var p := s.procs[i];
            && (p.pc.Touch? ==> Steps(s, i, Replace(s.(cache := Touched(s.cache, p.req)), i, p.(pc := Send))))
            && (p.pc.Send? ==> Steps(s, i, Issue(s, i, 0, Settle)))
  {
    hide RowKey, Route, Enqueue, OpFor;
    RouteOne(s.procs[i].req.addr);
  }

  lemma TruncateStep(s: System, i: nat)
    requires |s.pipes| == 1 && i < |s.procs| && s.procs[i].req.Truncate? && s.procs[i].pc.Send?
    ensures if s.procs[i].issued == [] then Steps(s, i, Issue(s, i, 0, Send))
            else Steps(s, i, Replace(s.(cache := map[]), i, s.procs[i].(pc := Settle)))
  {
    hide Enqueue, OpFor;
  }

  lemma StepFollows(s: System, acts: seq<Action>, t: System, i: nat, u: System)
    requires Reaches(s, acts, t) && Steps(t, i, u)
    ensures Reaches(s, acts + [Advance(i)], u)
  {
    hide Reaches, CanDo, Do;
    Extend(s, acts, t, Advance(i), u);
  }

  /* ---------- The two bad orders ---------- */

  lemma BeginBoth(db: Db, r: Request, q: Request)
    requires Proper(r) && Proper(q)
    ensures Reaches(Fresh([db], true), [Begin(r), Begin(q)], Single(Opened(db), map[], 0, [Started(r), Started(q)]))
  {
    hide Reaches, Proper, Fresh, CanDo, Do;
    FreshSingle(db);
    var s0 := Fresh([db], true);
    var s1, s2 := s0.(procs := [Started(r)]), s0.(procs := [Started(r), Started(q)]);
    ReachesNil(s0);
    BeginOne(s0, r, s1);
    Extend(s0, [], s0, Begin(r), s1);
    BeginOne(s1, q, s2);
    assert [] + [Begin(r)] == [Begin(r)] && [Begin(r)] + [Begin(q)] == [Begin(r), Begin(q)];
    Extend(s0, [Begin(r)], s1, Begin(q), s2);
  }

  /** The outcome of both calls, up to awaiting tickets: the row is cached with another value
      than its engine will hold. */
  ghost predicate Astray(s: System, r: Request, q: Request, a: Address) {
    && |s.pipes| == 1 && Winding(s) && |s.procs| == 2 && s.procs[0].req == r && s.procs[1].req == q
    && RowKey(a) in s.cache && Lookup(View(s.pipes[0]), RowKey(a)) != Some(s.cache[RowKey(a)])
  }

  /** The two steps of a write, from its begin to its tickets. */
  lemma TwoSteps(s: System, i: nat, w: Request, a: Address) returns (mid: System, t: System)
    requires |s.pipes| == 1 && i < |s.procs| && s.procs[i] == Started(w) && !w.GetRow? && s.caching
    requires Proper(w) && Good(a) && Hits(w, a) && ShouldCache(a.keyspace)
    ensures Steps(s, i, mid) && Steps(mid, i, t)
    ensures |t.pipes| == 1 && t.caching && |t.procs| == |s.procs| && t.procs == s.procs[i := t.procs[i]]
    ensures t.procs[i].req == w && t.procs[i].pc.Settle?
    ensures t.pipes[0] == Enqueue(s.pipes[0], OpFor(w, s.next))
  {
    hide RowKey, OpFor, Enqueue, Steps, Proper, Touched;
    var p := s.procs[i];
    if w.Truncate? {
      TruncateStep(s, i);
      mid := Issue(s, i, 0, Send);
      TruncateStep(mid, i);
      t := Replace(mid.(cache := map[]), i, mid.procs[i].(pc := Settle));
    } else {
      WriteStep(s, i);
      mid := Replace(s.(cache := Touched(s.cache, w)), i, p.(pc := Send));
      WriteStep(mid, i);
      t := Issue(mid, i, 0, Settle);
    }
  }

  /** A read fetches, a write runs up to its tickets, the read fills the cache. */
  lemma ReadGoesAstray(a: Address, w: Request, v: bytes) returns (acts: seq<Action>, t: System)
    requires Good(a) && ShouldCache(a.keyspace) && Proper(w) && Hits(w, a) && !w.GetRow? && Outcome(w) != Some(v)
    ensures Reaches(Fresh([map[RowKey(a) := v]], true), acts, t) && Astray(t, GetRow(a), w, a)
  {
    hide RowKey, OpFor, Enqueue, Steps, Reaches, Fresh, Proper, Hits, View, Opened;
    var db: Db := map[RowKey(a) := v];
    var s0, r := Fresh([db], true), GetRow(a);
    BeginBoth(db, r, w) by { ProperRead(a); }
    acts := [Begin(r), Begin(w)];
    var s2 := Single(Opened(db), map[], 0, [Started(r), Started(w)]);
    OpenedAt(db);
    ReadStep(s2, 0, a);
    var s3 := Replace(s2, 0, s2.procs[0].(pc := Fetch));
    StepFollows(s0, acts, s2, 0, s3);
    acts := acts + [Advance(0)];
    ReadStep(s3, 0, a);
    var s4 := Replace(s3, 0, s3.procs[0].(pc := Fill, found := Some(v)));
    StepFollows(s0, acts, s3, 0, s4);
    acts := acts + [Advance(0)];
    var s5, s6 := TwoSteps(s4, 1, w, a);
    StepFollows(s0, acts, s4, 1, s5);
    acts := acts + [Advance(1)];
    StepFollows(s0, acts, s5, 1, s6);
    acts := acts + [Advance(1)];
    ReadStep(s6, 0, a);
    t := Replace(s6.(cache := s6.cache[RowKey(a) := v]), 0, s6.procs[0].(pc := Acked));
    StepFollows(s0, acts, s6, 0, t);
    acts := acts + [Advance(0)];
    OpTouches(w, 0, a);
    EnqueueView(Opened(db), OpFor(w, 0), RowKey(a));
  }

  lemma ProperRead(a: Address)
    requires Good(a)
    ensures Proper(GetRow(a))
  {
  }

  lemma OpenedAt(db: Db)
    ensures Opened(db).db == db
  {
  }

  /** A put slips between the cache access and the send of another write. */
  lemma WriteGoesAstray(a: Address, x: Request, row: bytes) returns (acts: seq<Action>, t: System)
    requires Good(a) && ShouldCache(a.keyspace) && (x.PutRow? || x.DeleteRow?) && x.addr == a && Outcome(x) != Some(row)
    ensures Reaches(Fresh([map[]], true), acts, t) && Astray(t, x, PutRow(a, row), a)
  {
    hide RowKey, OpFor, Enqueue, Steps, Reaches, Fresh, View, Opened;
    var s0, p := Fresh([map[]], true), PutRow(a, row);
    BeginBoth(map[], x, p);
    acts := [Begin(x), Begin(p)];
    var s2 := Single(Opened(map[]), map[], 0, [Started(x), Started(p)]);
    WriteStep(s2, 0);
    var s3 := Replace(s2.(cache := Touched(s2.cache, x)), 0, s2.procs[0].(pc := Send));
    StepFollows(s0, acts, s2, 0, s3);
    acts := acts + [Advance(0)];
    WriteStep(s3, 1);
    var s4 := Replace(s3.(cache := s3.cache[RowKey(a) := row]), 1, s3.procs[1].(pc := Send));
    StepFollows(s0, acts, s3, 1, s4);
    acts := acts + [Advance(1)];
    WriteStep(s4, 1);
    var s5 := Issue(s4, 1, 0, Settle);
    StepFollows(s0, acts, s4, 1, s5);
    acts := acts + [Advance(1)];
    WriteStep(s5, 0);
    t := Issue(s5, 0, 0, Settle);
    StepFollows(s0, acts, s5, 0, t);
    acts := acts + [Advance(0)];
    OpTouches(x, 1, a);
    EnqueueView(s5.pipes[0], OpFor(x, 1), RowKey(a));
  }

  /* ---------- Exactly the harmless pairs ---------- */

  /** Exactly the two calls were made, and both were answered. */
  ghost predicate BothAnswered(s: System, r: Request, q: Request) {
    && |s.procs| == 2 && s.procs[0].pc.Acked? && s.procs[1].pc.Acked?
    && ((s.procs[0].req == r && s.procs[1].req == q) || (s.procs[0].req == q && s.procs[1].req == r))
  }

  ghost predicate CacheRight(s: System, a: Address) {
    s.pipes != [] && (RowKey(a) in s.cache ==> Lookup(Home(s, a).db, RowKey(a)) == Some(s.cache[RowKey(a)]))
  }

  /** However the two calls are interleaved, on any engines, the row's cached copy is right
      once both are answered. */
  ghost predicate AlwaysRight(r: Request, q: Request, a: Address) {
    forall dbs: seq<Db>, caching: bool, acts: seq<Action> |
      dbs != [] && Runs(Fresh(dbs, caching), acts) && BothAnswered(Final(Fresh(dbs, caching), acts), r, q) ::
      CacheRight(Final(Fresh(dbs, caching), acts), a)
  }

  /** From a state gone astray the run completes with the cache wrong. */
  lemma AstrayEndsWrong(db: Db, acts: seq<Action>, t: System, r: Request, q: Request, a: Address)
    requires Reaches(Fresh([db], true), acts, t) && Astray(t, r, q, a)
    ensures !AlwaysRight(r, q, a) && !AlwaysRight(q, r, a)
  {
    hide Runs, Final, Safe, View, RowKey, Fresh, Route;
    var s0 := Fresh([db], true);
    ReachesDef(s0, acts, t);
    FreshSafe([db], true);
    RunSafe(s0, acts);
    var rest := Finish(t);
    RunsAppend(s0, acts, rest);
    var f := Final(s0, acts + rest);
    RouteOne(a);
    assert forall i | 0 <= i < |f.procs| :: f.procs[i] in f.procs;
    assert BothAnswered(f, r, q) && BothAnswered(f, q, r) && !CacheRight(f, a);
  }

  lemma HarmShows(r: Request, q: Request, a: Address)
    requires Proper(r) && Proper(q) && Good(a) && ShouldCache(a.keyspace) && Hits(r, a) && Hits(q, a) && !Harmless(r, q)
    ensures !AlwaysRight(r, q, a)
  {
    hide AlwaysRight, Reaches, Astray, Proper, RowKey;
    if r.GetRow? || q.GetRow? {
      var w := if r.GetRow? then q else r;
      var v: bytes := if w.PutRow? && w.row == [] then [0] else [];
      var acts, t := ReadGoesAstray(a, w, v);
      AstrayEndsWrong(map[RowKey(a) := v], acts, t, GetRow(a), w, a);
    } else {
      var p := if q.PutRow? then q else r;
      var x := if q.PutRow? then r else q;
      var acts, t := WriteGoesAstray(a, x, p.row);
      AstrayEndsWrong(map[], acts, t, x, p, a);
    }
  }

  /** The calls on record keep their requests, and later ones are added behind. */
  lemma {:induction false} CallsStay(s: System, acts: seq<Action>)
    requires Runs(s, acts)
    ensures |s.procs| <= |Final(s, acts).procs|
    ensures forall i | 0 <= i < |s.procs| :: Final(s, acts).procs[i].req == s.procs[i].req
    decreases |acts|
  {
    hide CanDo, Do;
    if acts != [] {
      CallsStep(s, acts[0]);
      CallsStay(Do(s, acts[0]), acts[1..]);
    }
  }

  lemma CallsStep(s: System, act: Action)
    requires CanDo(s, act)
    ensures |s.procs| <= |Do(s, act).procs|
    ensures forall i | 0 <= i < |s.procs| :: Do(s, act).procs[i].req == s.procs[i].req
    ensures act.Begin? ==> |Do(s, act).procs| == |s.procs| + 1 && Do(s, act).procs[|s.procs|].req == act.req
  {
    hide CanStep, StepPipe, StepGet, StepRow, StepTruncate;
    if act.Advance? {
      AdvanceFrame(s, act.pid);
    }
  }

  /** A run is tolerant if all the calls it ends with tolerate each other. */
  lemma {:induction false} TolerantCalls(s: System, acts: seq<Action>)
    requires Runs(s, acts)
    requires forall i, j | 0 <= i < j < |Final(s, acts).procs| ::
               Tolerable(Final(s, acts).procs[i].req, Final(s, acts).procs[j].req)
    ensures TolerantRun(s, acts)
    decreases |acts|
  {
    hide CanDo, Do, Tolerable;
    if acts != [] {
      var t, f := Do(s, acts[0]), Final(s, acts);
      CallsStep(s, acts[0]);
      CallsStay(t, acts[1..]);
      TolerantCalls(t, acts[1..]);
      if acts[0].Begin? {
        forall p <- s.procs
          ensures Tolerable(p.req, acts[0].req)
        {
          var i :| 0 <= i < |s.procs| && s.procs[i] == p;
          assert f.procs[i].req == p.req && f.procs[|s.procs|].req == acts[0].req;
        }
      }
    }
  }

  /** Two calls on one cached row leave its cached copy right under every interleaving if and
      only if they are harmless together. */
  lemma HarmlessExactly(r: Request, q: Request, a: Address)
    requires Proper(r) && Proper(q) && Good(a) && ShouldCache(a.keyspace) && Hits(r, a) && Hits(q, a)
    ensures AlwaysRight(r, q, a) <==> Harmless(r, q)
  {
    hide Runs, Final, Fresh, Proper, Hits, ShouldCache, RowKey, TolerantRun;
    if Harmless(r, q) {
      forall dbs: seq<Db>, caching: bool, acts: seq<Action> |
        dbs != [] && Runs(Fresh(dbs, caching), acts) && BothAnswered(Final(Fresh(dbs, caching), acts), r, q)
        ensures CacheRight(Final(Fresh(dbs, caching), acts), a)
      {
        TolerantCalls(Fresh(dbs, caching), acts);
        CachedRowsAgree(dbs, caching, acts, a);
      }
    } else {
      HarmShows(r, q, a);
    }
  }
}
