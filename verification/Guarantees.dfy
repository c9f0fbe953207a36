/** What every run of the storage guarantees, whatever the interleaving. */
module Guarantees {
  import opened Bytes
  import opened Keys
  import opened Pipeline
  import opened Protocol

  /** Batching never loses, duplicates or reorders: in every reachable state each engine
      holds the first operations sent to it applied one by one, the rest is still in flight
      in the same order, no batch is empty or exceeds 2048 operations, and what is in flight
      on top of the engine gives sequential application of everything sent. */
  lemma EveryRunInOrder(dbs: seq<Db>, caching: bool, acts: seq<Action>, e: nat)
    requires e < |dbs| && Runs(Fresh(dbs, caching), acts)
    ensures var s := Final(Fresh(dbs, caching), acts);
            && |s.pipes| == |dbs|
            && var p := s.pipes[e];
            && 0 <= Committed(p) <= |p.accepted|
            && p.accepted[Committed(p)..] == Flatten(p.commits) + p.open + p.queue
            && p.db == ApplyAll(dbs[e], p.accepted[..Committed(p)])
            && ApplyAll(p.db, Flatten(p.commits) + p.open + p.queue) == ApplyAll(dbs[e], p.accepted)
            && |p.open| <= 2048 && (forall b <- p.commits :: 1 <= |b| <= 2048)
  {
    hide Runs, Final;
    var s0 := Fresh(dbs, caching);
    FreshSafe(dbs, caching);
    RunSafe(s0, acts);
    var s := Final(s0, acts);
    assert GrowsPipe(s0.pipes[e], s.pipes[e]);
    ViewIsSequential(s.pipes[e]);
  }

  /** A range tombstone removes exactly the covered rows sent before it: with a tombstone at
      position `i`, the rest of the log alone decides the covered keys. */
  lemma TombstoneCutsHistory(db: Db, ops: seq<Op>, i: nat, k: bytes)
    requires i < |ops| && ops[i].DeleteRange? && InRange(k, ops[i].start, ops[i].end)
    ensures Lookup(ApplyAll(db, ops), k) == Lookup(ApplyAll(map[], ops[i + 1..]), k)
  {
    hide InRange;
    var before, after := ApplyAll(db, ops[..i + 1]), ops[i + 1..];
    assert ops == ops[..i + 1] + after && ops[..i + 1] == ops[..i] + [ops[i]];
    ApplyAppend(db, ops[..i + 1], after);
    ApplyAppend(db, ops[..i], [ops[i]]);
    assert before == ApplyAll(ApplyAll(db, ops[..i]), [ops[i]]) == Apply(ApplyAll(db, ops[..i]), ops[i]);
    ApplyOne(ApplyAll(db, ops[..i]), ops[i], k);
    LastWriterWins(before, after, k);
    LastWriterWins(map[], after, k);
  }

  /** The call's own operation at position `i` of the log of engine `e`: sent for its request
      under a ticket the call itself was given. */
  predicate OwnOp(s: System, pid: nat, e: nat, i: nat)
    requires pid < |s.procs| && e < |s.pipes|
  {
    && !s.procs[pid].req.GetRow? && i < |s.pipes[e].accepted|
    && var op := s.pipes[e].accepted[i];
       Gate(e, op.ticket) in s.procs[pid].issued && op == OpFor(s.procs[pid].req, op.ticket)
  }

  /** The operation an acknowledged write sent to a row's engine is committed there. */
  lemma AckedIsCommitted(s: System, pid: nat, a: Address)
    requires Safe(s) && pid < |s.procs| && s.procs[pid].pc.Acked? && !s.procs[pid].req.GetRow?
    requires Good(a) && Hits(s.procs[pid].req, a)
    ensures var e := Route(a, |s.pipes|);
            e < |s.pipes| && exists i :: 0 <= i < Committed(s.pipes[e]) && OwnOp(s, pid, e, i)
  {
    hide InOrder, OpFor, Route;
    var r := s.procs[pid].req;
    assert s.procs[pid] in s.procs;
    var e := Route(a, |s.pipes|);
    RouteInRange(a, |s.pipes|);
    var j := if r.Truncate? then e else 0;
    var g := s.procs[pid].issued[j];
    assert g.engine == e && Awake(s, g) && Sent(s, r, g);
    var p := s.pipes[e];
    var i :| 0 <= i < |p.accepted| && p.accepted[i] == OpFor(r, g.ticket);
    TicketOf(r, g.ticket);
    DoneIsCommitted(p, s.next, i);
    assert g == Gate(e, p.accepted[i].ticket);
    assert OwnOp(s, pid, e, i);
  }

  lemma CommittedBounds(p: Pipe)
    requires InOrder(p)
    ensures 0 <= Committed(p) <= |p.accepted|
  {
  }

  /** The row on its engine is the effect of a committed operation: the one call `pid` sent,
      or one accepted after it. */
  ghost predicate Shows(s: System, pid: nat, a: Address)
    requires pid < |s.procs|
  {
    var e := Route(a, |s.pipes|);
    && e < |s.pipes|
    && var p := s.pipes[e];
    && 0 <= Committed(p) <= |p.accepted|
    && var last := LastTouch(p.accepted[..Committed(p)], RowKey(a));
    && last >= 0 && Lookup(p.db, RowKey(a)) == Effect(p.accepted[last])
    && exists i :: 0 <= i <= last && OwnOp(s, pid, e, i)
  }

  /** No write is acknowledged early: in every reachable state, for every answered write and
      every row it hits, the operation that very call sent is committed, so a reader of the
      engine finds the row as it left it or as a later operation on the row left it. */
  lemma NoEarlyAck(dbs: seq<Db>, caching: bool, acts: seq<Action>, pid: nat, a: Address)
    requires dbs != [] && Runs(Fresh(dbs, caching), acts) && Good(a)
    requires var s := Final(Fresh(dbs, caching), acts);
             pid < |s.procs| && s.procs[pid].pc.Acked? && !s.procs[pid].req.GetRow? && Hits(s.procs[pid].req, a)
    ensures Shows(Final(Fresh(dbs, caching), acts), pid, a)
  {
    hide Runs, Final, InOrder, WriteOk, OpFor, Route, RowKey;
    FreshSafe(dbs, caching);
    RunSafe(Fresh(dbs, caching), acts);
    var s := Final(Fresh(dbs, caching), acts);
    assert s.procs[pid] in s.procs;
    AckedIsCommitted(s, pid, a);
    var e := Route(a, |s.pipes|);
    var p := s.pipes[e];
    var i :| 0 <= i < Committed(p) && OwnOp(s, pid, e, i);
    OpTouches(s.procs[pid].req, p.accepted[i].ticket, a);
    CommittedIsVisible(p, i, RowKey(a));
    CommittedBounds(p);
  }

  /* ---------- Shutdown ---------- */

  function TotalWork(pipes: seq<Pipe>): nat {
    if pipes == [] then 0 else Work(pipes[0]) + TotalWork(pipes[1..])
  }

  lemma {:induction false} TotalWorkUpdate(pipes: seq<Pipe>, e: nat, p: Pipe)
    requires e < |pipes| && Work(p) < Work(pipes[e])
    ensures TotalWork(pipes[e := p]) < TotalWork(pipes)
    decreases |pipes|
  {
    hide Work;
    if e == 0 {
      assert pipes[e := p][1..] == pipes[1..];
    } else {
      assert pipes[e := p][1..] == pipes[1..][e - 1 := p];
      TotalWorkUpdate(pipes[1..], e - 1, p);
    }
  }

  predicate EngineOnly(acts: seq<Action>) {
    forall act <- acts :: act.Engine?
  }

  /** Once no more operations arrive, every collector and committer step uses up work. */
  lemma {:induction false} DrainIsBounded(s: System, acts: seq<Action>)
    requires Safe(s) && Runs(s, acts) && EngineOnly(acts)
    ensures |acts| + TotalWork(Final(s, acts).pipes) <= TotalWork(s.pipes)
    ensures |Final(s, acts).pipes| == |s.pipes|
    ensures forall e | 0 <= e < |s.pipes| :: Final(s, acts).pipes[e].accepted == s.pipes[e].accepted
    decreases |acts|
  {
    hide InOrder, WriteOk;
    if acts != [] {
      var Engine(e, step) := acts[0];
      DoSafe(s, acts[0]);
      DrainIsBounded(Do(s, acts[0]), acts[1..]);
      StepShrinksWork(s.pipes[e], step) by { assert InOrder(s.pipes[e]); InOrderSizes(s.pipes[e]); }
      TotalWorkUpdate(s.pipes, e, StepPipe(s.pipes[e], step));
    }
  }

  lemma InOrderSizes(p: Pipe)
    requires InOrder(p)
    ensures BatchSizes(p)
  {
  }

  ghost predicate AllStuck(s: System) {
    forall e | 0 <= e < |s.pipes| :: Stuck(s.pipes[e])
  }

  /** Shutdown drains: from any reachable state the engines can be run until nothing is left
      to do, no schedule takes more than `TotalWork` steps, and any schedule that ends with
      nothing left has applied every accepted write, in order, and completed every ticket. */
  lemma DrainedIsComplete(s: System, acts: seq<Action>, e: nat)
    requires Safe(s) && Runs(s, acts) && EngineOnly(acts) && AllStuck(Final(s, acts)) && e < |s.pipes|
    ensures |acts| <= TotalWork(s.pipes) && |Final(s, acts).pipes| == |s.pipes|
    ensures Final(s, acts).pipes[e].db == ApplyAll(s.pipes[e].base, s.pipes[e].accepted)
    ensures Final(s, acts).pipes[e].done == Tickets(s.pipes[e].accepted)
  {
    hide InOrder, Runs, Final, Stuck, WriteOk, CanDo;
    DrainIsBounded(s, acts);
    RunSafe(s, acts);
    assert GrowsPipe(s.pipes[e], Final(s, acts).pipes[e]);
    StuckIsDrained(Final(s, acts).pipes[e]);
  }

  lemma {:induction false} DrainExists(s: System) returns (acts: seq<Action>)
    requires Safe(s)
    ensures Runs(s, acts) && EngineOnly(acts) && AllStuck(Final(s, acts))
    decreases TotalWork(s.pipes)
  {
    hide InOrder, WriteOk, StepPipe, CanStep;
    if AllStuck(s) {
      acts := [];
    } else {
      var e, step :| 0 <= e < |s.pipes| && CanStep(s.pipes[e], step);
      var act := Engine(e, step);
      DoSafe(s, act);
      InOrderSizes(s.pipes[e]);
      StepShrinksWork(s.pipes[e], step);
      TotalWorkUpdate(s.pipes, e, StepPipe(s.pipes[e], step));
      var rest := DrainExists(Do(s, act));
      acts := [act] + rest;
      assert acts[1..] == rest;
    }
  }

  /** Once shut down, the storage only has answers left to give. */
  ghost predicate Closing(s: System) {
    !s.accepting ==> forall i | 0 <= i < |s.procs| :: s.procs[i].pc.Acked? || s.procs[i].pc.Settle?
  }

  ghost predicate SameAccepted(s: System, t: System) {
    |t.pipes| == |s.pipes| && forall e | 0 <= e < |s.pipes| :: t.pipes[e].accepted == s.pipes[e].accepted
  }

  lemma DoClosing(s: System, act: Action)
    requires Closing(s) && CanDo(s, act)
    ensures Closing(Do(s, act))
    ensures !s.accepting ==> !Do(s, act).accepting && SameAccepted(s, Do(s, act))
  {
    hide OpFor, Route, RowKey, Cacheable, Proper;
    if act.Shutdown? {
      forall i | 0 <= i < |s.procs|
        ensures s.procs[i].pc.Acked? || s.procs[i].pc.Settle?
      {
        assert s.procs[i] in s.procs;
      }
    }
  }

  lemma {:induction false} RunClosing(s: System, acts: seq<Action>)
    requires Closing(s) && Runs(s, acts)
    ensures Closing(Final(s, acts))
    ensures !s.accepting ==> SameAccepted(s, Final(s, acts))
    decreases |acts|
  {
    hide Closing, CanDo, Do;
    if acts != [] {
      DoClosing(s, acts[0]);
      RunClosing(Do(s, acts[0]), acts[1..]);
    }
  }

  /** Shutdown drains: after a shutdown nothing more is accepted, whatever still happens; and
      once the threads have nothing left to do, every engine holds all writes accepted up to
      the shutdown, applied in send order to what it was opened with, and every ticket is
      completed. */
  lemma ShutdownDrains(dbs: seq<Db>, caching: bool, acts: seq<Action>, rest: seq<Action>, e: nat)
    requires e < |dbs| && Runs(Fresh(dbs, caching), acts)
    requires var s := Final(Fresh(dbs, caching), acts);
             !s.accepting && Runs(s, rest) && AllStuck(Final(s, rest))
    ensures var s := Final(Fresh(dbs, caching), acts);
            && |s.pipes| == |Final(s, rest).pipes| == |dbs|
            && Final(s, rest).pipes[e].db == ApplyAll(dbs[e], s.pipes[e].accepted)
            && Final(s, rest).pipes[e].done == Tickets(s.pipes[e].accepted)
  {
    hide Runs, Final, InOrder, WriteOk, Stuck;
    var s0 := Fresh(dbs, caching);
    FreshSafe(dbs, caching);
    RunSafe(s0, acts);
    RunClosing(s0, acts);
    var s := Final(s0, acts);
    RunSafe(s, rest);
    RunClosing(s, rest);
    assert GrowsPipe(s0.pipes[e], s.pipes[e]) && GrowsPipe(s.pipes[e], Final(s, rest).pipes[e]);
    StuckIsDrained(Final(s, rest).pipes[e]);
  }
}
