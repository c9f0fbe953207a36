/** The threads of one engine (src/storage.rs): the collector loop, the committer loop,
    waiting on tickets and shutdown, each proved against the step machine of `Pipeline`. */
module Writer {
  import opened Bytes
  import opened Counting
  import opened Pipeline
  import opened Protocol

  class EngineWriter {
    var queue: seq<Op>
    var commits: seq<seq<Op>>
    var db: Db
    var done: set<nat>
    ghost var base: Db
    ghost var accepted: seq<Op>

    /** Between two turns no batch is half filled and no written batch awaits its wake-ups. */
    ghost function State(): (p: Pipe)
      reads this
    {
      Pipe(base, accepted, queue, [], commits, db, [], done)
    }

    ghost predicate Valid()
      reads this
    {
      InOrder(State())
    }

    constructor (contents: Db)
      ensures Valid() && State() == Opened(contents)
    {
      queue, commits, db, done, base, accepted := [], [], contents, {}, contents, [];
      new;
      OpenedInOrder(contents);
    }

    method Send(op: Op)
      requires Valid()
      modifies this
      ensures Valid() && State() == Enqueue(old(State()), op)
    {
      EnqueueInOrder(State(), op);
      queue, accepted := queue + [op], accepted + [op];
    }

    /** One turn of the collector: take an operation, then gather while the batch has room,
        something is queued and patience lasts (unbounded without fsync, a time window with
        it), then hand the batch over. `arrivals[k]` is sent to the channel while the `k`-th
        operation is awaited; `came` is what arrived. The batch is the longest allowed run,
        of `n` operations in order, of what was queued followed by what arrived. */
    method Collect(patience: nat, arrivals: seq<seq<Op>>) returns (came: seq<Op>, n: nat)
      requires Valid() && queue != []
      modifies this`queue, this`commits, this`accepted
      ensures Valid() && came <= Flatten(arrivals) && (arrivals == [] ==> came == [])
      ensures accepted == old(accepted) + came && Pending(State()) == old(Pending(State())) + came
      ensures 1 <= n <= MAX_BATCH_OPS && n <= patience + 1 && n <= |old(queue) + came|
      ensures commits == old(commits) + [(old(queue) + came)[..n]] && queue == (old(queue) + came)[n..]
      ensures n == MAX_BATCH_OPS || n == patience + 1 || queue == []
      ensures came == [] ==> View(State()) == old(View(State())) && Work(State()) < old(Work(State()))
    {
      hide InOrder, Pending, ApplyAll, Tickets, Work, View, Flatten, Arrived, Gathered;
      ghost var start := State();
      ghost var p := StepPipe(start, Recv);
      var batch := [queue[0]];
      came := [];
      queue := queue[1..];
      Turn(start, Recv);
      GatheredFirst(start);
      ArrivedFirst(arrivals);
      var waited := 0;
      ghost var polls := 0;
      while |batch| < MAX_BATCH_OPS && waited < patience
        invariant |batch| == waited + 1 && waited <= patience && |batch| <= MAX_BATCH_OPS
        invariant came == Arrived(arrivals, polls) && polls == waited
        invariant p == Pipe(base, accepted, queue, batch, commits, db, [], done)
        invariant Gathered(start, p, came)
      {
        var now := if waited < |arrivals| then arrivals[waited] else [];
        ArrivedNext(arrivals, polls);
        GatheredMore(start, p, came, now);
        p := EnqueueAll(p, now);
        polls := polls + 1;
        queue, accepted, came := queue + now, accepted + now, came + now;
        if queue == [] {
          break;
        }
        assert CanStep(p, Gather);
        GatheredNext(start, p, came);
        p := StepPipe(p, Gather);
        batch := batch + [queue[0]];
        queue := queue[1..];
        waited := waited + 1;
      }
      ArrivedPrefix(arrivals, polls);
      GatheredLast(start, p, came);
      commits := commits + [batch];
      n := |batch|;
      assert State() == StepPipe(p, Handoff);
    }

    /** One turn of the committer: write the oldest batch, then complete its tickets. */
    method Commit()
      requires Valid() && commits != []
      modifies this`commits, this`db, this`done
      ensures Valid() && commits == old(commits)[1..]
      ensures db == ApplyAll(old(db), old(commits)[0])
      ensures done == old(done) + Tickets(old(commits)[0])
      ensures View(State()) == old(View(State()))
      ensures Work(State()) < old(Work(State()))
    {
      hide InOrder, Pending, Work, View, Flatten, Tickets, ApplyAll;
      ghost var p := State();
      Turn(p, Write);
      ghost var q := StepPipe(p, Write);
      Turn(q, Wake);
      var batch := commits[0];
      db := ApplyAll(db, batch);
      done := done + Tickets(batch);
      commits := commits[1..];
      assert StepPipe(q, Wake) == State();
    }

    /** Awaiting one ticket: the threads run until it is completed. */
    method Await(ticket: nat, patience: nat)
      requires Valid() && ticket in Tickets(accepted)
      modifies this`queue, this`commits, this`db, this`done, this`accepted
      ensures Valid() && View(State()) == old(View(State()))
      ensures ticket in done && old(done) <= done && accepted == old(accepted)
    {
      hide InOrder, Pending, ApplyAll, Tickets, Work, View, Flatten;
      while ticket !in done
        invariant Valid() && View(State()) == old(View(State())) && old(done) <= done && accepted == old(accepted)
        decreases Work(State())
      {
        if queue == [] && commits == [] {
          StuckIsDrained(State());
        }
        if queue != [] {
          var _, _ := Collect(patience, []);
        } else {
          Commit();
        }
      }
    }

    /** `drop`: with the channel closed the threads run dry, and the engine holds every
        accepted write applied in send order. */
    method Shutdown(patience: nat)
      requires Valid()
      modifies this`queue, this`commits, this`db, this`done, this`accepted
      ensures Valid() && queue == [] && commits == [] && accepted == old(accepted)
      ensures db == ApplyAll(base, accepted) && done == Tickets(accepted)
    {
      while queue != [] || commits != []
        invariant Valid() && accepted == old(accepted)
        decreases Work(State())
      {
        if queue != [] {
          var _, _ := Collect(patience, []);
        } else {
          Commit();
        }
      }
      StuckIsDrained(State());
    }
  }

  function EnqueueAll(p: Pipe, ops: seq<Op>): Pipe {
    p.(accepted := p.accepted + ops, queue := p.queue + ops)
  }

  lemma {:induction false} SendAll(p: Pipe, ops: seq<Op>)
    requires InOrder(p)
    ensures InOrder(EnqueueAll(p, ops)) && Pending(EnqueueAll(p, ops)) == Pending(p) + ops
    decreases |ops|
  {
    hide InOrder, Pending;
    if ops == [] {
      assert EnqueueAll(p, ops) == p && Pending(p) + ops == Pending(p);
    } else {
      EnqueueInOrder(p, ops[0]);
      SendAll(Enqueue(p, ops[0]), ops[1..]);
      assert EnqueueAll(p, ops) == EnqueueAll(Enqueue(p, ops[0]), ops[1..]);
      assert Pending(p) + [ops[0]] + ops[1..] == Pending(p) + ops;
    }
  }

  /** What has arrived after `k` polls of the channel. */
  function Arrived(arrivals: seq<seq<Op>>, k: nat): seq<Op> {
    Flatten(if k <= |arrivals| then arrivals[..k] else arrivals)
  }

  lemma ArrivedFirst(arrivals: seq<seq<Op>>)
    ensures Arrived(arrivals, 0) == []
  {
    assert arrivals[..0] == [];
  }

  lemma ArrivedNext(arrivals: seq<seq<Op>>, k: nat)
    ensures Arrived(arrivals, k + 1) == Arrived(arrivals, k) + if k < |arrivals| then arrivals[k] else []
  {
    hide Flatten;
    if k < |arrivals| {
      assert arrivals[..k + 1] == arrivals[..k] + [arrivals[k]];
      FlattenPush(arrivals[..k], arrivals[k]);
    } else {
      assert arrivals[..|arrivals|] == arrivals;
      assert Arrived(arrivals, k) + [] == Arrived(arrivals, k);
    }
  }

  lemma {:induction false} ArrivedPrefix(arrivals: seq<seq<Op>>, k: nat)
    ensures Arrived(arrivals, k) <= Flatten(arrivals)
    ensures arrivals == [] ==> Arrived(arrivals, k) == []
    decreases |arrivals| - k
  {
    if k < |arrivals| {
      ArrivedPrefix(arrivals, k + 1);
      ArrivedNext(arrivals, k);
    } else {
      assert arrivals[..|arrivals|] == arrivals;
    }
  }

  /** The open batch and the queue are, in order, what was queued and what came since. */
  ghost predicate Gathered(start: Pipe, p: Pipe, came: seq<Op>) {
    && InOrder(p) && p.open != [] && p.landed == [] && p.db == start.db && p.done == start.done && p.base == start.base
    && p.open + p.queue == start.queue + came && p.commits == start.commits && p.accepted == start.accepted + came
    && Pending(p) == Pending(start) + came
    && (came == [] ==> View(p) == View(start) && Work(p) < Work(start))
  }

  lemma GatheredFirst(start: Pipe)
    requires InOrder(start) && CanStep(start, Recv) && start.landed == []
    ensures Gathered(start, StepPipe(start, Recv), [])
  {
    hide InOrder, Pending, View, Work;
    Turn(start, Recv);
    assert Pending(start) + [] == Pending(start);
  }

  lemma GatheredMore(start: Pipe, p: Pipe, came: seq<Op>, now: seq<Op>)
    requires Gathered(start, p, came)
    ensures Gathered(start, EnqueueAll(p, now), came + now)
  {
    hide InOrder, Pending, View, Work;
    SendAll(p, now);
    assert p.accepted + [] == p.accepted && p.queue + [] == p.queue && EnqueueAll(p, []) == p;
    assert Pending(start) + came + now == Pending(start) + (came + now);
    assert start.queue + came + now == start.queue + (came + now);
    assert start.accepted + came + now == start.accepted + (came + now);
  }

  lemma GatheredNext(start: Pipe, p: Pipe, came: seq<Op>)
    requires Gathered(start, p, came) && CanStep(p, Gather)
    ensures Gathered(start, StepPipe(p, Gather), came)
  {
    hide InOrder, Pending, View, Work;
    Turn(p, Gather);
  }

  lemma GatheredLast(start: Pipe, p: Pipe, came: seq<Op>)
    requires Gathered(start, p, came)
    ensures var q := StepPipe(p, Handoff);
            && InOrder(q) && Pending(q) == Pending(start) + came && p.accepted == start.accepted + came
            && |p.open| <= |start.queue + came|
            && p.open == (start.queue + came)[..|p.open|] && p.queue == (start.queue + came)[|p.open|..]
            && q.commits == start.commits + [p.open]
            && (came == [] ==> View(q) == View(start) && Work(q) < Work(start))
  {
    hide InOrder, Pending, View, Work;
    Turn(p, Handoff);
  }

  /** The writers of a storage: distinct objects, each in order. */
  ghost predicate AllValid(writers: seq<EngineWriter>)
    reads writers
  {
    forall e | 0 <= e < |writers| :: writers[e].Valid()
  }

  ghost predicate AllTicketed(writers: seq<EngineWriter>, next: nat)
    reads writers
  {
    forall e | 0 <= e < |writers| :: Ticketed(writers[e].State(), next)
  }

  /** Operation `i` of engine `e` was sent under one of the tickets. */
  ghost predicate Awaited(writer: EngineWriter, e: nat, i: int, gates: seq<Gate>)
    reads writer
  {
    0 <= i < |writer.accepted| && Gate(e, writer.accepted[i].ticket) in gates
  }

  /** `settle`, over the tickets of any engines: when it returns, each ticket's operation and
      every operation its engine accepted before it has been written, and nothing readers
      will finally see has changed. */
  method Settle(writers: seq<EngineWriter>, gates: seq<Gate>, patience: nat, ghost next: nat)
    requires Distinct(writers) && AllValid(writers) && AllTicketed(writers, next)
    requires forall j | 0 <= j < |gates| ::
               gates[j].engine < |writers| && gates[j].ticket in Tickets(writers[gates[j].engine].accepted)
    modifies writers
    ensures AllValid(writers)
    ensures forall e | 0 <= e < |writers| ::
              && writers[e].accepted == old(writers[e].accepted)
              && View(writers[e].State()) == old(View(writers[e].State()))
    ensures forall e, i | 0 <= e < |writers| && Awaited(writers[e], e, i, gates) ::
              i < Committed(writers[e].State())
  {
    hide InOrder, Pending, ApplyAll, Tickets, Work, View, Flatten, Committed;
    for j := 0 to |gates|
      invariant AllValid(writers)
      invariant forall e | 0 <= e < |writers| ::
                  && writers[e].accepted == old(writers[e].accepted) && writers[e].base == old(writers[e].base)
                  && View(writers[e].State()) == old(View(writers[e].State()))
      invariant forall i | 0 <= i < j :: gates[i].ticket in writers[gates[i].engine].done
    {
      writers[gates[j].engine].Await(gates[j].ticket, patience);
    }
    forall e, i | 0 <= e < |writers| && Awaited(writers[e], e, i, gates)
      ensures i < Committed(writers[e].State())
    {
      var j :| 0 <= j < |gates| && gates[j] == Gate(e, writers[e].accepted[i].ticket);
      assert gates[j].ticket in writers[gates[j].engine].done;
      DoneIsCommitted(writers[e].State(), next, i);
    }
  }

  lemma Turn(p: Pipe, s: PipeStep)
    requires InOrder(p) && CanStep(p, s)
    ensures InOrder(StepPipe(p, s)) && Work(StepPipe(p, s)) < Work(p) && View(StepPipe(p, s)) == View(p)
    ensures !s.Write? ==> Pending(StepPipe(p, s)) == Pending(p)
    ensures s.Write? ==> CanStep(StepPipe(p, s), Wake)
  {
    StepInOrder(p, s);
    StepKeepsView(p, s);
    StepShrinksWork(p, s);
    StepPending(p, s);
    if s.Write? {
      assert p.commits[0] in p.commits;
    }
  }
}
