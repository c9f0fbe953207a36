/** One storage engine and its write pipeline (src/storage.rs): a FIFO of operations, a
    collector filling batches, a committer applying them, one ticket per operation. */
module Pipeline {
  import opened Bytes
  import opened Keys

  /** An engine is an ordered byte-string map that applies a batch atomically. */
  type Db = map<bytes, bytes>

  datatype Op =
    | Put(key: bytes, val: bytes, ticket: nat)
    | Delete(key: bytes, ticket: nat)
    | DeleteRange(start: bytes, end: bytes, ticket: nat)

  predicate Touches(op: Op, k: bytes) {
    match op
    case Put(key, _, _) => key == k
    case Delete(key, _) => key == k
    case DeleteRange(start, end, _) => InRange(k, start, end)
  }

  /** What an operation leaves at the keys it touches. */
  function Effect(op: Op): Option<bytes> {
    if op.Put? then Some(op.val) else None
  }

  function Apply(db: Db, op: Op): Db {
    match op
    case Put(key, val, _) => db[key := val]
    case Delete(key, _) => db - {key}
    case DeleteRange(start, end, _) => map k | k in db && !InRange(k, start, end) :: db[k]
  }

  /** One-by-one application, in order. */
  function ApplyAll(db: Db, ops: seq<Op>): Db
    decreases |ops|
  {
    if ops == [] then db else ApplyAll(Apply(db, ops[0]), ops[1..])
  }

  lemma {:induction false} ApplyAppend(db: Db, a: seq<Op>, b: seq<Op>)
    ensures ApplyAll(db, a + b) == ApplyAll(ApplyAll(db, a), b)
    decreases |a|
  {
    if a == [] {
      assert a + b == b;
    } else {
      assert (a + b)[0] == a[0] && (a + b)[1..] == a[1..] + b;
      ApplyAppend(Apply(db, a[0]), a[1..], b);
    }
  }

  /** The index of the last operation touching `k`, or -1. */
  function LastTouch(ops: seq<Op>, k: bytes): (i: int)
    ensures -1 <= i < |ops|
    ensures i >= 0 ==> Touches(ops[i], k)
    ensures forall j | i < j < |ops| :: !Touches(ops[j], k)
  {
    if ops == [] then -1
    else if Touches(ops[|ops| - 1], k) then |ops| - 1
    else LastTouch(ops[..|ops| - 1], k)
  }

  lemma ApplyOne(db: Db, op: Op, k: bytes)
    ensures Lookup(Apply(db, op), k) == if Touches(op, k) then Effect(op) else Lookup(db, k)
  {
  }

  /** Sequential application means last writer wins, key by key. In particular a range
      tombstone hides every covered row sent before it and none sent after it. */
  lemma {:induction false} LastWriterWins(db: Db, ops: seq<Op>, k: bytes)
    ensures var i := LastTouch(ops, k);
            Lookup(ApplyAll(db, ops), k) == if i < 0 then Lookup(db, k) else Effect(ops[i])
    decreases |ops|
  {
    if ops != [] {
      var n := |ops| - 1;
      LastWriterWins(db, ops[..n], k);
      ApplyAppend(db, ops[..n], [ops[n]]);
      assert ops == ops[..n] + [ops[n]];
      assert ApplyAll(ApplyAll(db, ops[..n]), [ops[n]]) == Apply(ApplyAll(db, ops[..n]), ops[n]);
      ApplyOne(ApplyAll(db, ops[..n]), ops[n], k);
    }
  }

  /* ---------- The pipeline ---------- */

  const MAX_BATCH_OPS := 2048

  /** `base` is what the engine held when it was opened and `accepted` every operation sent
      since, in send order. `landed` is a batch already written whose tickets are not yet
      dropped; `done` holds the tickets whose waiters have been woken. */
  datatype Pipe = Pipe(
    base: Db,
    accepted: seq<Op>,
    queue: seq<Op>,
    open: seq<Op>,
    commits: seq<seq<Op>>,
    db: Db,
    landed: seq<Op>,
    done: set<nat>)

  function Opened(db: Db): Pipe {
    Pipe(db, [], [], [], [], db, [], {})
  }

  datatype PipeStep = Recv | Gather | Handoff | Write | Wake

  function Enqueue(p: Pipe, op: Op): Pipe {
    p.(accepted := p.accepted + [op], queue := p.queue + [op])
  }

  /** The collector hands a batch over whenever it stops gathering: the queue ran empty,
      its window elapsed, or the batch is full. */
  predicate CanStep(p: Pipe, s: PipeStep) {
    match s
    case Recv => p.open == [] && p.queue != []
    case Gather => p.open != [] && |p.open| < MAX_BATCH_OPS && p.queue != []
    case Handoff => p.open != []
    case Write => p.landed == [] && p.commits != []
    case Wake => p.landed != []
  }

  function Tickets(ops: seq<Op>): set<nat> {
    set i | 0 <= i < |ops| :: ops[i].ticket
  }

  function StepPipe(p: Pipe, s: PipeStep): Pipe
    requires CanStep(p, s)
  {
    match s
    case Recv => p.(open := [p.queue[0]], queue := p.queue[1..])
    case Gather => p.(open := p.open + [p.queue[0]], queue := p.queue[1..])
    case Handoff => p.(commits := p.commits + [p.open], open := [])
    case Write => p.(db := ApplyAll(p.db, p.commits[0]), landed := p.commits[0], commits := p.commits[1..])
    case Wake => p.(done := p.done + Tickets(p.landed), landed := [])
  }

  function Flatten(batches: seq<seq<Op>>): seq<Op> {
    if batches == [] then [] else batches[0] + Flatten(batches[1..])
  }

  lemma {:induction false} FlattenPush(batches: seq<seq<Op>>, b: seq<Op>)
    ensures Flatten(batches + [b]) == Flatten(batches) + b
  {
    if batches == [] {
      assert batches + [b] == [b] && Flatten([b]) == b;
    } else {
      assert (batches + [b])[1..] == batches[1..] + [b];
      FlattenPush(batches[1..], b);
    }
  }

  /** Accepted operations not yet written, oldest first. */
  function Pending(p: Pipe): seq<Op> {
    Flatten(p.commits) + p.open + p.queue
  }

  /** How many accepted operations have been written. */
  function Committed(p: Pipe): int {
    |p.accepted| - |Pending(p)|
  }

  predicate BatchSizes(p: Pipe) {
    |p.open| <= MAX_BATCH_OPS && forall b <- p.commits :: 1 <= |b| <= MAX_BATCH_OPS
  }

  /** Nothing is lost, duplicated or reordered: the accepted operations are the woken ones,
      then the landed batch, then the pending ones; the engine holds the first two parts
      applied one by one; and no batch is empty or oversized. */
  ghost predicate InOrder(p: Pipe) {
    && BatchSizes(p)
    && |p.landed| <= Committed(p)
    && p.accepted == p.accepted[..Committed(p)] + Pending(p)
    && p.landed == p.accepted[Committed(p) - |p.landed|..Committed(p)]
    && p.db == ApplyAll(p.base, p.accepted[..Committed(p)])
    && p.done == Tickets(p.accepted[..Committed(p) - |p.landed|])
  }

  lemma OpenedInOrder(db: Db)
    ensures InOrder(Opened(db)) && Pending(Opened(db)) == []
  {
  }

  lemma EnqueueInOrder(p: Pipe, op: Op)
    requires InOrder(p)
    ensures InOrder(Enqueue(p, op)) && Committed(Enqueue(p, op)) == Committed(p)
    ensures Pending(Enqueue(p, op)) == Pending(p) + [op]
  {
    var q := Enqueue(p, op);
    assert Pending(q) == Pending(p) + [op];
    assert q.accepted[..Committed(p)] == p.accepted[..Committed(p)];
  }

  /** Every step writes a prefix of what was pending: the first batch, or nothing. */
  lemma StepPending(p: Pipe, s: PipeStep)
    requires CanStep(p, s)
    ensures Pending(p) == (if s.Write? then p.commits[0] else []) + Pending(StepPipe(p, s))
  {
    var q := StepPipe(p, s);
    match s
    case Recv =>
      assert p.open + p.queue == q.open + q.queue;
    case Gather =>
      assert p.open + p.queue == q.open + q.queue;
    case Handoff =>
      FlattenPush(p.commits, p.open);
    case Write =>
    case Wake =>
  }

  lemma CollectInOrder(p: Pipe, s: PipeStep)
    requires InOrder(p) && CanStep(p, s) && !s.Write? && !s.Wake?
    ensures InOrder(StepPipe(p, s)) && Committed(p) == Committed(StepPipe(p, s))
  {
    hide Flatten, ApplyAll, Tickets;
    StepPending(p, s);
    assert Pending(StepPipe(p, s)) == Pending(p);
    assert BatchSizes(StepPipe(p, s));
  }

  lemma WriteInOrder(p: Pipe)
    requires InOrder(p) && CanStep(p, Write)
    ensures InOrder(StepPipe(p, Write)) && Committed(p) <= Committed(StepPipe(p, Write))
  {
    hide ApplyAll, Tickets;
    var q := StepPipe(p, Write);
    var n, m, b := Committed(p), Committed(q), p.commits[0];
    StepPending(p, Write);
    assert p.accepted[n..] == Pending(p);
    assert p.accepted[n..m] == b && p.accepted[m..] == Pending(q);
    assert q.accepted[..m] == p.accepted[..n] + b;
    ApplyAppend(p.base, p.accepted[..n], b);
  }

  lemma WakeInOrder(p: Pipe)
    requires InOrder(p) && CanStep(p, Wake)
    ensures InOrder(StepPipe(p, Wake)) && Committed(p) == Committed(StepPipe(p, Wake))
  {
    hide Flatten, ApplyAll;
    var n := Committed(p);
    assert p.accepted[..n] == p.accepted[..n - |p.landed|] + p.landed;
    TicketsAppend(p.accepted[..n - |p.landed|], p.landed);
  }

  lemma StepInOrder(p: Pipe, s: PipeStep)
    requires InOrder(p) && CanStep(p, s)
    ensures InOrder(StepPipe(p, s)) && Committed(p) <= Committed(StepPipe(p, s))
    ensures StepPipe(p, s).base == p.base && StepPipe(p, s).accepted == p.accepted
  {
    hide InOrder;
    match s
    case Write => WriteInOrder(p);
    case Wake => WakeInOrder(p);
    case _ => CollectInOrder(p, s);
  }

  lemma TicketsAppend(a: seq<Op>, b: seq<Op>)
    ensures Tickets(a + b) == Tickets(a) + Tickets(b)
  {
    forall t | t in Tickets(b)
      ensures t in Tickets(a + b)
    {
      var i :| 0 <= i < |b| && b[i].ticket == t;
      assert (a + b)[|a| + i].ticket == t;
    }
    forall t | t in Tickets(a)
      ensures t in Tickets(a + b)
    {
      var i :| 0 <= i < |a| && a[i].ticket == t;
      assert (a + b)[i].ticket == t;
    }
  }

  /** The engine with everything accepted applied: what it will hold once drained. */
  function View(p: Pipe): Db {
    ApplyAll(p.db, Pending(p))
  }

  /** The engine followed by its in-flight batches, open batch and queue equals one-by-one
      application of the accepted operations in send order. */
  lemma ViewIsSequential(p: Pipe)
    requires InOrder(p)
    ensures View(p) == ApplyAll(p.base, p.accepted)
  {
    ApplyAppend(p.base, p.accepted[..Committed(p)], Pending(p));
  }

  lemma StepKeepsView(p: Pipe, s: PipeStep)
    requires CanStep(p, s)
    ensures View(StepPipe(p, s)) == View(p)
    ensures forall op <- Pending(StepPipe(p, s)) :: op in Pending(p)
    ensures p.done <= StepPipe(p, s).done
  {
    StepPending(p, s);
    if s.Write? {
      ApplyAppend(p.db, p.commits[0], Pending(StepPipe(p, s)));
    } else {
      assert Pending(p) == Pending(StepPipe(p, s));
    }
  }

  /** No pending operation concerns `k`. */
  predicate Quiet(p: Pipe, k: bytes) {
    forall op <- Pending(p) :: !Touches(op, k)
  }

  lemma QuietView(p: Pipe, k: bytes)
    requires Quiet(p, k)
    ensures Lookup(View(p), k) == Lookup(p.db, k)
  {
    forall i | 0 <= i < |Pending(p)|
      ensures !Touches(Pending(p)[i], k)
    {
      assert Pending(p)[i] in Pending(p);
    }
    LastWriterWins(p.db, Pending(p), k);
  }

  lemma EnqueueView(p: Pipe, op: Op, k: bytes)
    ensures Pending(Enqueue(p, op)) == Pending(p) + [op]
    ensures Lookup(View(Enqueue(p, op)), k) == if Touches(op, k) then Effect(op) else Lookup(View(p), k)
  {
    assert Pending(Enqueue(p, op)) == Pending(p) + [op];
    ApplyAppend(p.db, Pending(p), [op]);
    assert ApplyAll(View(p), [op]) == Apply(View(p), op);
    ApplyOne(View(p), op, k);
  }

  /* ---------- Tickets ---------- */

  /** Tickets are handed out in increasing order, all below `next`. */
  ghost predicate Ticketed(p: Pipe, next: nat) {
    && (forall i, j | 0 <= i < j < |p.accepted| :: p.accepted[i].ticket < p.accepted[j].ticket)
    && (forall i | 0 <= i < |p.accepted| :: p.accepted[i].ticket < next)
  }

  /** A ticket is completed only after its operation and everything accepted before it has
      been written. */
  lemma DoneIsCommitted(p: Pipe, next: nat, i: nat)
    requires InOrder(p) && Ticketed(p, next) && i < |p.accepted|
    requires p.accepted[i].ticket in p.done
    ensures i < Committed(p)
  {
    var woken := p.accepted[..Committed(p) - |p.landed|];
    var j :| 0 <= j < |woken| && woken[j].ticket == p.accepted[i].ticket;
    assert p.accepted[j].ticket == p.accepted[i].ticket;
  }

  lemma PendingNotDone(p: Pipe, next: nat, op: Op)
    requires InOrder(p) && Ticketed(p, next) && op in Pending(p)
    ensures op.ticket !in p.done && op.ticket < next
  {
    var j :| 0 <= j < |Pending(p)| && Pending(p)[j] == op;
    var i := Committed(p) + j;
    assert p.accepted[i] == op;
    if op.ticket in p.done {
      DoneIsCommitted(p, next, i);
    }
  }

  /** Once an operation is committed, a reader of its key sees that operation or a later one. */
  lemma CommittedIsVisible(p: Pipe, i: nat, k: bytes)
    requires InOrder(p) && i < Committed(p) && Touches(p.accepted[i], k)
    ensures var last := LastTouch(p.accepted[..Committed(p)], k);
            i <= last < Committed(p) && Lookup(p.db, k) == Effect(p.accepted[last])
  {
    var written := p.accepted[..Committed(p)];
    LastWriterWins(p.base, written, k);
    assert written[i] == p.accepted[i];
  }

  /* ---------- Draining ---------- */

  function Work(p: Pipe): nat {
    4 * |p.queue| + (if p.open == [] then 0 else 3) + 2 * |p.commits| + (if p.landed == [] then 0 else 1)
  }

  lemma StepShrinksWork(p: Pipe, s: PipeStep)
    requires CanStep(p, s) && BatchSizes(p)
    ensures Work(StepPipe(p, s)) < Work(p)
  {
  }

  predicate Stuck(p: Pipe) {
    forall s: PipeStep :: !CanStep(p, s)
  }

  /** A pipeline with nothing left to do has applied every accepted operation. */
  lemma StuckIsDrained(p: Pipe)
    requires InOrder(p) && Stuck(p)
    ensures p.db == ApplyAll(p.base, p.accepted) && p.done == Tickets(p.accepted)
  {
    assert !CanStep(p, Recv) && !CanStep(p, Gather) && !CanStep(p, Handoff) && !CanStep(p, Write) && !CanStep(p, Wake);
    assert Pending(p) == [];
    assert p.accepted[..Committed(p)] == p.accepted;
  }
}
