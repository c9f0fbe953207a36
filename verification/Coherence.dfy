/** Row cache coherence (src/storage.rs). In every run whose calls on the same row do not
    overlap, the sharded, batched, cached store answers like a plain map from row addresses
    to row bytes on which the calls execute one by one in the order they began. */
module Coherence {
  import opened Bytes
  import opened Keys
  import opened Pipeline
  import opened Protocol

  /* ---------- The plain map ---------- */

  type Rows = map<Address, bytes>

  function PlainStep(m: Rows, r: Request): Rows {
    match r
    case GetRow(_) => m
    case PutRow(a, row) => m[a := row]
    case DeleteRow(a) => m - {a}
    case Truncate(_) => map a | a in m && !Hits(r, a) :: m[a]
  }

  function Replay(m: Rows, procs: seq<Proc>): Rows {
    if procs == [] then m else PlainStep(Replay(m, procs[..|procs| - 1]), procs[|procs| - 1].req)
  }

  function Want(m: Rows, procs: seq<Proc>, a: Address): Option<bytes> {
    Lookup(Replay(m, procs), a)
  }

  lemma WantPush(m: Rows, procs: seq<Proc>, p: Proc, a: Address)
    ensures Want(m, procs + [p], a) ==
            if p.req.GetRow? || !Hits(p.req, a) then Want(m, procs, a) else Outcome(p.req)
  {
    assert (procs + [p])[..|procs|] == procs;
  }

  lemma {:induction false} ReplayRequests(m: Rows, ps: seq<Proc>, qs: seq<Proc>)
    requires |ps| == |qs| && forall i | 0 <= i < |ps| :: ps[i].req == qs[i].req
    ensures Replay(m, ps) == Replay(m, qs)
  {
    if ps != [] {
      ReplayRequests(m, ps[..|ps| - 1], qs[..|qs| - 1]);
    }
  }

  /* ---------- Non-overlapping runs ---------- */

  /** Two calls may overlap if they share no row, or only read. */
  ghost predicate Compatible(r: Request, q: Request) {
    forall a | Hits(r, a) && Hits(q, a) :: r.GetRow? && q.GetRow?
  }

  ghost predicate Orderly(s: System, act: Action) {
    act.Begin? ==> forall p <- s.procs | !p.pc.Acked? :: Compatible(p.req, act.req)
  }

  ghost predicate OrderlyRun(s: System, acts: seq<Action>)
    requires Runs(s, acts)
    decreases |acts|
  {
    acts == [] || (Orderly(s, acts[0]) && OrderlyRun(Do(s, acts[0]), acts[1..]))
  }

  ghost predicate NoOverlap(s: System) {
    forall i, j | 0 <= i < j < |s.procs| && !s.procs[i].pc.Acked? && !s.procs[j].pc.Acked? ::
      Compatible(s.procs[i].req, s.procs[j].req)
  }

  /* ---------- The invariant, row by row ---------- */

  predicate Writing(p: Proc, a: Address) {
    !p.pc.Acked? && !p.req.GetRow? && Hits(p.req, a)
  }

  predicate CacheAgrees(s: System, a: Address, want: Option<bytes>) {
    RowKey(a) in s.cache ==> want == Some(s.cache[RowKey(a)])
  }

  /** The pending operations on the row are those the call still awaits, and once they are
      written the row is as wanted. */
  ghost predicate Headed(s: System, p: Proc, a: Address, want: Option<bytes>)
    requires s.pipes != [] && p.waited <= |p.issued|
  {
    && Lookup(View(Home(s, a)), RowKey(a)) == want
    && forall op <- Pending(Home(s, a)) | Touches(op, RowKey(a)) ::
         Gate(Route(a, |s.pipes|), op.ticket) in p.issued[p.waited..]
  }

  /** A write in progress on the row. */
  ghost predicate WriterOk(s: System, p: Proc, a: Address, want: Option<bytes>)
    requires s.pipes != []
  {
    && p.waited <= |p.issued|
    && want == Outcome(p.req)
    && match p.pc
       case Touch => Quiet(Home(s, a), RowKey(a))
       case Send =>
         if p.req.Truncate? then
           if Route(a, |s.pipes|) < |p.issued| then Headed(s, p, a, want) else Quiet(Home(s, a), RowKey(a))
         else Quiet(Home(s, a), RowKey(a)) && CacheAgrees(s, a, want)
       case Settle => Headed(s, p, a, want) && CacheAgrees(s, a, want)
       case _ => false
  }

  /** Nobody writes the row: nothing is pending on it, its engine and, if it is cached, the
      cache hold what is wanted. */
  ghost predicate AtRest(s: System, a: Address, want: Option<bytes>)
    requires s.pipes != []
  {
    && Quiet(Home(s, a), RowKey(a))
    && Lookup(Home(s, a).db, RowKey(a)) == want
    && CacheAgrees(s, a, want)
  }

  ghost predicate Free(s: System, a: Address) {
    forall i | 0 <= i < |s.procs| :: !Writing(s.procs[i], a)
  }

  ghost predicate RowOk(s: System, m: Rows, a: Address) {
    && s.pipes != []
    && (RowKey(a) in s.cache ==> Cacheable(s, a))
    && (forall i | 0 <= i < |s.procs| && Writing(s.procs[i], a) :: WriterOk(s, s.procs[i], a, Want(m, s.procs, a)))
    && (Free(s, a) ==> AtRest(s, a, Want(m, s.procs, a)))
  }

  /** A read is answered from the writes that began before it. */
  ghost predicate ReadOk(s: System, m: Rows, i: nat) {
    && i < |s.procs| && s.procs[i].req.GetRow?
    && var p := s.procs[i];
    && var want := Want(m, s.procs[..i], p.req.addr);
    && (!p.pc.Acked? ==> Want(m, s.procs, p.req.addr) == want)
    && (p.pc.Fill? || p.pc.Acked? ==> p.found == want)
    && (p.pc.Look? || p.pc.Fetch? || p.pc.Fill? || p.pc.Acked?)
  }

  ghost predicate Coherent(s: System, m: Rows) {
    && Safe(s)
    && NoOverlap(s)
    && (forall a | Good(a) :: RowOk(s, m, a))
    && (forall i | 0 <= i < |s.procs| && s.procs[i].req.GetRow? :: ReadOk(s, m, i))
  }

  /** `m` is what the engines hold, row by row. */
  ghost predicate Represents(dbs: seq<Db>, m: Rows)
    requires dbs != []
  {
    forall a | Good(a) :: Lookup(dbs[Route(a, |dbs|)], RowKey(a)) == Lookup(m, a)
  }

  lemma FreshCoherent(dbs: seq<Db>, caching: bool, m: Rows)
    requires dbs != [] && Represents(dbs, m)
    ensures Coherent(Fresh(dbs, caching), m)
  {
    hide RowOk, Safe, Represents;
    FreshSafe(dbs, caching);
    forall a | Good(a)
      ensures RowOk(Fresh(dbs, caching), m, a)
    {
      FreshRow(dbs, caching, m, a);
    }
  }

  lemma FreshRow(dbs: seq<Db>, caching: bool, m: Rows, a: Address)
    requires dbs != [] && Represents(dbs, m) && Good(a)
    ensures RowOk(Fresh(dbs, caching), m, a)
  {
    hide Route, RowKey, ApplyAll;
    assert Pending(Home(Fresh(dbs, caching), a)) == [];
  }

  /* ---------- Steps that do not concern the row ---------- */

  /** Seen from key `k`, the pipeline did not change: same eventual value, no new pending
      operation on it. */
  ghost predicate Calm(p: Pipe, q: Pipe, k: bytes) {
    && Lookup(View(q), k) == Lookup(View(p), k)
    && forall op <- Pending(q) | Touches(op, k) :: op in Pending(p)
  }

  lemma WriterStable(s: System, t: System, p: Proc, a: Address, want: Option<bytes>)
    requires s.pipes != [] && |t.pipes| == |s.pipes| && Calm(Home(s, a), Home(t, a), RowKey(a))
    requires WriterOk(s, p, a, want)
    requires RowKey(a) in t.cache ==> RowKey(a) in s.cache && t.cache[RowKey(a)] == s.cache[RowKey(a)]
    ensures WriterOk(t, p, a, want)
  {
    hide View, Pending, Touches, Route, RowKey;
  }

  /** A step that leaves the writers of the row, its pipeline and its cache entry alone, or
      only evicts it, keeps the row's invariant. */
  lemma RowStable(s: System, t: System, m: Rows, a: Address)
    requires s.pipes != [] && |t.pipes| == |s.pipes| && t.caching == s.caching
    requires RowOk(s, m, a) && Calm(Home(s, a), Home(t, a), RowKey(a))
    requires RowKey(a) in t.cache ==> RowKey(a) in s.cache && t.cache[RowKey(a)] == s.cache[RowKey(a)]
    requires |t.procs| >= |s.procs| && Want(m, t.procs, a) == Want(m, s.procs, a)
    requires forall i | 0 <= i < |s.procs| :: Writing(t.procs[i], a) == Writing(s.procs[i], a)
    requires forall i | 0 <= i < |s.procs| && Writing(s.procs[i], a) :: t.procs[i] == s.procs[i]
    requires forall i | |s.procs| <= i < |t.procs| :: !Writing(t.procs[i], a)
    ensures RowOk(t, m, a)
  {
    hide View, Pending, Touches, Route, RowKey, Want, WriterOk, Writing;
    var want := Want(m, s.procs, a);
    forall i | 0 <= i < |t.procs| && Writing(t.procs[i], a)
      ensures WriterOk(t, t.procs[i], a, want)
    {
      WriterStable(s, t, s.procs[i], a, want);
    }
    if Free(t, a) {
      assert Free(s, a) by {
        forall i | 0 <= i < |s.procs|
          ensures !Writing(s.procs[i], a)
        {
          assert !Writing(t.procs[i], a);
        }
      }
      QuietView(Home(s, a), RowKey(a));
      assert Quiet(Home(t, a), RowKey(a));
      QuietView(Home(t, a), RowKey(a));
    }
  }

  lemma CalmStep(p: Pipe, step: PipeStep, k: bytes)
    requires CanStep(p, step)
    ensures Calm(p, StepPipe(p, step), k)
  {
    hide View, Pending, StepPipe;
    StepKeepsView(p, step);
  }

  lemma CalmEnqueue(p: Pipe, op: Op, k: bytes)
    requires !Touches(op, k)
    ensures Calm(p, Enqueue(p, op), k)
  {
    hide View, Touches;
    EnqueueView(p, op, k);
    assert Pending(Enqueue(p, op)) == Pending(p) + [op];
    hide Pending;
  }

  lemma EngineCoherent(s: System, m: Rows, e: nat, step: PipeStep)
    requires Coherent(s, m) && CanDo(s, Engine(e, step))
    ensures Coherent(Do(s, Engine(e, step)), m)
  {
    hide Safe, RowOk, Compatible, Calm, CanStep, StepPipe, Want;
    var t := Do(s, Engine(e, step));
    DoSafe(s, Engine(e, step));
    forall a | Good(a)
      ensures RowOk(t, m, a)
    {
      EngineRow(s, m, e, step, a);
    }
    forall i | 0 <= i < |t.procs| && t.procs[i].req.GetRow?
      ensures ReadOk(t, m, i)
    {
      assert ReadOk(s, m, i);
    }
  }

  lemma EngineRow(s: System, m: Rows, e: nat, step: PipeStep, a: Address)
    requires CanDo(s, Engine(e, step)) && RowOk(s, m, a)
    ensures RowOk(Do(s, Engine(e, step)), m, a)
  {
    hide RowOk, CanStep, StepPipe, Want, Route, RowKey;
    var t := Do(s, Engine(e, step));
    assert Calm(Home(s, a), Home(t, a), RowKey(a)) by {
      CalmStep(s.pipes[e], step, RowKey(a));
    }
    RowStable(s, t, m, a);
  }

  /* ---------- Beginning a call ---------- */

  lemma BeginRow(s: System, m: Rows, r: Request, a: Address)
    requires CanDo(s, Begin(r)) && Orderly(s, Begin(r)) && RowOk(s, m, a)
    ensures RowOk(Do(s, Begin(r)), m, a)
  {
    hide Route, RowKey, Want, Hits, View, Pending, Touches;
    var t := Do(s, Begin(r));
    WantPush(m, s.procs, Started(r), a);
    if r.GetRow? || !Hits(r, a) {
      RowStable(s, t, m, a);
    } else {
      forall i | 0 <= i < |s.procs|
        ensures !Writing(s.procs[i], a)
      {
        assert s.procs[i] in s.procs;
      }
      assert Free(s, a);
      assert WriterOk(t, Started(r), a, Outcome(r));
      assert forall j | 0 <= j < |s.procs| :: !Writing(t.procs[j], a);
      assert Writing(t.procs[|s.procs|], a);
    }
  }

  lemma BeginCoherent(s: System, m: Rows, r: Request)
    requires Coherent(s, m) && CanDo(s, Begin(r)) && Orderly(s, Begin(r))
    ensures Coherent(Do(s, Begin(r)), m)
  {
    hide Safe, RowOk, Compatible, Proper, Want;
    var t := Do(s, Begin(r));
    DoSafe(s, Begin(r));
    forall i, j | 0 <= i < j < |t.procs| && !t.procs[i].pc.Acked? && !t.procs[j].pc.Acked?
      ensures Compatible(t.procs[i].req, t.procs[j].req)
    {
      assert s.procs[i] in s.procs;
    }
    forall a | Good(a)
      ensures RowOk(t, m, a)
    {
      BeginRow(s, m, r, a);
    }
    forall i | 0 <= i < |t.procs| && t.procs[i].req.GetRow?
      ensures ReadOk(t, m, i)
    {
      BeginRead(s, m, r, i);
    }
  }

  lemma BeginRead(s: System, m: Rows, r: Request, i: nat)
    requires CanDo(s, Begin(r)) && Orderly(s, Begin(r)) && i <= |s.procs|
    requires i < |s.procs| && s.procs[i].req.GetRow? ==> ReadOk(s, m, i)
    requires Do(s, Begin(r)).procs[i].req.GetRow?
    ensures ReadOk(Do(s, Begin(r)), m, i)
  {
    hide Want, Hits;
    var t := Do(s, Begin(r));
    var a := t.procs[i].req.addr;
    WantPush(m, s.procs, Started(r), a);
    assert t.procs[..i] == s.procs[..i];
    if i < |s.procs| {
      assert s.procs[i] in s.procs;
      assert Hits(s.procs[i].req, a) by { AddressHit(s.procs[i].req); }
    } else {
      assert s.procs[..i] == s.procs;
    }
  }

  lemma AddressHit(r: Request)
    requires !r.Truncate?
    ensures Hits(r, r.addr)
  {
  }

  /* ---------- Advancing a call ---------- */

  /** What no step of call `i` changes. */
  ghost predicate Framed(s: System, t: System, i: nat) {
    && |t.pipes| == |s.pipes| && t.caching == s.caching && i < |s.procs| == |t.procs|
    && t.procs == s.procs[i := t.procs[i]] && t.procs[i].req == s.procs[i].req
  }

  lemma GetFrame(s: System, i: nat)
    requires s.pipes != [] && i < |s.procs| && s.procs[i].req.GetRow?
    ensures Framed(s, StepGet(s, i), i)
  {
    hide RowKey, Home, Cacheable;
  }

  lemma IssueFrame(s: System, i: nat, e: nat, pc: Pc)
    requires i < |s.procs| && e < |s.pipes| && !s.procs[i].req.GetRow?
    ensures Framed(s, Issue(s, i, e, pc), i)
  {
    hide OpFor, Enqueue;
  }

  lemma SettleFrame(s: System, i: nat)
    requires i < |s.procs|
    ensures Framed(s, StepSettle(s, i), i)
  {
  }

  lemma RowFrame(s: System, i: nat)
    requires s.pipes != [] && i < |s.procs| && (s.procs[i].req.PutRow? || s.procs[i].req.DeleteRow?)
    ensures Framed(s, StepRow(s, i), i)
  {
    hide RowKey, Route, Issue, StepSettle, Cacheable;
    var p := s.procs[i];
    match p.pc
    case Send => IssueFrame(s, i, Route(p.req.addr, |s.pipes|), Settle);
    case Settle => SettleFrame(s, i);
    case _ =>
  }

  lemma TruncateFrame(s: System, i: nat)
    requires s.pipes != [] && i < |s.procs| && s.procs[i].req.Truncate?
    ensures Framed(s, StepTruncate(s, i), i)
  {
    hide Issue, StepSettle;
    var p := s.procs[i];
    if p.pc.Send? && |p.issued| < |s.pipes| {
      IssueFrame(s, i, |p.issued|, Send);
    }
    SettleFrame(s, i);
  }

  lemma AdvanceFrame(s: System, i: nat)
    requires CanDo(s, Advance(i))
    ensures Framed(s, Do(s, Advance(i)), i)
  {
    hide StepGet, StepRow, StepTruncate, Framed;
    match s.procs[i].req
    case GetRow(_) => GetFrame(s, i);
    case Truncate(_) => TruncateFrame(s, i);
    case _ => RowFrame(s, i);
  }

  lemma WantFrame(m: Rows, ps: seq<Proc>, i: nat, p: Proc, a: Address)
    requires i < |ps| && p.req == ps[i].req
    ensures Want(m, ps[i := p], a) == Want(m, ps, a)
    ensures forall j | 0 <= j <= |ps| :: Want(m, ps[i := p][..j], a) == Want(m, ps[..j], a)
  {
    ReplayRequests(m, ps[i := p], ps);
    forall j | 0 <= j <= |ps|
      ensures Want(m, ps[i := p][..j], a) == Want(m, ps[..j], a)
    {
      ReplayRequests(m, ps[i := p][..j], ps[..j]);
    }
  }

  lemma SoleWriter(s: System, i: nat, j: nat, a: Address)
    requires NoOverlap(s) && i < |s.procs| && j < |s.procs| && i != j
    requires !s.procs[i].pc.Acked? && Hits(s.procs[i].req, a)
    ensures !Writing(s.procs[j], a)
  {
    hide Hits;
    if !s.procs[j].pc.Acked? {
      if i < j {
        assert Compatible(s.procs[i].req, s.procs[j].req);
      } else {
        assert Compatible(s.procs[j].req, s.procs[i].req);
      }
    }
  }

  /** Seen from a row the call does not hit, no pipeline changed. */
  lemma BystanderPipe(s: System, i: nat, a: Address)
    requires Safe(s) && CanDo(s, Advance(i)) && Good(a) && !Hits(s.procs[i].req, a)
    ensures |Do(s, Advance(i)).pipes| == |s.pipes|
    ensures Calm(Home(s, a), Home(Do(s, Advance(i)), a), RowKey(a))
  {
    hide Route, View, Pending, Hits, OpFor, RowKey, Touches, Cacheable, Enqueue, Awake, Safe;
    var r := s.procs[i].req;
    ProperCall(s, i);
    if !r.GetRow? {
      OpTouches(r, s.next, a);
      CalmEnqueue(Home(s, a), OpFor(r, s.next), RowKey(a));
    }
  }

  lemma BystanderCache(s: System, i: nat, a: Address)
    requires Safe(s) && CanDo(s, Advance(i)) && Good(a) && !Hits(s.procs[i].req, a)
    ensures var t := Do(s, Advance(i));
            RowKey(a) in t.cache ==> RowKey(a) in s.cache && t.cache[RowKey(a)] == s.cache[RowKey(a)]
  {
    hide Route, OpFor, RowKey, Cacheable, Enqueue, Awake, Safe, Home;
    var r := s.procs[i].req;
    ProperCall(s, i);
    if !r.Truncate? && RowKey(r.addr) == RowKey(a) {
      RowKeyInjective(r.addr, a);
    }
  }

  /** Rows the call does not hit. */
  lemma BystanderRow(s: System, m: Rows, i: nat, a: Address)
    requires Safe(s) && CanDo(s, Advance(i)) && Good(a) && RowOk(s, m, a) && !Hits(s.procs[i].req, a)
    ensures RowOk(Do(s, Advance(i)), m, a)
  {
    hide Want, RowOk, Route, Hits, Safe, Calm, Do, RowKey;
    var t := Do(s, Advance(i));
    AdvanceFrame(s, i);
    WantFrame(m, s.procs, i, t.procs[i], a);
    BystanderPipe(s, i, a);
    BystanderCache(s, i, a);
    assert s.pipes != [];
    RowStable(s, t, m, a);
  }

  /** The row a read asks for: nobody else writes it. */
  lemma ReadAlone(s: System, m: Rows, i: nat)
    requires Coherent(s, m) && CanDo(s, Advance(i)) && s.procs[i].req.GetRow?
    ensures var a := s.procs[i].req.addr; Free(s, a) && RowOk(s, m, a) && ReadOk(s, m, i)
  {
    hide Want, Route, View, Pending, Hits, RowKey, Safe, Touches, Compatible, RowOk, ReadOk;
    var a := s.procs[i].req.addr;
    assert Good(a) by { assert s.procs[i] in s.procs; ProperCall(s, i); }
    AddressHit(s.procs[i].req);
    forall j | 0 <= j < |s.procs|
      ensures !Writing(s.procs[j], a)
    {
      if j != i {
        SoleWriter(s, i, j, a);
      }
    }
  }

  lemma ReadRow(s: System, m: Rows, i: nat)
    requires Coherent(s, m) && CanDo(s, Advance(i)) && s.procs[i].req.GetRow?
    ensures RowOk(Do(s, Advance(i)), m, s.procs[i].req.addr) && ReadOk(Do(s, Advance(i)), m, i)
  {
    hide Want, Route, View, Pending, Hits, RowKey, Coherent, Touches, WriterOk, ShouldCache;
    var t := Do(s, Advance(i));
    var a := s.procs[i].req.addr;
    ReadAlone(s, m, i);
    AdvanceFrame(s, i);
    WantFrame(m, s.procs, i, t.procs[i], a);
    assert Free(t, a);
  }

  lemma ProperCall(s: System, i: nat)
    requires Safe(s) && i < |s.procs|
    ensures Proper(s.procs[i].req) && (!s.procs[i].req.GetRow? ==> WriteOk(s, s.procs[i]))
  {
    assert s.procs[i] in s.procs;
  }

  /** The row of the only writer, given what the step did to it. */
  lemma WriterRow(s: System, t: System, m: Rows, i: nat, a: Address)
    requires s.pipes != [] && NoOverlap(s) && RowOk(s, m, a) && i < |s.procs| && Writing(s.procs[i], a)
    requires |t.pipes| == |s.pipes| && |t.procs| == |s.procs|
    requires t.procs == s.procs[i := t.procs[i]] && t.procs[i].req == s.procs[i].req
    requires RowKey(a) in t.cache ==> Cacheable(t, a)
    requires var want := Outcome(s.procs[i].req);
             if t.procs[i].pc.Acked? then AtRest(t, a, want) else WriterOk(t, t.procs[i], a, want)
    ensures RowOk(t, m, a)
  {
    hide Want, Route, View, Pending, Hits, RowKey, Touches;
    WantFrame(m, s.procs, i, t.procs[i], a);
    forall j | 0 <= j < |s.procs| && j != i
      ensures !Writing(t.procs[j], a)
    {
      SoleWriter(s, i, j, a);
    }
    assert Writing(t.procs[i], a) == !t.procs[i].pc.Acked?;
    assert WriterOk(s, s.procs[i], a, Want(m, s.procs, a));
  }

  /** Answering once every ticket was awaited: nothing on the row is pending any more. */
  lemma AnswerRow(s: System, p: Proc, a: Address, want: Option<bytes>)
    requires s.pipes != [] && p.waited == |p.issued| && Headed(s, p, a, want)
    ensures Quiet(Home(s, a), RowKey(a)) && Lookup(Home(s, a).db, RowKey(a)) == want
  {
    hide RowKey, Touches, Pending, View, Route;
    assert p.issued[p.waited..] == [];
    assert Quiet(Home(s, a), RowKey(a));
    QuietView(Home(s, a), RowKey(a));
  }

  /** Awaiting the next ticket: its operation is committed, so it is not pending. */
  lemma AwaitRow(s: System, p: Proc, a: Address, want: Option<bytes>)
    requires PipesOk(s) && p.waited < |p.issued| && Headed(s, p, a, want) && Awake(s, p.issued[p.waited])
    ensures Headed(s, p.(waited := p.waited + 1), a, want)
  {
    hide RowKey, Touches, Pending, View, InOrder, Route;
    var home, g := Home(s, a), p.issued[p.waited];
    forall op <- Pending(home) | Touches(op, RowKey(a))
      ensures Gate(Route(a, |s.pipes|), op.ticket) in p.issued[p.waited + 1..]
    {
      PendingNotDone(home, s.next, op);
      assert p.issued[p.waited..] == [g] + p.issued[p.waited + 1..];
    }
  }

  lemma SettleRow(s: System, m: Rows, i: nat, a: Address)
    requires Coherent(s, m) && CanDo(s, Advance(i)) && Good(a) && Writing(s.procs[i], a) && s.procs[i].pc.Settle?
    ensures RowOk(StepSettle(s, i), m, a)
  {
    hide Want, Hits, RowKey, Compatible, Quiet, Headed, Safe, PipesOk, Route, ReadOk, View;
    var p := s.procs[i];
    var t := StepSettle(s, i);
    SafePipes(s);
    assert RowOk(s, m, a);
    assert WriterOk(s, p, a, Want(m, s.procs, a));
    var want := Outcome(p.req);
    if p.waited == |p.issued| {
      AnswerRow(s, p, a, want);
    } else {
      AwaitRow(s, p, a, want);
      HeadedFrame(s, t, t.procs[i], a, want);
    }
    WriterRow(s, t, m, i, a);
  }

  lemma SafePipes(s: System)
    requires Safe(s)
    ensures PipesOk(s) && s.pipes != []
  {
  }

  lemma HeadedFrame(s: System, t: System, p: Proc, a: Address, want: Option<bytes>)
    requires s.pipes != [] && t.pipes == s.pipes && p.waited <= |p.issued| && Headed(s, p, a, want)
    ensures Headed(t, p, a, want)
  {
  }

  /** The operation just sent to the row's engine is the only one pending on the row. */
  lemma SentHeads(s: System, i: nat, pc: Pc, a: Address)
    requires s.pipes != [] && i < |s.procs| && Good(a) && Writing(s.procs[i], a)
    requires Proper(s.procs[i].req) && s.procs[i].waited == 0 && Quiet(Home(s, a), RowKey(a))
    ensures var t := Issue(s, i, Route(a, |s.pipes|), pc);
            Headed(t, t.procs[i], a, Outcome(s.procs[i].req))
  {
    hide Hits, RowKey, Touches, Pending, View, OpFor, Proper, Outcome, Route;
    var p := s.procs[i];
    var e := Route(a, |s.pipes|);
    var t := Issue(s, i, e, pc);
    OpTouches(p.req, s.next, a);
    EnqueueView(Home(s, a), OpFor(p.req, s.next), RowKey(a));
    assert t.procs[i].issued[t.procs[i].waited..] == p.issued + [Gate(e, s.next)];
  }

  /** Sending the call's operation to the row's engine. */
  lemma SentRow(s: System, m: Rows, i: nat, pc: Pc, a: Address)
    requires Coherent(s, m) && i < |s.procs| && Good(a) && Writing(s.procs[i], a) && s.procs[i].pc.Send?
    requires s.procs[i].waited == 0 && Quiet(Home(s, a), RowKey(a))
    requires (pc.Send? && s.procs[i].req.Truncate? && Route(a, |s.pipes|) == |s.procs[i].issued|)
          || (pc.Settle? && CacheAgrees(s, a, Outcome(s.procs[i].req)))
    ensures RowOk(Issue(s, i, Route(a, |s.pipes|), pc), m, a)
  {
    hide Want, Hits, RowKey, Quiet, Headed, Enqueue, OpFor, Outcome, Route, NoOverlap, Safe;
    var t := Issue(s, i, Route(a, |s.pipes|), pc);
    assert RowOk(s, m, a);
    ProperCall(s, i);
    SentHeads(s, i, pc, a);
    WriterRow(s, t, m, i, a);
  }

  /** `put_row` and `delete_row` on their own row. */
  lemma RowCallRow(s: System, m: Rows, i: nat)
    requires Coherent(s, m) && CanDo(s, Advance(i)) && (s.procs[i].req.PutRow? || s.procs[i].req.DeleteRow?)
    ensures RowOk(Do(s, Advance(i)), m, s.procs[i].req.addr)
  {
    hide Want, RowKey, Touches, InOrder, OpFor, Compatible, Pending, View, Route;
    var p := s.procs[i];
    var a := p.req.addr;
    ProperCall(s, i);
    assert RowOk(s, m, a);
    assert Writing(p, a);
    assert WriterOk(s, p, a, Want(m, s.procs, a));
    match p.pc
    case Touch => WriterRow(s, Do(s, Advance(i)), m, i, a);
    case Send => SentRow(s, m, i, Settle, a);
    case Settle => SettleRow(s, m, i, a);
  }

  ghost predicate Truncating(s: System, m: Rows, i: nat, a: Address) {
    && s.pipes != [] && NoOverlap(s) && RowOk(s, m, a)
    && i < |s.procs| && s.procs[i].req.Truncate? && s.procs[i].pc.Send? && Writing(s.procs[i], a)
  }

  /** Sending the tombstone to an engine the row is not on. */
  lemma TruncateElsewhere(s: System, m: Rows, i: nat, a: Address)
    requires Truncating(s, m, i, a) && |s.procs[i].issued| < |s.pipes| && Route(a, |s.pipes|) != |s.procs[i].issued|
    ensures RowOk(Issue(s, i, |s.procs[i].issued|, Send), m, a)
  {
    hide Want, RowKey, Route, Hits, NoOverlap, Headed, Quiet, OpFor, Free;
    var p, t := s.procs[i], Issue(s, i, |s.procs[i].issued|, Send);
    assert WriterOk(s, p, a, Want(m, s.procs, a));
    RouteInRange(a, |s.pipes|);
    assert Home(t, a) == Home(s, a);
    if Route(a, |s.pipes|) < |p.issued| {
      HeadedKept(s, t, p, t.procs[i], a, Want(m, s.procs, a));
    }
    WriterRow(s, t, m, i, a);
  }

  /** Clearing the cache once every engine has its tombstone. */
  lemma TruncateClears(s: System, m: Rows, i: nat, a: Address)
    requires Truncating(s, m, i, a) && |s.procs[i].issued| >= |s.pipes|
    ensures RowOk(Replace(s.(cache := map[]), i, s.procs[i].(pc := Settle)), m, a)
  {
    hide Want, RowKey, Route, Hits, NoOverlap, Headed, Quiet, Free;
    var p := s.procs[i];
    var t := Replace(s.(cache := map[]), i, p.(pc := Settle));
    assert WriterOk(s, p, a, Want(m, s.procs, a));
    RouteInRange(a, |s.pipes|);
    HeadedKept(s, t, p, t.procs[i], a, Want(m, s.procs, a));
    WriterRow(s, t, m, i, a);
  }

  /** Issuing more tickets keeps the pending operations among those to await. */
  lemma HeadedKept(s: System, t: System, p: Proc, q: Proc, a: Address, want: Option<bytes>)
    requires s.pipes != [] && p.waited <= |p.issued| && Headed(s, p, a, want)
    requires |t.pipes| == |s.pipes| && Home(t, a) == Home(s, a) && p.issued <= q.issued && q.waited == p.waited
    ensures Headed(t, q, a, want)
  {
    hide Route, View, Pending, Touches, RowKey;
    assert p.issued[p.waited..] <= q.issued[q.waited..];
  }

  /** `delete_data_prefix` on a row below its prefix. */
  lemma TruncateRow(s: System, m: Rows, i: nat, a: Address)
    requires Coherent(s, m) && CanDo(s, Advance(i)) && s.procs[i].req.Truncate? && Good(a) && Hits(s.procs[i].req, a)
    ensures RowOk(Do(s, Advance(i)), m, a)
  {
    hide Want, RowKey, Touches, InOrder, OpFor, Compatible, Pending, View, Route, Hits, Quiet, NoOverlap, Safe;
    var p := s.procs[i];
    ProperCall(s, i);
    assert RowOk(s, m, a);
    assert Writing(p, a);
    assert WriterOk(s, p, a, Want(m, s.procs, a));
    if p.pc.Settle? {
      SettleRow(s, m, i, a);
    } else if p.pc.Send? {
      RouteInRange(a, |s.pipes|);
      if Route(a, |s.pipes|) == |p.issued| {
        SentRow(s, m, i, Send, a);
      } else if |p.issued| < |s.pipes| {
        TruncateElsewhere(s, m, i, a);
      } else {
        TruncateClears(s, m, i, a);
      }
    }
  }

  lemma AdvanceRow(s: System, m: Rows, i: nat, a: Address)
    requires Coherent(s, m) && CanDo(s, Advance(i)) && Good(a)
    ensures RowOk(Do(s, Advance(i)), m, a)
  {
    hide RowOk, Safe, NoOverlap, Do, ReadOk;
    var r := s.procs[i].req;
    if !Hits(r, a) {
      BystanderRow(s, m, i, a);
    } else if r.GetRow? {
      ReadRow(s, m, i);
    } else if r.Truncate? {
      TruncateRow(s, m, i, a);
    } else {
      RowCallRow(s, m, i);
    }
  }

  lemma AdvanceCoherent(s: System, m: Rows, i: nat)
    requires Coherent(s, m) && CanDo(s, Advance(i))
    ensures Coherent(Do(s, Advance(i)), m)
  {
    hide RowOk, Safe, Compatible, Want, Do;
    var t := Do(s, Advance(i));
    DoSafe(s, Advance(i));
    AdvanceFrame(s, i);
    forall a | Good(a)
      ensures RowOk(t, m, a)
    {
      AdvanceRow(s, m, i, a);
    }
    assert NoOverlap(t) by { AckedStays(s, i); }
    forall j | 0 <= j < |t.procs| && t.procs[j].req.GetRow?
      ensures ReadOk(t, m, j)
    {
      if j == i {
        ReadRow(s, m, i);
      } else {
        assert ReadOk(s, m, j);
        WantFrame(m, s.procs, i, t.procs[i], t.procs[j].req.addr);
      }
    }
  }

  lemma AckedStays(s: System, i: nat)
    requires CanDo(s, Advance(i)) && NoOverlap(s)
    ensures NoOverlap(Do(s, Advance(i)))
  {
    hide Compatible, Do;
    AdvanceFrame(s, i);
  }

  lemma DoCoherent(s: System, m: Rows, act: Action)
    requires Coherent(s, m) && CanDo(s, act) && Orderly(s, act)
    ensures Coherent(Do(s, act), m)
  {
    hide Coherent;
    match act
    case Engine(e, step) => EngineCoherent(s, m, e, step);
    case Begin(r) => BeginCoherent(s, m, r);
    case Advance(i) => AdvanceCoherent(s, m, i);
    case Shutdown => ShutdownCoherent(s, m);
  }

  lemma ShutdownCoherent(s: System, m: Rows)
    requires Coherent(s, m) && CanDo(s, Shutdown)
    ensures Coherent(Do(s, Shutdown), m)
  {
    hide Compatible, Want, WriterOk, AtRest, Safe;
    var t := Do(s, Shutdown);
    DoSafe(s, Shutdown);
    forall a | Good(a)
      ensures RowOk(t, m, a)
    {
      assert RowOk(s, m, a);
      RowStable(s, t, m, a);
    }
    forall i | 0 <= i < |t.procs| && t.procs[i].req.GetRow?
      ensures ReadOk(t, m, i)
    {
      assert ReadOk(s, m, i);
    }
  }

  lemma {:induction false} RunCoherent(s: System, m: Rows, acts: seq<Action>)
    requires Coherent(s, m) && Runs(s, acts) && OrderlyRun(s, acts)
    ensures Coherent(Final(s, acts), m)
    decreases |acts|
  {
    hide Coherent, CanDo, Do, Orderly;
    if acts != [] {
      DoCoherent(s, m, acts[0]);
      RunCoherent(Do(s, acts[0]), m, acts[1..]);
    }
  }

  /* ---------- Results ---------- */

  /** In every run without overlapping calls on one row, from any engine contents, every
      answered `get_row` returned what a plain map holds after the calls that began before
      it, executed one by one. Calls on other rows interleave freely, as do the engines. */
  lemma AnswersLikeAPlainMap(dbs: seq<Db>, caching: bool, m: Rows, acts: seq<Action>, pid: nat)
    requires dbs != [] && Represents(dbs, m)
    requires Runs(Fresh(dbs, caching), acts) && OrderlyRun(Fresh(dbs, caching), acts)
    requires var s := Final(Fresh(dbs, caching), acts);
             pid < |s.procs| && s.procs[pid].req.GetRow? && s.procs[pid].pc.Acked?
    ensures var s := Final(Fresh(dbs, caching), acts);
            s.procs[pid].found == Lookup(Replay(m, s.procs[..pid]), s.procs[pid].req.addr)
  {
    hide Runs, Final, OrderlyRun, Represents;
    FreshCoherent(dbs, caching, m);
    RunCoherent(Fresh(dbs, caching), m, acts);
    assert ReadOk(Final(Fresh(dbs, caching), acts), m, pid);
  }

  /** In the same runs, a row no write is in progress on is, on its engine, exactly what the
      plain map holds after all calls so far; and a cached copy equals the engine's value. */
  lemma RestingRowsAreCoherent(dbs: seq<Db>, caching: bool, m: Rows, acts: seq<Action>, a: Address)
    requires dbs != [] && Represents(dbs, m) && Good(a)
    requires Runs(Fresh(dbs, caching), acts) && OrderlyRun(Fresh(dbs, caching), acts)
    requires Free(Final(Fresh(dbs, caching), acts), a)
    ensures var s := Final(Fresh(dbs, caching), acts);
            && s.pipes != []
            && Lookup(Home(s, a).db, RowKey(a)) == Lookup(Replay(m, s.procs), a)
            && (RowKey(a) in s.cache ==> Lookup(Home(s, a).db, RowKey(a)) == Some(s.cache[RowKey(a)]))
  {
    hide Runs, Final, OrderlyRun, Represents;
    FreshCoherent(dbs, caching, m);
    RunCoherent(Fresh(dbs, caching), m, acts);
    assert RowOk(Final(Fresh(dbs, caching), acts), m, a);
  }
}
