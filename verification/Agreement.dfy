/** Which overlapping calls keep the row cache in agreement with the engines (src/storage.rs).
    Reads may overlap reads; deletes and truncates may overlap each other; a put may overlap
    truncates and puts of the same value. In every run with no other overlap on one row, a cached row with no call in
    progress equals the value on its engine. */
module Agreement {
  import opened Bytes
  import opened Keys
  import opened Pipeline
  import opened Protocol
  import opened Coherence

  /* ---------- Harmless overlaps ---------- */

  predicate Removes(r: Request) {
    r.DeleteRow? || r.Truncate?
  }

  /** Two calls on one row that may be in progress together. */
  predicate Harmless(r: Request, q: Request) {
    || (r.GetRow? && q.GetRow?)
    || (Removes(r) && Removes(q))
    || (r.PutRow? && q.PutRow? && r.row == q.row)
    || (r.PutRow? && q.Truncate?)
    || (r.Truncate? && q.PutRow?)
  }

  ghost predicate Tolerable(r: Request, q: Request) {
    forall a | Hits(r, a) && Hits(q, a) :: Harmless(r, q)
  }

  ghost predicate Tolerant(s: System, act: Action) {
    act.Begin? ==> forall p <- s.procs | !p.pc.Acked? :: Tolerable(p.req, act.req)
  }

  ghost predicate TolerantRun(s: System, acts: seq<Action>)
    requires Runs(s, acts)
    decreases |acts|
  {
    acts == [] || (Tolerant(s, acts[0]) && TolerantRun(Do(s, acts[0]), acts[1..]))
  }

  ghost predicate NoHarm(s: System) {
    forall i, j | 0 <= i < j < |s.procs| && !s.procs[i].pc.Acked? && !s.procs[j].pc.Acked? ::
      Tolerable(s.procs[i].req, s.procs[j].req)
  }

  predicate Active(p: Proc, a: Address) {
    !p.pc.Acked? && Hits(p.req, a)
  }

  lemma TogetherHarmless(s: System, i: nat, j: nat, a: Address)
    requires NoHarm(s) && i < |s.procs| && j < |s.procs| && i != j
    requires Active(s.procs[i], a) && Active(s.procs[j], a)
    ensures Harmless(s.procs[i].req, s.procs[j].req)
  {
    hide Hits;
    if i < j {
      assert Tolerable(s.procs[i].req, s.procs[j].req);
    } else {
      assert Tolerable(s.procs[j].req, s.procs[i].req);
    }
  }

  /* ---------- The invariant of a row ---------- */

  function Eventual(s: System, a: Address): Option<bytes>
    requires s.pipes != []
  {
    Lookup(View(Home(s, a)), RowKey(a))
  }

  /** Call `j` still awaits the operation. */
  predicate OwedBy(s: System, j: int, a: Address, op: Op) {
    && 0 <= j < |s.procs| && Writing(s.procs[j], a) && s.procs[j].waited <= |s.procs[j].issued|
    && Gate(Route(a, |s.pipes|), op.ticket) in s.procs[j].issued[s.procs[j].waited..]
  }

  /** Every pending operation on the row is awaited by a call in progress. */
  ghost predicate Owed(s: System, a: Address)
    requires s.pipes != []
  {
    forall op <- Pending(Home(s, a)) | Touches(op, RowKey(a)) :: exists j :: OwedBy(s, j, a, op)
  }

  /** A put has filled the cache and not sent, or a truncate has sent and not cleared it. */
  predicate Excuse(s: System, j: int, a: Address) {
    && 0 <= j < |s.procs| && Writing(s.procs[j], a) && s.procs[j].pc.Send?
    && (s.procs[j].req.PutRow? || (s.procs[j].req.Truncate? && Route(a, |s.pipes|) < |s.procs[j].issued|))
  }

  ghost predicate Backed(s: System, a: Address)
    requires s.pipes != []
  {
    RowKey(a) in s.cache ==>
      Cacheable(s, a) && (Eventual(s, a) == Some(s.cache[RowKey(a)]) || exists j :: Excuse(s, j, a))
  }

  /** Between its cache access and its send, a put finds its own row cached or none, and a
      delete finds none. */
  predicate Staged(s: System, j: nat, a: Address)
    requires j < |s.procs|
  {
    var p := s.procs[j];
    Writing(p, a) && p.pc.Send? && RowKey(a) in s.cache ==>
      (p.req.PutRow? ==> s.cache[RowKey(a)] == p.req.row) && !p.req.DeleteRow?
  }

  /** A read about to fill the cache holds the row's value. */
  predicate Loaded(s: System, j: nat, a: Address)
    requires j < |s.procs| && s.pipes != []
  {
    var p := s.procs[j];
    Active(p, a) && p.req.GetRow? && p.pc.Fill? ==> p.found == Eventual(s, a)
  }

  ghost predicate Fair(s: System, a: Address) {
    && s.pipes != [] && Owed(s, a) && Backed(s, a)
    && forall j | 0 <= j < |s.procs| :: Staged(s, j, a) && Loaded(s, j, a)
  }

  ghost predicate Agreed(s: System) {
    Safe(s) && NoHarm(s) && forall a | Good(a) :: Fair(s, a)
  }

  /** A row no call is in progress on: nothing is pending, and a cached copy equals the
      engine's value. */
  lemma RestingAgrees(s: System, a: Address)
    requires Fair(s, a) && forall j | 0 <= j < |s.procs| :: !Active(s.procs[j], a)
    ensures Quiet(Home(s, a), RowKey(a))
    ensures RowKey(a) in s.cache ==> Lookup(Home(s, a).db, RowKey(a)) == Some(s.cache[RowKey(a)])
  {
    hide Pending, View, Touches, RowKey, Route, Hits;
    assert Quiet(Home(s, a), RowKey(a));
    QuietView(Home(s, a), RowKey(a));
  }

  /* ---------- Steps that do not concern the row ---------- */

  /** The calls in progress on the row, its pipeline and its cache entry stay, or the entry
      is evicted. */
  ghost predicate Apart(s: System, t: System, a: Address)
    requires s.pipes != [] && t.pipes != []
  {
    && |t.pipes| == |s.pipes| && t.caching == s.caching && |t.procs| >= |s.procs|
    && Calm(Home(s, a), Home(t, a), RowKey(a))
    && (RowKey(a) in t.cache ==> RowKey(a) in s.cache && t.cache[RowKey(a)] == s.cache[RowKey(a)])
    && (forall j | 0 <= j < |s.procs| && Active(s.procs[j], a) :: t.procs[j] == s.procs[j])
    && (forall j | 0 <= j < |s.procs| && !Active(s.procs[j], a) :: !Active(t.procs[j], a))
    && (forall j | |s.procs| <= j < |t.procs| && Active(t.procs[j], a) :: FreshCall(t.procs[j]))
  }

  /** A call that has just begun. */
  predicate FreshCall(p: Proc) {
    p.issued == [] && p.waited == 0 && !p.pc.Fill? && (p.pc.Send? ==> p.req.Truncate?)
  }

  lemma OwedStays(s: System, t: System, a: Address)
    requires s.pipes != [] && t.pipes != [] && Owed(s, a) && |t.pipes| == |s.pipes| && |t.procs| >= |s.procs|
    requires forall op <- Pending(Home(t, a)) | Touches(op, RowKey(a)) :: op in Pending(Home(s, a))
    requires forall j | 0 <= j < |s.procs| && Writing(s.procs[j], a) :: t.procs[j] == s.procs[j]
    ensures Owed(t, a)
  {
    hide Pending, Touches, RowKey, Route, Hits, Home;
    forall op <- Pending(Home(t, a)) | Touches(op, RowKey(a))
      ensures exists j :: OwedBy(t, j, a, op)
    {
      var j :| OwedBy(s, j, a, op);
      assert OwedBy(t, j, a, op);
    }
  }

  lemma ApartFair(s: System, t: System, a: Address)
    requires Fair(s, a) && t.pipes != [] && Apart(s, t, a)
    ensures Fair(t, a)
  {
    hide Pending, View, Touches, RowKey, Route, Hits, Home, Owed, ShouldCache;
    OwedStays(s, t, a);
    if RowKey(a) in t.cache && Eventual(s, a) != Some(s.cache[RowKey(a)]) {
      var j :| Excuse(s, j, a);
      assert Excuse(t, j, a);
    }
    forall j | 0 <= j < |t.procs|
      ensures Staged(t, j, a) && Loaded(t, j, a)
    {
      if j < |s.procs| {
        assert Staged(s, j, a) && Loaded(s, j, a);
      }
    }
  }

  lemma FreshAgreed(dbs: seq<Db>, caching: bool)
    requires dbs != []
    ensures Agreed(Fresh(dbs, caching))
  {
    hide Route, RowKey, ApplyAll, Safe;
    FreshSafe(dbs, caching);
    forall a | Good(a)
      ensures Fair(Fresh(dbs, caching), a)
    {
      RouteInRange(a, |dbs|);
      assert Pending(Home(Fresh(dbs, caching), a)) == [];
    }
  }

  lemma EngineFair(s: System, e: nat, step: PipeStep, a: Address)
    requires CanDo(s, Engine(e, step)) && Fair(s, a)
    ensures Fair(Do(s, Engine(e, step)), a)
  {
    hide Fair, CanStep, StepPipe, Route, RowKey, Hits;
    var t := Do(s, Engine(e, step));
    assert s.pipes != [] by { FairPipes(s, a); }
    RouteInRange(a, |s.pipes|);
    assert Calm(Home(s, a), Home(t, a), RowKey(a)) by {
      CalmStep(s.pipes[e], step, RowKey(a));
    }
    ApartFair(s, t, a);
  }

  lemma FairPipes(s: System, a: Address)
    requires Fair(s, a)
    ensures s.pipes != []
  {
  }

  lemma BeginFair(s: System, r: Request, a: Address)
    requires CanDo(s, Begin(r)) && Fair(s, a)
    ensures Fair(Do(s, Begin(r)), a)
  {
    hide Fair, Route, RowKey, Hits, View, Pending, Touches;
    ApartFair(s, Do(s, Begin(r)), a);
  }

  lemma BystanderFair(s: System, i: nat, a: Address)
    requires Safe(s) && CanDo(s, Advance(i)) && Fair(s, a) && Good(a) && !Hits(s.procs[i].req, a)
    ensures Fair(Do(s, Advance(i)), a)
  {
    hide Fair, Safe, CanDo, Do, Route, RowKey, Hits, View, Pending, Touches, Calm;
    assert s.pipes != [] by { FairPipes(s, a); }
    BystanderPipe(s, i, a);
    BystanderCache(s, i, a);
    AdvanceFrame(s, i);
    ApartFair(s, Do(s, Advance(i)), a);
  }

  /* ---------- Steps of a call on the row ---------- */

  /** Call `i` took a step and nothing else changed but the cache. */
  ghost predicate Stepped(s: System, t: System, i: nat) {
    && s.pipes != [] && t.pipes == s.pipes && t.caching == s.caching && i < |s.procs| == |t.procs|
    && t.procs == s.procs[i := t.procs[i]] && t.procs[i].req == s.procs[i].req
  }

  /** While a read is in progress nobody writes the row, so its engine's value is final. */
  lemma ReadIsQuiet(s: System, i: nat, a: Address)
    requires NoHarm(s) && Fair(s, a) && i < |s.procs| && Active(s.procs[i], a) && s.procs[i].req.GetRow?
    ensures forall j | 0 <= j < |s.procs| :: !Writing(s.procs[j], a)
    ensures Lookup(Home(s, a).db, RowKey(a)) == Eventual(s, a)
  {
    hide Pending, View, Touches, RowKey, Route, Hits, Home, NoHarm;
    forall j | 0 <= j < |s.procs|
      ensures !Writing(s.procs[j], a)
    {
      if j != i && Active(s.procs[j], a) {
        TogetherHarmless(s, i, j, a);
      }
    }
    QuietView(Home(s, a), RowKey(a));
  }

  lemma ReadFair(s: System, i: nat, a: Address)
    requires NoHarm(s) && Fair(s, a) && CanDo(s, Advance(i)) && s.procs[i].req == GetRow(a)
    ensures Fair(Do(s, Advance(i)), a)
  {
    hide Pending, View, Touches, RowKey, Route, NoHarm, Owed, ShouldCache;
    var t := Do(s, Advance(i));
    ReadIsQuiet(s, i, a);
    assert Stepped(s, t, i);
    OwedStays(s, t, a);
    assert Staged(s, i, a) && Loaded(s, i, a);
    forall j | 0 <= j < |t.procs|
      ensures Staged(t, j, a) && Loaded(t, j, a)
    {
      assert Staged(s, j, a) && Loaded(s, j, a) && !Writing(s.procs[j], a);
    }
  }

  /** The cache access of a put or a delete. */
  lemma TouchFair(s: System, i: nat, a: Address)
    requires NoHarm(s) && Fair(s, a) && CanDo(s, Advance(i)) && s.procs[i].pc.Touch?
    requires s.procs[i].req.DeleteRow? || s.procs[i].req.PutRow?
    requires s.procs[i].req.addr == a
    ensures Fair(Do(s, Advance(i)), a)
  {
    hide Pending, View, Touches, RowKey, Route, NoHarm, ShouldCache, Home;
    var p, t := s.procs[i], Do(s, Advance(i));
    assert Stepped(s, t, i) && t.procs[i] == p.(pc := Send);
    OwedOthers(s, t, i, a);
    if RowKey(a) in t.cache {
      assert Excuse(t, i, a);
    }
    forall j | 0 <= j < |t.procs|
      ensures Staged(t, j, a) && Loaded(t, j, a)
    {
      assert Staged(s, j, a) && Loaded(s, j, a);
      if j != i && Active(s.procs[j], a) {
        TogetherHarmless(s, i, j, a);
      }
    }
  }

  /** A step of call `i` that keeps its own tickets keeps every pending operation awaited. */
  lemma OwedOthers(s: System, t: System, i: nat, a: Address)
    requires Stepped(s, t, i) && Owed(s, a)
    requires Writing(s.procs[i], a) ==> Writing(t.procs[i], a)
    requires t.procs[i].issued == s.procs[i].issued && t.procs[i].waited == s.procs[i].waited
    ensures Owed(t, a)
  {
    hide Pending, Touches, RowKey, Route, Hits;
    forall op <- Pending(Home(t, a)) | Touches(op, RowKey(a))
      ensures exists j :: OwedBy(t, j, a, op)
    {
      var j :| OwedBy(s, j, a, op);
      assert OwedBy(t, j, a, op);
    }
  }

  /** Sending to the row's engine: the new operation is awaited by its call. */
  lemma OwedSent(s: System, i: nat, pc: Pc, a: Address)
    requires s.pipes != [] && Owed(s, a) && i < |s.procs| && Writing(s.procs[i], a) && !pc.Acked?
    requires s.procs[i].waited == 0 && OpFor(s.procs[i].req, s.next).ticket == s.next
    ensures Owed(Issue(s, i, Route(a, |s.pipes|), pc), a)
  {
    hide Pending, Touches, RowKey, Hits, OpFor, Route;
    var e := Route(a, |s.pipes|);
    RouteInRange(a, |s.pipes|);
    var t, op' := Issue(s, i, e, pc), OpFor(s.procs[i].req, s.next);
    EnqueueView(Home(s, a), op', RowKey(a));
    forall op <- Pending(Home(t, a)) | Touches(op, RowKey(a))
      ensures exists j :: OwedBy(t, j, a, op)
    {
      if op == op' {
        assert t.procs[i].issued[t.procs[i].waited..] == s.procs[i].issued + [Gate(e, s.next)];
        assert OwedBy(t, i, a, op);
      } else {
        var j :| OwedBy(s, j, a, op);
        assert OwedBy(t, j, a, op);
      }
    }
  }

  /** The send of a put or a delete. */
  lemma SendFair(s: System, i: nat, a: Address)
    requires Safe(s) && NoHarm(s) && Fair(s, a) && Good(a) && i < |s.procs| && s.procs[i].pc.Send?
    requires s.procs[i].req.DeleteRow? || s.procs[i].req.PutRow?
    requires s.procs[i].req.addr == a
    ensures Fair(Issue(s, i, Route(a, |s.pipes|), Settle), a)
  {
    hide Pending, View, Touches, RowKey, NoHarm, ShouldCache, OpFor, Route, InOrder;
    var p, e := s.procs[i], Route(a, |s.pipes|);
    RouteInRange(a, |s.pipes|);
    var t := Issue(s, i, e, Settle);
    assert p in s.procs;
    OpTouches(p.req, s.next, a);
    EnqueueView(Home(s, a), OpFor(p.req, s.next), RowKey(a));
    OwedSent(s, i, Settle, a);
    assert Eventual(t, a) == Outcome(p.req);
    assert Staged(s, i, a);
    forall j | 0 <= j < |t.procs|
      ensures Staged(t, j, a) && Loaded(t, j, a)
    {
      assert Staged(s, j, a) && Loaded(s, j, a);
      if j != i && Active(s.procs[j], a) {
        TogetherHarmless(s, i, j, a);
      }
    }
  }

  /** A truncate sends its tombstone to the row's engine: its cached copy is excused until
      the cache is cleared. */
  lemma TombstoneFair(s: System, i: nat, a: Address)
    requires Safe(s) && NoHarm(s) && Fair(s, a) && Good(a) && i < |s.procs| && s.procs[i].pc.Send?
    requires s.procs[i].req.Truncate? && Active(s.procs[i], a) && |s.procs[i].issued| == Route(a, |s.pipes|)
    ensures Fair(Issue(s, i, Route(a, |s.pipes|), Send), a)
  {
    hide Pending, View, Touches, RowKey, NoHarm, ShouldCache, OpFor, Route, InOrder, Hits;
    var p, e := s.procs[i], Route(a, |s.pipes|);
    RouteInRange(a, |s.pipes|);
    var t := Issue(s, i, e, Send);
    assert p in s.procs;
    OpTouches(p.req, s.next, a);
    EnqueueView(Home(s, a), OpFor(p.req, s.next), RowKey(a));
    OwedSent(s, i, Send, a);
    assert Excuse(t, i, a);
    forall j | 0 <= j < |t.procs|
      ensures Staged(t, j, a) && Loaded(t, j, a)
    {
      assert Staged(s, j, a) && Loaded(s, j, a);
      if j != i && Active(s.procs[j], a) {
        TogetherHarmless(s, i, j, a);
      }
    }
  }

  /** It sends it to another engine. */
  lemma ElsewhereFair(s: System, i: nat, e: nat, a: Address)
    requires Fair(s, a) && i < |s.procs| && s.procs[i].pc.Send? && s.procs[i].req.Truncate?
    requires e == |s.procs[i].issued| < |s.pipes| && e != Route(a, |s.pipes|) && s.procs[i].waited == 0
    ensures Fair(Issue(s, i, e, Send), a)
  {
    hide Pending, View, Touches, RowKey, ShouldCache, OpFor, Route, Hits;
    RouteInRange(a, |s.pipes|);
    var t := Issue(s, i, e, Send);
    assert Home(t, a) == Home(s, a);
    forall op <- Pending(Home(t, a)) | Touches(op, RowKey(a))
      ensures exists j :: OwedBy(t, j, a, op)
    {
      var j :| OwedBy(s, j, a, op);
      assert s.procs[i].issued <= t.procs[i].issued;
      assert OwedBy(t, j, a, op);
    }
    if RowKey(a) in s.cache && Eventual(s, a) != Some(s.cache[RowKey(a)]) {
      var j :| Excuse(s, j, a);
      assert Excuse(t, j, a);
    }
    forall j | 0 <= j < |t.procs|
      ensures Staged(t, j, a) && Loaded(t, j, a)
    {
      assert Staged(s, j, a) && Loaded(s, j, a);
    }
  }

  /** It clears the cache: nothing cached can be wrong. */
  lemma ClearFair(s: System, i: nat, a: Address)
    requires Fair(s, a) && i < |s.procs| && s.procs[i].pc.Send? && s.procs[i].req.Truncate?
    ensures Fair(Replace(s.(cache := map[]), i, s.procs[i].(pc := Settle)), a)
  {
    hide Pending, View, Touches, RowKey, ShouldCache, Route, Hits;
    var t := Replace(s.(cache := map[]), i, s.procs[i].(pc := Settle));
    OwedOthers(s, t, i, a);
    forall j | 0 <= j < |t.procs|
      ensures Staged(t, j, a) && Loaded(t, j, a)
    {
      assert Loaded(s, j, a);
    }
  }

  lemma OwedSettles(s: System, i: nat, a: Address)
    requires PipesOk(s) && Owed(s, a) && i < |s.procs| && s.procs[i].pc.Settle?
    requires s.procs[i].waited < |s.procs[i].issued| ==> Awake(s, s.procs[i].issued[s.procs[i].waited])
    ensures Owed(StepSettle(s, i), a)
  {
    hide Pending, Touches, RowKey, Route, Hits, InOrder;
    var p, t := s.procs[i], StepSettle(s, i);
    RouteInRange(a, |s.pipes|);
    forall op <- Pending(Home(t, a)) | Touches(op, RowKey(a))
      ensures exists j :: OwedBy(t, j, a, op)
    {
      var j :| OwedBy(s, j, a, op);
      PendingNotDone(Home(s, a), s.next, op);
      if j == i {
        StillAwaited(p, Gate(Route(a, |s.pipes|), op.ticket));
      }
      assert OwedBy(t, j, a, op);
    }
  }

  lemma StillAwaited(p: Proc, g: Gate)
    requires p.waited <= |p.issued| && g in p.issued[p.waited..]
    requires p.waited < |p.issued| ==> p.issued[p.waited] != g
    ensures p.waited < |p.issued| && g in p.issued[p.waited + 1..]
  {
    assert p.issued[p.waited..] == [p.issued[p.waited]] + p.issued[p.waited + 1..];
  }

  /** Awaiting a ticket, or answering once all are awaited. */
  lemma SettleFair(s: System, i: nat, a: Address)
    requires Safe(s) && Fair(s, a) && CanDo(s, Advance(i)) && s.procs[i].pc.Settle? && !s.procs[i].req.GetRow?
    ensures Fair(StepSettle(s, i), a)
  {
    hide Pending, View, Touches, RowKey, ShouldCache, Route, Hits, PipesOk, CallsOk, Owed;
    var t := StepSettle(s, i);
    OwedSettles(s, i, a);
    if RowKey(a) in s.cache && Eventual(s, a) != Some(s.cache[RowKey(a)]) {
      var j :| Excuse(s, j, a);
      assert Excuse(t, j, a);
    }
    forall j | 0 <= j < |t.procs|
      ensures Staged(t, j, a) && Loaded(t, j, a)
    {
      assert Staged(s, j, a) && Loaded(s, j, a);
    }
  }

  /* ---------- Every step, every run ---------- */

  /** A call's own row, or a row its truncate covers. */
  lemma ActiveFair(s: System, i: nat, a: Address)
    requires Safe(s) && NoHarm(s) && CanDo(s, Advance(i)) && Fair(s, a) && Good(a) && Hits(s.procs[i].req, a)
    ensures Fair(Do(s, Advance(i)), a)
  {
    hide Fair, NoHarm, RowKey, Route, OpFor, PipesOk, Cacheable, Awake;
    var p := s.procs[i];
    assert p in s.procs;
    RouteInRange(a, |s.pipes|);
    if p.req.GetRow? {
      ReadFair(s, i, a);
    } else if p.pc.Settle? {
      SettleFair(s, i, a);
    } else if p.req.Truncate? {
      if p.pc.Send? {
        if |p.issued| >= |s.pipes| {
          ClearFair(s, i, a);
        } else if |p.issued| == Route(a, |s.pipes|) {
          TombstoneFair(s, i, a);
        } else {
          ElsewhereFair(s, i, |p.issued|, a);
        }
      }
    } else if p.pc.Touch? {
      TouchFair(s, i, a);
    } else if p.pc.Send? {
      SendFair(s, i, a);
    }
  }

  lemma NoHarmKept(s: System, act: Action)
    requires NoHarm(s) && CanDo(s, act) && Tolerant(s, act)
    ensures NoHarm(Do(s, act))
  {
    hide Tolerable, StepPipe, CanStep, StepGet, StepRow, StepTruncate;
    var t := Do(s, act);
    if act.Advance? {
      AdvanceFrame(s, act.pid);
      AckedForGood(s, act.pid);
    }
    if act.Begin? {
      assert forall i | 0 <= i < |s.procs| :: s.procs[i] in s.procs;
    }
  }

  /** Only calls in progress take steps. */
  lemma AckedForGood(s: System, i: nat)
    requires CanDo(s, Advance(i))
    ensures !s.procs[i].pc.Acked?
  {
  }

  lemma DoAgreed(s: System, act: Action)
    requires Agreed(s) && CanDo(s, act) && Tolerant(s, act)
    ensures Agreed(Do(s, act))
  {
    hide Safe, Fair, NoHarm, CanDo, Do, Tolerant, Hits;
    DoSafe(s, act);
    NoHarmKept(s, act);
    forall a | Good(a)
      ensures Fair(Do(s, act), a)
    {
      match act
      case Engine(e, step) => EngineFair(s, e, step, a);
      case Begin(r) => BeginFair(s, r, a);
      case Advance(i) =>
        if i < |s.procs| && Hits(s.procs[i].req, a) {
          ActiveFair(s, i, a);
        } else {
          AdvanceFair(s, i, a);
        }
      case Shutdown => ShutdownFair(s, a);
    }
  }

  lemma AdvanceFair(s: System, i: nat, a: Address)
    requires Safe(s) && CanDo(s, Advance(i)) && Fair(s, a) && Good(a)
    requires i < |s.procs| ==> !Hits(s.procs[i].req, a)
    ensures Fair(Do(s, Advance(i)), a)
  {
    hide Safe, Fair, Do, Hits;
    BystanderFair(s, i, a);
  }

  lemma ShutdownFair(s: System, a: Address)
    requires CanDo(s, Shutdown) && Fair(s, a)
    ensures Fair(Do(s, Shutdown), a)
  {
    hide Fair, Route, RowKey, Hits, View, Pending, Touches;
    ApartFair(s, Do(s, Shutdown), a);
  }

  lemma {:induction false} RunAgreed(s: System, acts: seq<Action>)
    requires Agreed(s) && Runs(s, acts) && TolerantRun(s, acts)
    ensures Agreed(Final(s, acts))
    decreases |acts|
  {
    hide Agreed, CanDo, Do, Tolerant;
    if acts != [] {
      DoAgreed(s, acts[0]);
      RunAgreed(Do(s, acts[0]), acts[1..]);
    }
  }

  /** In every run whose overlapping calls on one row are harmless, with any interleaving, a
      row no call is in progress on has nothing pending, and if it is cached the cached copy
      is the value on its engine. */
  lemma CachedRowsAgree(dbs: seq<Db>, caching: bool, acts: seq<Action>, a: Address)
    requires dbs != [] && Runs(Fresh(dbs, caching), acts) && TolerantRun(Fresh(dbs, caching), acts) && Good(a)
    requires forall p <- Final(Fresh(dbs, caching), acts).procs :: !Active(p, a)
    ensures var s := Final(Fresh(dbs, caching), acts);
            && s.pipes != [] && Quiet(Home(s, a), RowKey(a))
            && (RowKey(a) in s.cache ==> Lookup(Home(s, a).db, RowKey(a)) == Some(s.cache[RowKey(a)]))
  {
    hide Runs, Final, TolerantRun, Fair, Safe, NoHarm, Active;
    FreshAgreed(dbs, caching);
    RunAgreed(Fresh(dbs, caching), acts);
    var s := Final(Fresh(dbs, caching), acts);
    assert Fair(s, a);
    FairPipes(s, a);
    assert forall j | 0 <= j < |s.procs| :: s.procs[j] in s.procs;
    RestingAgrees(s, a);
  }
}
