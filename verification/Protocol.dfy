/** The storage as a step system (src/storage.rs): any number of engines with their
    pipelines, the shared row cache, and concurrent calls of `get_row`, `put_row`,
    `delete_row` and `delete_data_prefix`, each followed by `settle`. One step is one
    access to shared state, so every interleaving of the threads is a run. */
module Protocol {
  import opened Bytes
  import opened Keys
  import opened Pipeline

  datatype Scope = Keyspace(ks: bytes) | Table(ks: bytes, tb: bytes)

  datatype Request =
    | GetRow(addr: Address)
    | PutRow(addr: Address, row: bytes)
    | DeleteRow(addr: Address)
    | Truncate(scope: Scope)

  function ScopePrefix(scope: Scope): bytes {
    match scope
    case Keyspace(ks) => KeyspacePrefix(ks)
    case Table(ks, tb) => DataPrefix(ks, tb)
  }

  /** Names without `!`, key parts shorter than 2^16. */
  predicate Proper(r: Request) {
    match r
    case Truncate(Keyspace(ks)) => Plain(ks)
    case Truncate(Table(ks, tb)) => Plain(ks) && Plain(tb)
    case _ => Good(r.addr)
  }

  /** The rows a request concerns. */
  predicate Hits(r: Request, a: Address) {
    match r
    case Truncate(Keyspace(ks)) => a.keyspace == ks
    case Truncate(Table(ks, tb)) => a.keyspace == ks && a.table == tb
    case _ => r.addr == a
  }

  /** What a write leaves at the rows it hits. */
  function Outcome(r: Request): Option<bytes> {
    if r.PutRow? then Some(r.row) else None
  }

  /** The operation a write sends. */
  function OpFor(r: Request, ticket: nat): Op
    requires !r.GetRow?
  {
    match r
    case PutRow(a, row) => Put(RowKey(a), row, ticket)
    case DeleteRow(a) => Delete(RowKey(a), ticket)
    case Truncate(scope) =>
      var p := ScopePrefix(scope);
      DeleteRange(p, if UpperBound(p).Some? then UpperBound(p).value else [], ticket)
  }

  lemma OpTouches(r: Request, ticket: nat, a: Address)
    requires !r.GetRow? && Proper(r) && Good(a)
    ensures Touches(OpFor(r, ticket), RowKey(a)) <==> Hits(r, a)
    ensures Effect(OpFor(r, ticket)) == Outcome(r) && OpFor(r, ticket).ticket == ticket
  {
    hide EncodeKey, DataPrefix, KeyspacePrefix, RowKey, InRange, UpperBound;
    match r
    case Truncate(scope) =>
      ScopeRange(scope, RowKey(a));
      match scope {
        case Keyspace(ks) => KeyspaceOfKey(a, ks);
        case Table(ks, tb) => TableOfKey(a, ks, tb);
      }
    case PutRow(b, _) =>
      if RowKey(b) == RowKey(a) {
        RowKeyInjective(b, a);
      }
    case DeleteRow(b) =>
      if RowKey(b) == RowKey(a) {
        RowKeyInjective(b, a);
      }
  }

  /** A scope's tombstone covers exactly the keys below the scope's prefix. */
  lemma ScopeRange(scope: Scope, k: bytes)
    ensures UpperBound(ScopePrefix(scope)).Some?
    ensures InRange(k, ScopePrefix(scope), UpperBound(ScopePrefix(scope)).value) <==> StartsWith(k, ScopePrefix(scope))
  {
    hide InRange, UpperBound;
    BangPrefixExact(ScopePrefix(scope), k);
  }

  /* ---------- State ---------- */

  datatype Gate = Gate(engine: nat, ticket: nat)

  /** Where a call stands: about to look in the cache, to read the engine, to fill the
      cache; about to change the cache, to send, to await the next ticket; or answered. */
  datatype Pc = Look | Fetch | Fill | Touch | Send | Settle | Acked

  datatype Proc = Proc(req: Request, pc: Pc, found: Option<bytes>, issued: seq<Gate>, waited: nat)

  datatype System = System(
    pipes: seq<Pipe>,
    caching: bool,
    cache: map<bytes, bytes>,
    next: nat,
    procs: seq<Proc>,
    accepting: bool)

  datatype Action = Engine(engine: nat, step: PipeStep) | Begin(req: Request) | Advance(pid: nat) | Shutdown

  const SYSTEM: bytes := [0x73, 0x79, 0x73, 0x74, 0x65, 0x6D]
  const SYSTEM_SCHEMA: bytes := SYSTEM + [0x5F, 0x73, 0x63, 0x68, 0x65, 0x6D, 0x61]
  const SYSTEM_VIRTUAL_SCHEMA: bytes :=
    SYSTEM + [0x5F, 0x76, 0x69, 0x72, 0x74, 0x75, 0x61, 0x6C, 0x5F, 0x73, 0x63, 0x68, 0x65, 0x6D, 0x61]

  predicate ShouldCache(ks: bytes) {
    ks != SYSTEM && ks != SYSTEM_SCHEMA && ks != SYSTEM_VIRTUAL_SCHEMA
  }

  /** The rows of every keyspace are cached but those of the three system keyspaces. */
  lemma CachedKeyspaces(ks: string)
    requires forall i | 0 <= i < |ks| :: ks[i] < 128 as char
    ensures ShouldCache(seq(|ks|, i requires 0 <= i < |ks| => ks[i] as int)) <==>
              ks != "system" && ks != "system_schema" && ks != "system_virtual_schema"
  {
    var b := seq(|ks|, i requires 0 <= i < |ks| => ks[i] as int);
    SameText(ks, b, "system", SYSTEM);
    SameText(ks, b, "system_schema", SYSTEM_SCHEMA);
    SameText(ks, b, "system_virtual_schema", SYSTEM_VIRTUAL_SCHEMA);
  }

  lemma SameText(s: string, b: bytes, u: string, c: bytes)
    requires |b| == |s| && forall i | 0 <= i < |s| :: b[i] == s[i] as int
    requires |c| == |u| && forall i | 0 <= i < |u| :: c[i] == u[i] as int
    ensures b == c <==> s == u
  {
    if b == c {
      assert forall i | 0 <= i < |s| :: s[i] as int == u[i] as int;
    }
  }

  predicate Cacheable(s: System, a: Address) {
    s.caching && ShouldCache(a.keyspace)
  }

  function Home(s: System, a: Address): Pipe
    requires s.pipes != []
  {
    s.pipes[Route(a, |s.pipes|)]
  }

  predicate Awake(s: System, g: Gate) {
    g.engine < |s.pipes| && g.ticket in s.pipes[g.engine].done
  }

  /* ---------- Steps ---------- */

  function Started(r: Request): Proc {
    Proc(r, match r case GetRow(_) => Look case Truncate(_) => Send case _ => Touch, None, [], 0)
  }

  predicate CanDo(s: System, act: Action) {
    s.pipes != [] &&
    match act
    case Engine(e, step) => e < |s.pipes| && CanStep(s.pipes[e], step)
    case Begin(r) => s.accepting && Proper(r)
    case Advance(i) =>
      && i < |s.procs| && s.procs[i].pc != Acked
      && (s.procs[i].pc.Settle? && s.procs[i].waited < |s.procs[i].issued| ==>
            Awake(s, s.procs[i].issued[s.procs[i].waited]))
    case Shutdown => s.accepting && forall p <- s.procs :: p.pc.Acked? || p.pc.Settle?
  }

  function Replace(s: System, i: nat, p: Proc): System
    requires i < |s.procs|
  {
    s.(procs := s.procs[i := p])
  }

  function Issue(s: System, i: nat, e: nat, pc: Pc): System
    requires i < |s.procs| && e < |s.pipes| && !s.procs[i].req.GetRow?
  {
    var p := s.procs[i];
    s.(pipes := s.pipes[e := Enqueue(s.pipes[e], OpFor(p.req, s.next))],
       next := s.next + 1,
       procs := s.procs[i := p.(issued := p.issued + [Gate(e, s.next)], pc := pc)])
  }

  function StepGet(s: System, i: nat): System
    requires s.pipes != [] && i < |s.procs| && s.procs[i].req.GetRow?
  {
    var p := s.procs[i];
    var a := p.req.addr;
    var k := RowKey(a);
    match p.pc
    case Look =>
      if Cacheable(s, a) && k in s.cache then Replace(s, i, p.(pc := Acked, found := Some(s.cache[k])))
      else Replace(s, i, p.(pc := Fetch))
    case Fetch => Replace(s, i, p.(pc := Fill, found := Lookup(Home(s, a).db, k)))
    case Fill =>
      Replace(if Cacheable(s, a) && p.found.Some? then s.(cache := s.cache[k := p.found.value]) else s,
              i, p.(pc := Acked))
    case _ => s
  }

  function StepSettle(s: System, i: nat): System
    requires i < |s.procs|
  {
    var p := s.procs[i];
    if p.waited < |p.issued| then Replace(s, i, p.(waited := p.waited + 1)) else Replace(s, i, p.(pc := Acked))
  }

  /** `put_row` and `delete_row`: the cache first, then the routed engine's channel. */
  function StepRow(s: System, i: nat): System
    requires s.pipes != [] && i < |s.procs| && (s.procs[i].req.PutRow? || s.procs[i].req.DeleteRow?)
  {
    var p := s.procs[i];
    var a := p.req.addr;
    match p.pc
    case Touch =>
      var cache := if !Cacheable(s, a) then s.cache
                   else if p.req.PutRow? then s.cache[RowKey(a) := p.req.row]
                   else s.cache - {RowKey(a)};
      Replace(s.(cache := cache), i, p.(pc := Send))
    case Send => Issue(s, i, Route(a, |s.pipes|), Settle)
    case Settle => StepSettle(s, i)
    case _ => s
  }

  /** `delete_data_prefix`: one tombstone per engine in turn, then the cache is cleared. */
  function StepTruncate(s: System, i: nat): System
    requires s.pipes != [] && i < |s.procs| && s.procs[i].req.Truncate?
  {
    var p := s.procs[i];
    match p.pc
    case Send =>
      if |p.issued| < |s.pipes| then Issue(s, i, |p.issued|, Send)
      else Replace(s.(cache := map[]), i, p.(pc := Settle))
    case Settle => StepSettle(s, i)
    case _ => s
  }

  function Do(s: System, act: Action): System
    requires CanDo(s, act)
  {
    match act
    case Engine(e, step) => s.(pipes := s.pipes[e := StepPipe(s.pipes[e], step)])
    case Begin(r) => s.(procs := s.procs + [Started(r)])
    case Advance(i) =>
      (match s.procs[i].req
       case GetRow(_) => StepGet(s, i)
       case Truncate(_) => StepTruncate(s, i)
       case _ => StepRow(s, i))
    case Shutdown => s.(accepting := false)
  }

  predicate Runs(s: System, acts: seq<Action>)
    decreases |acts|
  {
    acts == [] || (CanDo(s, acts[0]) && Runs(Do(s, acts[0]), acts[1..]))
  }

  function Final(s: System, acts: seq<Action>): System
    requires Runs(s, acts)
    decreases |acts|
  {
    if acts == [] then s else Final(Do(s, acts[0]), acts[1..])
  }

  function OpenedPipes(dbs: seq<Db>): seq<Pipe> {
    seq(|dbs|, i requires 0 <= i < |dbs| => Opened(dbs[i]))
  }

  /** A freshly opened storage over existing engine contents. */
  function Fresh(dbs: seq<Db>, caching: bool): System {
    System(OpenedPipes(dbs), caching, map[], 0, [], true)
  }

  /* ---------- Safety of every run ---------- */

  ghost predicate PipesOk(s: System) {
    s.pipes != [] && forall e | 0 <= e < |s.pipes| :: InOrder(s.pipes[e]) && Ticketed(s.pipes[e], s.next)
  }

  predicate Sent(s: System, r: Request, g: Gate)
    requires !r.GetRow?
  {
    g.engine < |s.pipes| && OpFor(r, g.ticket) in s.pipes[g.engine].accepted
  }

  /** A write call has sent its own operations, each under the ticket it holds; it has
      awaited the first `waited` of them; before it settles it has sent all of them. */
  ghost predicate WriteOk(s: System, p: Proc)
    requires !p.req.GetRow?
  {
    && p.waited <= |p.issued|
    && (forall g <- p.issued :: Sent(s, p.req, g))
    && (forall j | 0 <= j < p.waited :: Awake(s, p.issued[j]))
    && (p.req.Truncate? ==> |p.issued| <= |s.pipes| && forall j | 0 <= j < |p.issued| :: p.issued[j].engine == j)
    && (p.pc.Settle? || p.pc.Acked? ==>
          if p.req.Truncate? then |p.issued| == |s.pipes|
          else |p.issued| == 1 && p.issued[0].engine == Route(p.req.addr, |s.pipes|))
    && (p.pc.Acked? ==> p.waited == |p.issued|)
    && (p.pc.Touch? || (p.pc.Send? && !p.req.Truncate?) ==> p.issued == [])
    && (!p.pc.Settle? && !p.pc.Acked? ==> p.waited == 0)
  }

  ghost predicate CallsOk(s: System)
    requires s.pipes != []
  {
    forall p <- s.procs :: Proper(p.req) && (!p.req.GetRow? ==> WriteOk(s, p))
  }

  ghost predicate Safe(s: System) {
    PipesOk(s) && CallsOk(s)
  }

  lemma FreshSafe(dbs: seq<Db>, caching: bool)
    requires dbs != []
    ensures Safe(Fresh(dbs, caching))
  {
    hide InOrder;
    forall e | 0 <= e < |dbs|
      ensures InOrder(Fresh(dbs, caching).pipes[e])
    {
      OpenedInOrder(dbs[e]);
    }
  }

  lemma EnqueueTicketed(p: Pipe, op: Op, next: nat)
    requires Ticketed(p, next) && op.ticket == next
    ensures Ticketed(Enqueue(p, op), next + 1)
  {
  }

  predicate GrowsPipe(p: Pipe, q: Pipe) {
    p.base == q.base && p.accepted <= q.accepted && p.done <= q.done
  }

  /** One engine may change by accepting an operation or taking a step; the others stay. */
  ghost predicate Grows(s: System, t: System) {
    && |t.pipes| == |s.pipes|
    && forall e | 0 <= e < |s.pipes| :: GrowsPipe(s.pipes[e], t.pipes[e])
  }

  lemma WriteOkGrows(s: System, t: System, p: Proc)
    requires !p.req.GetRow? && WriteOk(s, p) && Grows(s, t)
    ensures WriteOk(t, p)
  {
    hide OpFor, Route;
    forall g <- p.issued
      ensures Sent(t, p.req, g)
    {
      assert Sent(s, p.req, g);
      assert GrowsPipe(s.pipes[g.engine], t.pipes[g.engine]);
    }
    forall j | 0 <= j < p.waited
      ensures Awake(t, p.issued[j])
    {
      assert Awake(s, p.issued[j]);
      assert GrowsPipe(s.pipes[p.issued[j].engine], t.pipes[p.issued[j].engine]);
    }
  }

  lemma EngineStepSafe(s: System, e: nat, step: PipeStep)
    requires Safe(s) && CanDo(s, Engine(e, step))
    ensures Safe(Do(s, Engine(e, step))) && Grows(s, Do(s, Engine(e, step)))
  {
    hide InOrder, WriteOk, StepPipe;
    var t := Do(s, Engine(e, step));
    StepInOrder(s.pipes[e], step);
    StepKeepsView(s.pipes[e], step);
    forall p <- t.procs | !p.req.GetRow?
      ensures WriteOk(t, p)
    {
      WriteOkGrows(s, t, p);
    }
  }

  lemma IssueSafe(s: System, i: nat, e: nat, pc: Pc)
    requires Safe(s) && i < |s.procs| && e < |s.pipes| && !s.procs[i].req.GetRow?
    ensures var t := Issue(s, i, e, pc);
            PipesOk(t) && Grows(s, t) && Sent(t, s.procs[i].req, Gate(e, s.next))
  {
    hide InOrder, WriteOk, OpFor;
    var op := OpFor(s.procs[i].req, s.next);
    assert op.ticket == s.next by { TicketOf(s.procs[i].req, s.next); }
    EnqueueInOrder(s.pipes[e], op);
    EnqueueTicketed(s.pipes[e], op, s.next);
    assert op in Enqueue(s.pipes[e], op).accepted;
  }

  lemma TicketOf(r: Request, ticket: nat)
    requires !r.GetRow?
    ensures OpFor(r, ticket).ticket == ticket
  {
  }

  /** A step of call `i` is safe if that call is still well formed: the rest only grew. */
  lemma CallStepSafe(s: System, t: System, i: nat)
    requires Safe(s) && PipesOk(t) && Grows(s, t) && i < |s.procs| == |t.procs|
    requires t.procs == s.procs[i := t.procs[i]] && t.procs[i].req == s.procs[i].req
    requires !s.procs[i].req.GetRow? ==> WriteOk(t, t.procs[i])
    ensures Safe(t)
  {
    hide InOrder, WriteOk, Grows;
    forall j | 0 <= j < |t.procs|
      ensures Proper(t.procs[j].req) && (!t.procs[j].req.GetRow? ==> WriteOk(t, t.procs[j]))
    {
      assert s.procs[j] in s.procs;
      if j != i && !s.procs[j].req.GetRow? {
        WriteOkGrows(s, t, s.procs[j]);
      }
    }
  }

  lemma SendSafe(s: System, i: nat, e: nat, pc: Pc)
    requires Safe(s) && i < |s.procs| && e < |s.pipes| && !s.procs[i].req.GetRow? && s.procs[i].pc.Send?
    requires if s.procs[i].req.Truncate? then e == |s.procs[i].issued| && pc.Send?
             else e == Route(s.procs[i].req.addr, |s.pipes|) && pc.Settle?
    ensures Safe(Issue(s, i, e, pc)) && Grows(s, Issue(s, i, e, pc))
  {
    hide InOrder, OpFor, Route;
    var p := s.procs[i];
    assert p in s.procs;
    IssueSafe(s, i, e, pc);
    var t := Issue(s, i, e, pc);
    WriteOkGrows(s, t, p);
    assert WriteOk(t, t.procs[i]);
    CallStepSafe(s, t, i);
  }

  /** Steps that leave the engines alone: cache accesses and awaiting a ticket. */
  lemma LocalStepSafe(s: System, t: System, i: nat)
    requires Safe(s) && i < |s.procs| && t.pipes == s.pipes && t.next == s.next
    requires |t.procs| == |s.procs| && t.procs == s.procs[i := t.procs[i]] && t.procs[i].req == s.procs[i].req
    requires !s.procs[i].req.GetRow? ==> WriteOk(s, t.procs[i])
    ensures Safe(t) && Grows(s, t)
  {
    hide InOrder, WriteOk;
    assert Grows(s, t);
    if !s.procs[i].req.GetRow? {
      WriteOkGrows(s, t, t.procs[i]);
    }
    CallStepSafe(s, t, i);
  }

  lemma SettleSafe(s: System, i: nat)
    requires Safe(s) && CanDo(s, Advance(i)) && !s.procs[i].req.GetRow? && s.procs[i].pc.Settle?
    ensures Safe(StepSettle(s, i)) && Grows(s, StepSettle(s, i))
  {
    hide InOrder, OpFor, Route;
    assert s.procs[i] in s.procs;
    LocalStepSafe(s, StepSettle(s, i), i);
  }

  lemma TouchSafe(s: System, i: nat)
    requires Safe(s) && i < |s.procs| && (s.procs[i].req.PutRow? || s.procs[i].req.DeleteRow?)
        && !s.procs[i].pc.Send? && !s.procs[i].pc.Settle?
    ensures Safe(StepRow(s, i)) && Grows(s, StepRow(s, i))
  {
    hide InOrder, OpFor, Route, Grows, RowKey;
    assert s.procs[i] in s.procs;
    LocalStepSafe(s, StepRow(s, i), i);
  }

  lemma ClearSafe(s: System, i: nat)
    requires Safe(s) && i < |s.procs| && s.procs[i].req.Truncate? && !s.procs[i].pc.Settle?
    requires s.procs[i].pc.Send? ==> |s.procs[i].issued| >= |s.pipes|
    ensures Safe(StepTruncate(s, i)) && Grows(s, StepTruncate(s, i))
  {
    hide InOrder, OpFor, Route, Grows;
    assert s.procs[i] in s.procs;
    LocalStepSafe(s, StepTruncate(s, i), i);
  }

  lemma AdvanceSafe(s: System, i: nat)
    requires Safe(s) && CanDo(s, Advance(i))
    ensures Safe(Do(s, Advance(i))) && Grows(s, Do(s, Advance(i)))
  {
    hide InOrder, OpFor, Route, Grows, WriteOk, PipesOk, CallsOk, RowKey;
    var p := s.procs[i];
    if p.req.GetRow? {
      LocalStepSafe(s, StepGet(s, i), i);
    } else if p.pc.Settle? {
      SettleSafe(s, i);
    } else if !p.req.Truncate? {
      if p.pc.Send? {
        SendSafe(s, i, Route(p.req.addr, |s.pipes|), Settle);
      } else {
        TouchSafe(s, i);
      }
    } else if p.pc.Send? && |p.issued| < |s.pipes| {
      SendSafe(s, i, |p.issued|, Send);
    } else {
      ClearSafe(s, i);
    }
  }

  lemma DoSafe(s: System, act: Action)
    requires Safe(s) && CanDo(s, act)
    ensures Safe(Do(s, act)) && Grows(s, Do(s, act))
  {
    hide InOrder;
    match act
    case Engine(e, step) => EngineStepSafe(s, e, step);
    case Advance(i) => AdvanceSafe(s, i);
    case Begin(r) =>
      var t := Do(s, act);
      forall p <- t.procs | !p.req.GetRow?
        ensures WriteOk(t, p)
      {
      }
    case Shutdown =>
  }

  lemma GrowsTransitive(s: System, t: System, u: System)
    requires Grows(s, t) && Grows(t, u)
    ensures Grows(s, u)
  {
    forall e | 0 <= e < |s.pipes|
      ensures GrowsPipe(s.pipes[e], u.pipes[e])
    {
      assert GrowsPipe(s.pipes[e], t.pipes[e]) && GrowsPipe(t.pipes[e], u.pipes[e]);
    }
  }

  lemma {:induction false} RunSafe(s: System, acts: seq<Action>)
    requires Safe(s) && Runs(s, acts)
    ensures Safe(Final(s, acts)) && Grows(s, Final(s, acts))
    decreases |acts|
  {
    hide Safe, CanDo, Do;
    if acts != [] {
      DoSafe(s, acts[0]);
      RunSafe(Do(s, acts[0]), acts[1..]);
      GrowsTransitive(s, Do(s, acts[0]), Final(s, acts));
    }
  }
}
