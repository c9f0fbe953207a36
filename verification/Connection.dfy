/** One client connection (src/server.rs): the reader dispatching frames, at most 512
    spawned tasks, the bounded response channel with its writer, and prepared statements. */
module Connection {
  import opened Bytes
  import opened Counting
  import opened Values

  const MAX_FRAME_LENGTH := 64 * 1024 * 1024
  const PER_CONN_INFLIGHT := 512

  const STARTUP: byte := 0x01
  const QUERY: byte := 0x07
  const PREPARE: byte := 0x09
  const EXECUTE: byte := 0x0A

  /** A frame as read; `body` is the decompressed body. */
  datatype Frame = Frame(version: byte, compressed: bool, stream: int, opcode: byte, length: nat, body: bytes)

  datatype Stmt = Stmt(text: bytes, bindTypes: seq<ColumnType>)

  /* ---------- Dispatch ---------- */

  const USE: bytes := [0x75, 0x73, 0x65, 0x20]

  function Min(a: nat, b: nat): nat {
    if a <= b then a else b
  }

  /** `is_session_use`: the text of the body begins with "use ", in any case. */
  function SessionUse(body: bytes): (r: bool)
    ensures r <==> |body| >= 8 && Unsigned(body[..4]) >= 4 && Lower(body[4..8]) == USE
  {
    if |body| < 4 then false else
    var text := body[4..4 + Min(Unsigned(body[..4]), |body| - 4)];
    var head := if |text| > 16 then text[..16] else text;
    assert |head| >= 4 ==> (forall i | 0 <= i < 4 :: head[i] == body[4..8][i]);
    assert |head| >= 4 ==> Lower(head)[..4] == Lower(body[4..8]);
    StartsWith(Lower(head), USE)
  }

  /** The reader's position. Frames are numbered in the order they were read. */
  datatype Reader =
    | Idle
    | Handling(serial: nat, frame: Frame)
    | Replying(serial: nat, close: bool)
    | Blocked(serial: nat, frame: Frame)
    | Closed

  datatype Phase = Running | Answered(found: Option<Stmt>) | Sent

  datatype Task = Task(serial: nat, frame: Frame, phase: Phase)

  /** `produced` holds the frames answered, in order; `lost` those garbled or whose handler panicked;
      `delivered` the answers the writer has taken; `registered` every PREPARE so far. */
  datatype Conn = Conn(
    frames: seq<Frame>,
    reader: Reader,
    tasks: seq<Task>,
    permits: nat,
    channel: seq<nat>,
    writerUp: bool,
    negotiated: bool,
    prepared: map<nat, Stmt>,
    nextId: nat,
    produced: seq<nat>,
    delivered: seq<nat>,
    lost: seq<nat>,
    registered: seq<Stmt>)

  const ACCEPTED := Conn([], Idle, [], PER_CONN_INFLIGHT, [], true, false, map[], 1, [], [], [], [])

  function Dispatch(c: Conn, f: Frame): Reader {
    var n := |c.frames|;
    if f.version != 4 then Replying(n, true)
    else if f.length > MAX_FRAME_LENGTH then Replying(n, true)
    else if f.compressed && !c.negotiated then Replying(n, false)
    else if (f.opcode != QUERY && f.opcode != EXECUTE) || SessionUse(f.body) then Handling(n, f)
    else Blocked(n, f)
  }

  /** A well-formed frame: protocol version 4, not too long, compressed only if negotiated. */
  predicate Welcome(c: Conn, f: Frame) {
    f.version == 4 && f.length <= MAX_FRAME_LENGTH && (f.compressed ==> c.negotiated)
  }

  /** Which frames become tasks: queries and executions that do not set the session keyspace.
      All others that are well formed are handled before the next frame is read, PREPARE and
      `USE` among them; the rest get an error, and the connection ends unless only the
      compression was unexpected. */
  lemma DispatchExactly(c: Conn, f: Frame)
    ensures Dispatch(c, f).Blocked? <==>
              Welcome(c, f) && (f.opcode == 0x07 || f.opcode == 0x0A) && !SessionUse(f.body)
    ensures Dispatch(c, f).Handling? <==>
              Welcome(c, f) && ((f.opcode != 0x07 && f.opcode != 0x0A) || SessionUse(f.body))
    ensures Dispatch(c, f).Replying? <==> !Welcome(c, f)
    ensures Dispatch(c, f).Replying? ==> (Dispatch(c, f).close <==> f.version != 4 || f.length > 64 * 1024 * 1024)
    ensures Held(Dispatch(c, f)) == [|c.frames|]
  {
    hide SessionUse;
  }

  /** What handling a frame inline did besides answering it. */
  datatype Outcome = Plain | Negotiated | Registers(stmt: Stmt)

  datatype Step =
    | Read(frame: Frame)
    | Garbled(frame: Frame)
    | Hangup
    | Handle(outcome: Outcome)
    | ReaderPanics
    | Answer
    | Spawn
    | Run(i: nat)
    | TaskPanics(i: nat)
    | Send(i: nat)
    | Release(i: nat)
    | Flush(n: nat)
    | WriterStops

  /** The step dispatches a frame. A garbled one, whose compressed body does not decompress,
      ends the connection unanswered. */
  predicate Arrives(s: Step) {
    s.Read? || s.Garbled?
  }

  /** The channel holds twice the task limit; once the writer is gone, sends fail at once. */
  predicate Room(c: Conn) {
    c.writerUp ==> |c.channel| < 2 * PER_CONN_INFLIGHT
  }

  function Produce(c: Conn, serial: nat): Conn {
    c.(produced := c.produced + [serial], channel := if c.writerUp then c.channel + [serial] else [])
  }

  predicate Allowed(f: Frame, o: Outcome) {
    match o
    case Plain => true
    case Negotiated => f.opcode == STARTUP
    case Registers(_) => f.opcode == PREPARE
  }

  predicate Can(c: Conn, s: Step) {
    match s
    case Read(_) => c.reader.Idle?
    case Garbled(f) => c.reader.Idle? && f.version == 4 && f.length <= MAX_FRAME_LENGTH && f.compressed && c.negotiated
    case Hangup => c.reader.Idle?
    case Handle(o) => c.reader.Handling? && Allowed(c.reader.frame, o)
    case ReaderPanics => c.reader.Handling?
    case Answer => c.reader.Replying? && Room(c)
    case Spawn => c.reader.Blocked? && c.permits > 0
    case Run(i) => i < |c.tasks| && c.tasks[i].phase.Running?
    case TaskPanics(i) => i < |c.tasks| && c.tasks[i].phase.Running?
    case Send(i) => i < |c.tasks| && c.tasks[i].phase.Answered? && Room(c)
    case Release(i) => i < |c.tasks| && c.tasks[i].phase.Sent?
    case Flush(n) => c.writerUp && 1 <= n <= |c.channel|
    case WriterStops => c.writerUp
  }

  /** Ids are 16-bit and wrap around. */
  function Register(c: Conn, stmt: Stmt): Conn {
    c.(prepared := c.prepared[c.nextId := stmt],
       nextId := (c.nextId + 1) % 0x1_0000,
       registered := c.registered + [stmt])
  }

  function Settled(c: Conn, o: Outcome): Conn {
    match o
    case Plain => c
    case Negotiated => c.(negotiated := true)
    case Registers(stmt) => Register(c, stmt)
  }

  /** An EXECUTE body starts with its id as short bytes; ids have two bytes. */
  function FindPrepared(c: Conn, body: bytes): Option<Stmt> {
    if |body| >= 4 && Unsigned(body[..2]) == 2 then Lookup(c.prepared, Unsigned(body[2..4])) else None
  }

  function Do(c: Conn, s: Step): Conn
    requires Can(c, s)
  {
    match s
    case Read(f) => c.(frames := c.frames + [f], reader := Dispatch(c, f))
    case Garbled(f) => c.(frames := c.frames + [f], reader := Closed, lost := c.lost + [|c.frames|])
    case Hangup => c.(reader := Closed)
    case Handle(o) => Settled(c, o).(reader := Replying(c.reader.serial, false))
    case ReaderPanics => c.(reader := Closed, lost := c.lost + [c.reader.serial])
    case Answer => Produce(c, c.reader.serial).(reader := if c.reader.close then Closed else Idle)
    case Spawn => c.(reader := Idle, permits := c.permits - 1,
        tasks := c.tasks + [Task(c.reader.serial, c.reader.frame, Running)])
    case Run(i) =>
      var found := if c.tasks[i].frame.opcode == EXECUTE then FindPrepared(c, c.tasks[i].frame.body) else None;
      c.(tasks := c.tasks[i := c.tasks[i].(phase := Answered(found))])
    case TaskPanics(i) =>
      c.(tasks := c.tasks[..i] + c.tasks[i + 1..], permits := c.permits + 1, lost := c.lost + [c.tasks[i].serial])
    case Send(i) => Produce(c, c.tasks[i].serial).(tasks := c.tasks[i := c.tasks[i].(phase := Sent)])
    case Release(i) => c.(tasks := c.tasks[..i] + c.tasks[i + 1..], permits := c.permits + 1)
    case Flush(n) => c.(delivered := c.delivered + c.channel[..n], channel := c.channel[n..])
    case WriterStops => c.(writerUp := false, channel := [])
  }

  predicate Runs(c: Conn, steps: seq<Step>)
    decreases |steps|
  {
    steps == [] || (Can(c, steps[0]) && Runs(Do(c, steps[0]), steps[1..]))
  }

  function Final(c: Conn, steps: seq<Step>): Conn
    requires Runs(c, steps)
    decreases |steps|
  {
    if steps == [] then c else Final(Do(c, steps[0]), steps[1..])
  }

  /* ---------- Every frame is accounted for ---------- */

  function Held(r: Reader): seq<nat> {
    match r
    case Handling(s, _) => [s]
    case Replying(s, _) => [s]
    case Blocked(s, _) => [s]
    case _ => []
  }

  function Mine(t: Task): seq<nat> {
    if t.phase.Sent? then [] else [t.serial]
  }

  function Unsent(tasks: seq<Task>): seq<nat> {
    if tasks == [] then [] else Mine(tasks[0]) + Unsent(tasks[1..])
  }

  /** How often frame `k` is answered, in flight or lost. */
  function Total(c: Conn, k: nat): nat {
    Times(c.produced, k) + Times(Held(c.reader), k) + Times(Unsent(c.tasks), k) + Times(c.lost, k)
  }

  /** Every dispatched frame is answered, in flight or lost: exactly one of the
      three, exactly once. */
  ghost predicate Balanced(c: Conn) {
    forall k: nat :: Total(c, k) == if k < |c.frames| then 1 else 0
  }

  /** At most 512 tasks exist, and the writer receives the answers in the order they were
      produced. */
  ghost predicate Tidy(c: Conn) {
    && c.permits + |c.tasks| == PER_CONN_INFLIGHT
    && (if c.writerUp then c.delivered + c.channel == c.produced else c.delivered <= c.produced && c.channel == [])
  }

  lemma {:induction false} UnsentAppend(a: seq<Task>, b: seq<Task>)
    ensures Unsent(a + b) == Unsent(a) + Unsent(b)
    decreases |a|
  {
    hide Mine;
    if a == [] {
      assert a + b == b;
    } else {
      assert (a + b)[0] == a[0] && (a + b)[1..] == a[1..] + b;
      UnsentAppend(a[1..], b);
    }
  }

  lemma UnsentCons(t: Task, rest: seq<Task>)
    ensures Unsent([t] + rest) == Mine(t) + Unsent(rest)
  {
    hide Mine;
    assert ([t] + rest)[1..] == rest;
  }

  /** The unsent frames around task `i`. */
  lemma UnsentAround(tasks: seq<Task>, i: nat)
    requires i < |tasks|
    ensures Unsent(tasks) == Unsent(tasks[..i]) + (Mine(tasks[i]) + Unsent(tasks[i + 1..]))
    ensures Unsent(tasks[..i] + tasks[i + 1..]) == Unsent(tasks[..i]) + Unsent(tasks[i + 1..])
  {
    hide Unsent, Mine;
    SplitAt(tasks, i);
    UnsentAppend(tasks[..i], [tasks[i]] + tasks[i + 1..]);
    UnsentCons(tasks[i], tasks[i + 1..]);
    UnsentAppend(tasks[..i], tasks[i + 1..]);
  }

  lemma ReaderStepTotal(c: Conn, s: Step, k: nat)
    requires Can(c, s) && !s.Run? && !s.TaskPanics? && !s.Send? && !s.Release? && !s.Spawn?
    ensures Total(Do(c, s), k) == Total(c, k) + if Arrives(s) && k == |c.frames| then 1 else 0
  {
    hide SessionUse, Unsent, Allowed, Times;
    TimesNone(k);
    match s
    case Read(_) => TimesOne<nat>(|c.frames|, k);
    case Garbled(_) =>
      TimesOne<nat>(|c.frames|, k);
      TimesAppend<nat>(c.lost, [|c.frames|], k);
    case ReaderPanics => TimesAppend(c.lost, [c.reader.serial], k);
    case Answer => TimesAppend(c.produced, [c.reader.serial], k);
    case _ =>
  }

  lemma SpawnTotal(c: Conn, k: nat)
    requires Can(c, Spawn)
    ensures Total(Do(c, Spawn), k) == Total(c, k)
  {
    var t := Task(c.reader.serial, c.reader.frame, Running);
    UnsentAppend(c.tasks, [t]);
    assert [t][1..] == [] && Unsent([t]) == [t.serial];
    TimesAppend(Unsent(c.tasks), [t.serial], k);
  }

  lemma TaskStepTotal(c: Conn, s: Step, k: nat)
    requires Can(c, s) && (s.Run? || s.TaskPanics? || s.Send? || s.Release?)
    ensures Total(Do(c, s), k) == Total(c, k)
  {
    hide Unsent, Held, FindPrepared, Times;
    var i, d := s.i, Do(c, s);
    var before, mine, after := c.tasks[..i], c.tasks[i].serial, c.tasks[i + 1..];
    CountTasks(c.tasks, i, k);
    TimesAppend(c.produced, [mine], k);
    TimesAppend(c.lost, [mine], k);
    TimesNone(k);
    if s.Run? || s.Send? {
      CountTasks(d.tasks, i, k);
      assert d.tasks[..i] == before && d.tasks[i + 1..] == after;
    }
  }

  lemma CountTasks(tasks: seq<Task>, i: nat, k: nat)
    requires i < |tasks|
    ensures Times(Unsent(tasks), k)
            == Times(Unsent(tasks[..i]), k) + Times(Mine(tasks[i]), k) + Times(Unsent(tasks[i + 1..]), k)
    ensures Times(Unsent(tasks[..i] + tasks[i + 1..]), k)
            == Times(Unsent(tasks[..i]), k) + Times(Unsent(tasks[i + 1..]), k)
  {
    hide Unsent, Mine, Times;
    var before, mine, after := Unsent(tasks[..i]), Mine(tasks[i]), Unsent(tasks[i + 1..]);
    UnsentAround(tasks, i);
    TimesAppend(before, mine + after, k);
    TimesAppend(mine, after, k);
    TimesAppend(before, after, k);
  }

  lemma StepBalanced(c: Conn, s: Step)
    requires Balanced(c) && Can(c, s)
    ensures Balanced(Do(c, s))
  {
    hide Total, FindPrepared, SessionUse, Dispatch;
    forall k: nat
      ensures Total(Do(c, s), k) == Total(c, k) + if Arrives(s) && k == |c.frames| then 1 else 0
    {
      if s.Spawn? {
        SpawnTotal(c, k);
      } else if s.Run? || s.TaskPanics? || s.Send? || s.Release? {
        TaskStepTotal(c, s, k);
      } else {
        ReaderStepTotal(c, s, k);
      }
    }
  }

  lemma StepTidy(c: Conn, s: Step)
    requires Tidy(c) && Can(c, s)
    ensures Tidy(Do(c, s))
  {
    hide FindPrepared, SessionUse, Dispatch;
    match s
    case Flush(n) => assert c.channel == c.channel[..n] + c.channel[n..];
    case Answer => assert c.delivered + (c.channel + [c.reader.serial]) == c.delivered + c.channel + [c.reader.serial];
    case Send(i) => assert c.delivered + (c.channel + [c.tasks[i].serial])
        == c.delivered + c.channel + [c.tasks[i].serial];
        case _ =>
  }

  lemma {:induction false} RunSound(c: Conn, steps: seq<Step>)
    requires Balanced(c) && Tidy(c) && Runs(c, steps)
    ensures Balanced(Final(c, steps)) && Tidy(Final(c, steps))
    decreases |steps|
  {
    hide Balanced, Tidy, Do;
    if steps != [] {
      StepBalanced(c, steps[0]);
      StepTidy(c, steps[0]);
      RunSound(Do(c, steps[0]), steps[1..]);
    }
  }

  /* ---------- By stream id ---------- */

  predicate On(c: Conn, k: nat, id: int) {
    k < |c.frames| && c.frames[k].stream == id
  }

  /** How many of the frames listed carry stream `id`. */
  function OnStream(c: Conn, serials: seq<nat>, id: int): nat {
    if serials == [] then 0 else (if On(c, serials[0], id) then 1 else 0) + OnStream(c, serials[1..], id)
  }

  /** How many of the first `n` frames dispatched carry stream `id`. */
  function FramesOn(c: Conn, n: nat, id: int): nat {
    if n == 0 then 0 else (if On(c, n - 1, id) then 1 else 0) + FramesOn(c, n - 1, id)
  }

  /** The occurrences in `serials` of the first `n` frames on stream `id`. */
  function Occurrences(c: Conn, serials: seq<nat>, n: nat, id: int): nat {
    if n == 0 then 0
    else (if On(c, n - 1, id) then Times<nat>(serials, n - 1) else 0) + Occurrences(c, serials, n - 1, id)
  }

  lemma {:induction false} OccurrencesCons(c: Conn, serials: seq<nat>, n: nat, id: int)
    requires serials != []
    ensures Occurrences(c, serials, n, id)
            == Occurrences(c, serials[1..], n, id) + if serials[0] < n && On(c, serials[0], id) then 1 else 0
  {
    if n > 0 {
      OccurrencesCons(c, serials, n - 1, id);
    }
  }

  lemma {:induction false} OccurrencesNone(c: Conn, n: nat, id: int)
    ensures Occurrences(c, [], n, id) == 0
  {
    if n > 0 {
      OccurrencesNone(c, n - 1, id);
    }
  }

  lemma {:induction false} OnStreamCounts(c: Conn, serials: seq<nat>, id: int)
    ensures OnStream(c, serials, id) == Occurrences(c, serials, |c.frames|, id)
    decreases |serials|
  {
    if serials == [] {
      OccurrencesNone(c, |c.frames|, id);
    } else {
      OccurrencesCons(c, serials, |c.frames|, id);
      OnStreamCounts(c, serials[1..], id);
    }
  }

  lemma {:induction false} OccurrencesAddUp(c: Conn, n: nat, id: int)
    requires Balanced(c) && n <= |c.frames|
    ensures FramesOn(c, n, id)
            == Occurrences(c, c.produced, n, id) + Occurrences(c, Held(c.reader), n, id)
               + Occurrences(c, Unsent(c.tasks), n, id) + Occurrences(c, c.lost, n, id)
  {
    hide Held, Unsent, Times;
    if n > 0 {
      OccurrencesAddUp(c, n - 1, id);
      assert Total(c, n - 1) == 1;
    }
  }

  /** In every run every dispatched frame is answered, in flight or lost, to a panic of its
      handler or because it was garbled, exactly once. So on every stream id the frames dispatched are the answers
      produced, the frames in flight and the lost ones; at most 512 spawned tasks are
      alive; and while the writer lives, the answers it took followed by those queued for
      it are all the answers, in order. */
  lemma EveryFrameIsAccountedFor(steps: seq<Step>, id: int)
    requires Runs(ACCEPTED, steps)
    ensures var c := Final(ACCEPTED, steps);
            && (forall k: nat :: Total(c, k) == if k < |c.frames| then 1 else 0)
            && FramesOn(c, |c.frames|, id)
               == OnStream(c, c.produced, id) + OnStream(c, Held(c.reader), id)
                  + OnStream(c, Unsent(c.tasks), id) + OnStream(c, c.lost, id)
            && |c.tasks| <= PER_CONN_INFLIGHT
            && (c.writerUp ==> c.delivered + c.channel == c.produced)
  {
    hide Can, Do, Unsent, Held, Total;
    OpeningSound();
    RunSound(ACCEPTED, steps);
    var c := Final(ACCEPTED, steps);
    OnStreamCounts(c, c.produced, id);
    OnStreamCounts(c, Held(c.reader), id);
    OnStreamCounts(c, Unsent(c.tasks), id);
    OnStreamCounts(c, c.lost, id);
    OccurrencesAddUp(c, |c.frames|, id);
  }

  lemma OpeningSound()
    ensures Balanced(ACCEPTED) && Tidy(ACCEPTED)
  {
  }

  /* ---------- Clients that wait before reusing a stream id ---------- */

  /** Every frame dispatched on the stream has been answered. */
  predicate MayUse(c: Conn, stream: int) {
    forall k | 0 <= k < |c.frames| && c.frames[k].stream == stream :: k in c.delivered
  }

  /** Section 2.3 of the CQL Binary Protocol v4: a stream id is used again only after the
      answer to its last use arrived. */
  predicate Polite(c: Conn, steps: seq<Step>)
    requires Runs(c, steps)
    decreases |steps|
  {
    steps == [] ||
    (&& (Arrives(steps[0]) ==> MayUse(c, steps[0].frame.stream))
     && Polite(Do(c, steps[0]), steps[1..]))
  }

  ghost predicate Unambiguous(c: Conn) {
    forall i, j | 0 <= i < j < |c.frames| && c.frames[i].stream == c.frames[j].stream :: i in c.delivered
  }

  lemma StepUnambiguous(c: Conn, s: Step)
    requires Unambiguous(c) && Can(c, s)
    requires Arrives(s) ==> MayUse(c, s.frame.stream)
    ensures Unambiguous(Do(c, s))
  {
    hide SessionUse, Dispatch, FindPrepared;
    assert c.delivered <= Do(c, s).delivered;
  }

  /** Such a client can pair answers with requests by stream id alone: a frame whose answer
      is still to come is the last one dispatched on its stream. */
  lemma {:induction false} AnswersPairUp(c: Conn, steps: seq<Step>, k: nat)
    requires Unambiguous(c) && Runs(c, steps) && Polite(c, steps)
    requires k < |Final(c, steps).frames| && k !in Final(c, steps).delivered
    ensures var d := Final(c, steps);
            forall j | k < j < |d.frames| :: d.frames[j].stream != d.frames[k].stream
    decreases |steps|
  {
    hide Can, Do;
    if steps != [] {
      StepUnambiguous(c, steps[0]);
      AnswersPairUp(Do(c, steps[0]), steps[1..], k);
    }
  }

  /* ---------- Every dispatched frame comes to an end ---------- */

  predicate Internal(s: Step) {
    !Arrives(s) && !s.Hangup?
  }

  function TaskEffort(t: Task): nat {
    match t.phase case Running => 4 case Answered(_) => 3 case Sent => 1
  }

  function TasksEffort(tasks: seq<Task>): nat {
    if tasks == [] then 0 else TaskEffort(tasks[0]) + TasksEffort(tasks[1..])
  }

  function ReaderEffort(r: Reader): nat {
    match r case Handling(_, _) => 3 case Replying(_, _) => 2 case Blocked(_, _) => 5 case _ => 0
  }

  function Effort(c: Conn): nat {
    ReaderEffort(c.reader) + TasksEffort(c.tasks) + |c.channel| + if c.writerUp then 1 else 0
  }

  lemma {:induction false} EffortAppend(a: seq<Task>, b: seq<Task>)
    ensures TasksEffort(a + b) == TasksEffort(a) + TasksEffort(b)
    decreases |a|
  {
    if a == [] {
      assert a + b == b;
    } else {
      assert (a + b)[0] == a[0] && (a + b)[1..] == a[1..] + b;
      EffortAppend(a[1..], b);
    }
  }

  lemma EffortAround(tasks: seq<Task>, i: nat)
    requires i < |tasks|
    ensures TasksEffort(tasks) == TasksEffort(tasks[..i]) + TaskEffort(tasks[i]) + TasksEffort(tasks[i + 1..])
    ensures TasksEffort(tasks[..i] + tasks[i + 1..]) == TasksEffort(tasks[..i]) + TasksEffort(tasks[i + 1..])
  {
    assert tasks == tasks[..i] + tasks[i..] && tasks[i..][1..] == tasks[i + 1..];
    EffortAppend(tasks[..i], tasks[i..]);
    EffortAppend(tasks[..i], tasks[i + 1..]);
  }

  /** Every step other than reading decreases the effort left. */
  lemma StepShrinksEffort(c: Conn, s: Step)
    requires Can(c, s) && Internal(s)
    ensures Effort(Do(c, s)) < Effort(c)
  {
    hide TasksEffort, FindPrepared, Allowed;
    if s.Spawn? {
      var t := Task(c.reader.serial, c.reader.frame, Running);
      EffortAppend(c.tasks, [t]);
      EffortAround([t], 0);
      assert [t][..0] == [t][1..] == [];
      NoEffort();
    } else if s.Run? || s.Send? || s.TaskPanics? || s.Release? {
      EffortAround(c.tasks, s.i);
      if s.Run? || s.Send? {
        var after := Do(c, s).tasks;
        EffortAround(after, s.i);
        assert after[..s.i] == c.tasks[..s.i] && after[s.i + 1..] == c.tasks[s.i + 1..];
      }
    }
  }

  lemma NoEffort()
    ensures TasksEffort([]) == 0
  {
  }

  /** What the server would do next by itself, panics and writer failure aside. */
  function NextStep(c: Conn): Option<Step> {
    if c.channel != [] && c.writerUp then Some(Flush(1))
    else if c.tasks != [] then
      Some(match c.tasks[0].phase case Running => Run(0) case Answered(_) => Send(0) case Sent => Release(0))
    else match c.reader
      case Handling(_, _) => Some(Handle(Plain))
      case Replying(_, _) => Some(Answer)
      case Blocked(_, _) => Some(Spawn)
      case _ => None
  }

  /** No deadlock among the bounded channel, the permits and the reader: as long as a frame
      is in flight a step is possible, and none is left only when nothing is. */
  lemma NeverStuck(c: Conn)
    requires Tidy(c)
    ensures NextStep(c).Some? ==> Can(c, NextStep(c).value) && Internal(NextStep(c).value)
    ensures NextStep(c).None? ==> Held(c.reader) == [] && Unsent(c.tasks) == []
  {
  }

  lemma {:induction false} InternalRunIsBounded(c: Conn, steps: seq<Step>)
    requires Runs(c, steps) && forall i | 0 <= i < |steps| :: Internal(steps[i])
    ensures |steps| <= Effort(c)
    decreases |steps|
  {
    hide Can, Do, Effort, Internal;
    if steps != [] {
      StepShrinksEffort(c, steps[0]);
      InternalRunIsBounded(Do(c, steps[0]), steps[1..]);
    }
  }

  /** Left to itself the server answers, or loses to a panic, every frame it dispatched: a
      run without further input is bounded, and when no step of its own remains each frame
      has been answered exactly once unless its handler panicked. */
  lemma EveryFrameIsAnswered(c: Conn, steps: seq<Step>, k: nat)
    requires Balanced(c) && Tidy(c) && Runs(c, steps) && (forall i | 0 <= i < |steps| :: Internal(steps[i]))
    ensures |steps| <= Effort(c)
    ensures var d := Final(c, steps);
            NextStep(d).None? && k < |d.frames| ==> Times(d.produced, k) + Times(d.lost, k) == 1
  {
    hide Can, Do, Effort, Internal, NextStep, Times, Held, Unsent;
    InternalRunIsBounded(c, steps);
    RunSound(c, steps);
    var d := Final(c, steps);
    NeverStuck(d);
    TimesNone(k);
    assert k < |d.frames| ==> Total(d, k) == 1;
  }

  predicate Loses(s: Step) {
    s.TaskPanics? || s.ReaderPanics? || s.Garbled?
  }

  /** Without panics and garbled frames no frame is lost. */
  lemma {:induction false} NothingElseIsLost(c: Conn, steps: seq<Step>)
    requires Runs(c, steps) && forall i | 0 <= i < |steps| :: !Loses(steps[i])
    ensures Final(c, steps).lost == c.lost
    decreases |steps|
  {
    if steps != [] {
      NothingElseIsLost(Do(c, steps[0]), steps[1..]);
    }
  }

  /** With one, its frame is never answered: a query spawned as a task, whose handler
      panics, leaves nothing for the server to do. */
  lemma PanicLeavesItsFrameUnanswered(stream: int)
    ensures var steps := [Read(Frame(4, false, stream, QUERY, 0, [])), Spawn, TaskPanics(0)];
            && Runs(ACCEPTED, steps)
            && var d := Final(ACCEPTED, steps);
               d.produced == [] && d.lost == [0] && d.permits == PER_CONN_INFLIGHT && NextStep(d).None?
  {
    var f := Frame(4, false, stream, QUERY, 0, []);
    var steps := [Read(f), Spawn, TaskPanics(0)];
    var c1 := Do(ACCEPTED, Read(f));
    assert c1.reader == Blocked(0, f);
    var c2 := Do(c1, Spawn);
    var c3 := Do(c2, TaskPanics(0));
    assert steps[1..] == [Spawn, TaskPanics(0)] && steps[1..][1..] == [TaskPanics(0)] && steps[1..][1..][1..] == [];
    assert Runs(c3, []) && Runs(c2, [TaskPanics(0)]) && Runs(c1, [Spawn, TaskPanics(0)]);
    assert Final(c2, [TaskPanics(0)]) == c3 && Final(c1, [Spawn, TaskPanics(0)]) == c3;
  }

  /* ---------- Frames that end the connection ---------- */

  predicate Fatal(f: Frame) {
    f.version != 4 || f.length > MAX_FRAME_LENGTH
  }

  /** Only the last frame may be fatal, and after it the reader is done. */
  ghost predicate FatalLast(c: Conn) {
    && (forall k | 0 <= k < |c.frames| - 1 :: !Fatal(c.frames[k]))
    && (c.frames != [] && Fatal(c.frames[|c.frames| - 1]) ==>
          c.reader.Closed? || (c.reader.Replying? && c.reader.close))
  }

  lemma StepFatalLast(c: Conn, s: Step)
    requires FatalLast(c) && Can(c, s)
    ensures FatalLast(Do(c, s))
  {
    hide SessionUse, FindPrepared;
  }

  /** In every run an unsupported version or an oversized frame is the last one dispatched:
      the connection reads nothing more. */
  lemma {:induction false} FatalFramesEndTheConnection(c: Conn, steps: seq<Step>)
    requires FatalLast(c) && Runs(c, steps)
    ensures FatalLast(Final(c, steps))
    decreases |steps|
  {
    hide FatalLast, Can, Do;
    if steps != [] {
      StepFatalLast(c, steps[0]);
      FatalFramesEndTheConnection(Do(c, steps[0]), steps[1..]);
    }
  }

  /* ---------- Prepared statements ---------- */

  const IDS := 0x1_0000

  function IdOf(i: nat): nat {
    (i + 1) % IDS
  }

  /** The last PREPARE, of `n`, that was given the same id as PREPARE number `i`. */
  function LatestLike(i: nat, n: nat): (j: nat)
    requires i < n
    ensures i <= j < n && IdOf(j) == IdOf(i) && n - j <= IDS
    ensures j == i <==> n - i <= IDS
    decreases n - i
  {
    if i + IDS < n then LatestLike(i + IDS, n) else i
  }

  /** The map holds, under each id, the last statement registered with it. */
  ghost predicate Registered(c: Conn) {
    && c.nextId == IdOf(|c.registered|)
    && (forall id | id in c.prepared :: exists i | 0 <= i < |c.registered| :: IdOf(i) == id)
    && (forall i | 0 <= i < |c.registered| && |c.registered| - i <= IDS ::
        Lookup(c.prepared, IdOf(i)) == Some(c.registered[i]))
  }

  lemma SameIdFarApart(i: nat, j: nat)
    requires i < j && IdOf(i) == IdOf(j)
    ensures j - i >= IDS
  {
  }

  lemma IdsWrap(n: nat)
    ensures (IdOf(n) + 1) % IDS == IdOf(n + 1)
  {
  }

  lemma RegisterKeeps(c: Conn, stmt: Stmt)
    requires Registered(c)
    ensures Registered(Register(c, stmt))
  {
    hide IdOf;
    var d, n := Register(c, stmt), |c.registered|;
    IdsWrap(n);
    forall i | 0 <= i < n + 1 && n + 1 - i <= IDS
      ensures Lookup(d.prepared, IdOf(i)) == Some(d.registered[i])
    {
      if i < n && IdOf(i) == IdOf(n) {
        SameIdFarApart(i, n);
      }
    }
    forall id | id in d.prepared
      ensures exists i | 0 <= i < n + 1 :: IdOf(i) == id
    {
      assert id in c.prepared || id == IdOf(n);
    }
  }

  lemma StepRegistered(c: Conn, s: Step)
    requires Registered(c) && Can(c, s)
    ensures Registered(Do(c, s))
  {
    hide SessionUse, Dispatch, FindPrepared, Register, IdOf;
    var d := Do(c, s);
    if s.Handle? && s.outcome.Registers? {
      RegisterKeeps(c, s.outcome.stmt);
    } else {
      assert d.registered == c.registered && d.prepared == c.prepared && d.nextId == c.nextId;
    }
  }

  lemma {:induction false} RunRegistered(c: Conn, steps: seq<Step>)
    requires Registered(c) && Runs(c, steps)
    ensures Registered(Final(c, steps))
    decreases |steps|
  {
    hide Can, Do, Registered;
    if steps != [] {
      StepRegistered(c, steps[0]);
      RunRegistered(Do(c, steps[0]), steps[1..]);
    }
  }

  lemma LookupFindsLatest(steps: seq<Step>, i: nat)
    requires Runs(ACCEPTED, steps) && i < |Final(ACCEPTED, steps).registered|
    ensures var c := Final(ACCEPTED, steps);
            Lookup(c.prepared, IdOf(i)) == Some(c.registered[LatestLike(i, |c.registered|)])
  {
    hide Can, Do;
    assert Registered(ACCEPTED);
    RunRegistered(ACCEPTED, steps);
  }

  lemma IdRoundTrip(i: nat, rest: bytes)
    ensures var body := U16(2) + U16(IdOf(i)) + rest;
            |body| >= 4 && Unsigned(body[..2]) == 2 && Unsigned(body[2..4]) == IdOf(i)
  {
    U16RoundTrip(2);
    U16RoundTrip(IdOf(i));
    var body := U16(2) + U16(IdOf(i)) + rest;
    assert body[..2] == U16(2) && body[2..4] == U16(IdOf(i));
  }

  /** In every run, when a task executes an EXECUTE frame that carries the id given to PREPARE
      number `i`, it finds the statement of the last PREPARE with that id, and that is number
      `i` itself exactly while fewer than 65536 later ones have registered. */
  lemma ExecuteFindsItsStatement(steps: seq<Step>, k: nat, i: nat, rest: bytes)
    requires Runs(ACCEPTED, steps) && i < |Final(ACCEPTED, steps).registered|
    requires var c := Final(ACCEPTED, steps);
             && Can(c, Run(k)) && c.tasks[k].frame.opcode == EXECUTE
             && c.tasks[k].frame.body == U16(2) + U16(IdOf(i)) + rest
    ensures var c := Final(ACCEPTED, steps);
            var j := LatestLike(i, |c.registered|);
            && Do(c, Run(k)).tasks[k].phase == Answered(Some(c.registered[j]))
            && (j == i <==> |c.registered| - 1 - i < 65536)
  {
    hide Runs, Final, Unsigned, U16, IdOf;
    LookupFindsLatest(steps, i);
    IdRoundTrip(i, rest);
  }
}
