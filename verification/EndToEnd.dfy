/** Statements, storage calls, cache, pipelines and engines together: one client runs
    statements through the concurrent system, under any scheduling, and sees a plain table. */
module EndToEnd {
  import opened Bytes
  import opened Values
  import opened Keys
  import opened Pipeline
  import opened Protocol
  import opened Coherence
  import opened Sharding
  import opened RowCodec
  import opened Projection
  import opened SelectPlans
  import opened PlanEquivalence
  import opened Select
  import opened Statements
  import opened Refinement
  import opened AbstractQueries

  /* ---------- What the client does ---------- */

  /** A write, or a SELECT whose filters fix the whole key. */
  datatype Command = Modify(st: Statement) | Ask(filters: seq<Filter>, selected: seq<nat>)

  predicate ProperCommand(t: TableDef, c: Command)
    requires ValidTable(t)
  {
    match c
    case Modify(st) => ProperStatement(t, st)
    case Ask(filters, selected) =>
      && FiltersOk(t, filters) && Below(selected, |t.columns|)
      && PointValues(filters, KeyNames(t)).Some? && KeyWords(t, PointValues(filters, KeyNames(t)).value)
  }

  predicate ProperSession(t: TableDef, cs: seq<Command>)
    requires ValidTable(t)
  {
    forall i | 0 <= i < |cs| :: ProperCommand(t, cs[i])
  }

  function Single(procs: seq<Proc>, r: Request): Option<nat> {
    if procs != [] && procs[0].req == r then Some(1) else None
  }

  /** The calls of an UPDATE of the row at `a`. Outside the shortcut it writes what it computes
      from the answer to its own read. */
  function UpdateCalls(t: TableDef, a: Address, assigns: seq<Cell>, procs: seq<Proc>): (n: Option<nat>)
    requires Provided(t, assigns)
    ensures n.Some? ==> n.value <= |procs|
  {
    if Aborts(t, assigns) then Some(0)
    else if TakesShortcut(t, assigns) then Single(procs, PutRow(a, Stored(t, UpdatedRow(t, None, assigns).value)))
    else if Single(procs, GetRow(a)).None? then None
    else
      var merged := UpdatedRow(t, procs[0].found, assigns);
      if merged.Err? then Some(1)
      else if Single(procs[1..], PutRow(a, Stored(t, merged.value))).Some? then Some(2) else None
  }

  /** How many calls, from the front, are those the command makes, or none if the calls are
      others. */
  function CallsOf(t: TableDef, c: Command, procs: seq<Proc>): (n: Option<nat>)
    requires ValidTable(t) && ProperCommand(t, c)
    ensures n.Some? ==> n.value <= |procs|
  {
    if c.Ask? then Single(procs, GetRow(AddressIn(t, RawAll(PointValues(c.filters, KeyNames(t)).value))))
    else if c.st.TruncateTable? then Single(procs, Truncate(Table(t.keyspace, t.name)))
    else if KeyOf(t, c.st).Err? then Some(0)
    else
      var a := AddressIn(t, RawAll(KeyOf(t, c.st).value));
      if c.st.InsertInto? then Single(procs, PutRow(a, Stored(t, InsertedRow(t, c.st.provided))))
      else if c.st.DeleteFrom? then Single(procs, DeleteRow(a))
      else UpdateCalls(t, a, c.st.assigns, procs)
  }

  /** The calls are those of the commands, one command after the other. */
  predicate Plays(t: TableDef, cs: seq<Command>, procs: seq<Proc>)
    requires ValidTable(t) && ProperSession(t, cs)
    decreases |cs|
  {
    if cs == [] then procs == []
    else CallsOf(t, cs[0], procs).Some? && Plays(t, cs[1..], procs[CallsOf(t, cs[0], procs).value..])
  }

  /** What the client's SELECTs answer, computed from what its own reads returned. */
  function Answers(t: TableDef, cs: seq<Command>, procs: seq<Proc>): seq<Result<seq<seq<Value>>>>
    requires ValidTable(t) && ProperSession(t, cs) && Plays(t, cs, procs)
    decreases |cs|
  {
    if cs == [] then [] else
    var rest := Answers(t, cs[1..], procs[CallsOf(t, cs[0], procs).value..]);
    match cs[0]
    case Modify(_) => rest
    case Ask(filters, selected) =>
      var ws := PointValues(filters, KeyNames(t)).value;
      [PointAnswer(QueryOf(t, filters, selected), RawAll(ws), procs[0].found)] + rest
  }

  /* ---------- What the abstract table says ---------- */

  function AbstractCommand(t: TableDef, m: Abstract, c: Command): Abstract
    requires ValidTable(t) && ProperCommand(t, c)
  {
    match c case Modify(st) => AbstractStep(t, m, st) case Ask(_, _) => m
  }

  function AbstractSession(t: TableDef, m: Abstract, cs: seq<Command>): Abstract
    requires ValidTable(t) && ProperSession(t, cs)
    decreases |cs|
  {
    if cs == [] then m else AbstractSession(t, AbstractCommand(t, m, cs[0]), cs[1..])
  }

  function AbstractAnswers(t: TableDef, m: Abstract, cs: seq<Command>): seq<Result<seq<seq<Value>>>>
    requires ValidTable(t) && ProperSession(t, cs)
    decreases |cs|
  {
    if cs == [] then [] else
    var rest := AbstractAnswers(t, AbstractCommand(t, m, cs[0]), cs[1..]);
    match cs[0]
    case Modify(_) => rest
    case Ask(filters, selected) =>
      [Ok(KeyAnswer(t, m, filters, selected, PointValues(filters, KeyNames(t)).value))] + rest
  }

  /* ---------- Calls, front to back ---------- */

  /** The rows after the calls, one by one. */
  function After(rows: Rows, procs: seq<Proc>): Rows
    decreases |procs|
  {
    if procs == [] then rows else After(PlainStep(rows, procs[0].req), procs[1..])
  }

  lemma {:induction false} AfterAppend(rows: Rows, a: seq<Proc>, b: seq<Proc>)
    ensures After(rows, a + b) == After(After(rows, a), b)
    decreases |a|
  {
    hide PlainStep;
    if a == [] {
      assert a + b == b;
    } else {
      assert (a + b)[0] == a[0] && (a + b)[1..] == a[1..] + b;
      AfterAppend(PlainStep(rows, a[0].req), a[1..], b);
    }
  }

  lemma {:induction false} ReplayIsAfter(m: Rows, procs: seq<Proc>)
    ensures Replay(m, procs) == After(m, procs)
    decreases |procs|
  {
    hide PlainStep;
    if procs != [] {
      var n := |procs| - 1;
      ReplayIsAfter(m, procs[..n]);
      AfterAppend(m, procs[..n], [procs[n]]);
      assert procs == procs[..n] + [procs[n]] && [procs[n]][1..] == [];
      assert After(Replay(m, procs[..n]), [procs[n]]) == PlainStep(Replay(m, procs[..n]), procs[n].req);
    }
  }

  /** Every read returned what the rows held when its turn came. */
  ghost predicate Truthful(rows: Rows, procs: seq<Proc>) {
    forall i | 0 <= i < |procs| && procs[i].req.GetRow? ::
      procs[i].found == Lookup(After(rows, procs[..i]), procs[i].req.addr)
  }

  lemma TruthfulRest(rows: Rows, procs: seq<Proc>, n: nat)
    requires n <= |procs| && Truthful(rows, procs)
    ensures Truthful(After(rows, procs[..n]), procs[n..])
  {
    hide After;
    var rest := procs[n..];
    forall i | 0 <= i < |rest| && rest[i].req.GetRow?
      ensures rest[i].found == Lookup(After(After(rows, procs[..n]), rest[..i]), rest[i].req.addr)
    {
      assert rest[i] == procs[n + i] && procs[..n + i] == procs[..n] + rest[..i];
      AfterAppend(rows, procs[..n], rest[..i]);
    }
  }

  lemma FirstRead(rows: Rows, procs: seq<Proc>)
    requires Truthful(rows, procs) && procs != [] && procs[0].req.GetRow?
    ensures procs[0].found == Lookup(rows, procs[0].req.addr)
  {
    assert procs[..0] == [];
  }

  lemma AfterFew(rows: Rows, procs: seq<Proc>)
    ensures After(rows, procs[..0]) == rows
    ensures |procs| >= 1 ==> After(rows, procs[..1]) == PlainStep(rows, procs[0].req)
    ensures |procs| >= 2 ==> After(rows, procs[..2]) == PlainStep(PlainStep(rows, procs[0].req), procs[1].req)
  {
    hide PlainStep;
    if |procs| >= 1 {
      assert procs[..1] == [procs[0]] && procs[..1][1..] == [];
      assert After(PlainStep(rows, procs[0].req), []) == PlainStep(rows, procs[0].req);
    }
    if |procs| >= 2 {
      assert procs[..2][0] == procs[0] && procs[..2][1..] == [procs[1]] && [procs[1]][1..] == [];
      assert After(PlainStep(rows, procs[0].req), [procs[1]]) == PlainStep(PlainStep(rows, procs[0].req), procs[1].req);
    }
  }

  /* ---------- One command, then all ---------- */

  /** The calls an UPDATE makes, its read answered truthfully, merge into the stored row. */
  lemma UpdateRuns(t: TableDef, rows: Rows, a: Address, assigns: seq<Cell>, procs: seq<Proc>)
    requires Provided(t, assigns) && Truthful(rows, procs) && UpdateCalls(t, a, assigns, procs).Some?
    ensures var merged := UpdatedRow(t, if TakesShortcut(t, assigns) then None else Lookup(rows, a), assigns);
            After(rows, procs[..UpdateCalls(t, a, assigns, procs).value])
            == if Aborts(t, assigns) || merged.Err? then rows else rows[a := Stored(t, merged.value)]
  {
    hide After, Stored, TakesShortcut, AllRegular, DecodeRow, Paint;
    AfterFew(rows, procs);
    if procs != [] && procs[0].req.GetRow? {
      FirstRead(rows, procs);
    }
  }

  /** So do the calls of any write do what the statement does to the stored rows. */
  lemma WriteRuns(t: TableDef, rows: Rows, st: Statement, procs: seq<Proc>)
    requires ValidTable(t) && ProperStatement(t, st) && Truthful(rows, procs) && CallsOf(t, Modify(st), procs).Some?
    ensures After(rows, procs[..CallsOf(t, Modify(st), procs).value]) == StoreStep(t, rows, st)
  {
    hide After, KeyOf, RawAll, Stored, InsertedRow, UpdatedRow, ValidTable, Hits, Truthful, UpdateCalls, Aborts;
    AfterFew(rows, procs);
    if st.UpdateSet? && KeyOf(t, st).Ok? {
      UpdateRuns(t, rows, AddressIn(t, RawAll(KeyOf(t, st).value)), st.assigns, procs);
    }
  }

  lemma CommandRuns(t: TableDef, rows: Rows, m: Abstract, c: Command, procs: seq<Proc>)
    requires ValidTable(t) && ProperCommand(t, c) && Models(t, rows, m) && Truthful(rows, procs)
    requires CallsOf(t, c, procs).Some?
    ensures Models(t, After(rows, procs[..CallsOf(t, c, procs).value]), AbstractCommand(t, m, c))
  {
    hide After, Models, StoreStep, AbstractStep, ValidTable, ProperStatement, RawAll, KeyWords, Truthful, PlainStep;
    match c
    case Modify(st) =>
      WriteRuns(t, rows, st, procs);
      StatementRefines(t, rows, m, st);
    case Ask(filters, _) =>
      AfterFew(rows, procs);
      assert PlainStep(rows, procs[0].req) == rows by { ReadChangesNothing(rows, procs[0].req); }
  }

  lemma ReadChangesNothing(rows: Rows, r: Request)
    requires r.GetRow?
    ensures PlainStep(rows, r) == rows
  {
  }

  lemma {:induction false} SessionRuns(t: TableDef, rows: Rows, m: Abstract, cs: seq<Command>, procs: seq<Proc>)
    requires ValidTable(t) && ProperSession(t, cs) && Models(t, rows, m) && Truthful(rows, procs) && Plays(t, cs, procs)
    ensures Models(t, After(rows, procs), AbstractSession(t, m, cs))
    ensures Answers(t, cs, procs) == AbstractAnswers(t, m, cs)
    decreases |cs|
  {
    hide Models, ValidTable, CallsOf, AbstractCommand, Truthful, PointAnswer, KeyAnswer, QueryOf, ProperCommand, RawAll;
    if cs != [] {
      var n := CallsOf(t, cs[0], procs).value;
      CommandRuns(t, rows, m, cs[0], procs);
      TruthfulRest(rows, procs, n);
      SessionRuns(t, After(rows, procs[..n]), AbstractCommand(t, m, cs[0]), cs[1..], procs[n..]);
      assert procs == procs[..n] + procs[n..];
      AfterAppend(rows, procs[..n], procs[n..]);
      if cs[0].Ask? {
        AskAnswers(t, rows, m, cs[0], procs);
      }
    }
  }

  lemma AskAnswers(t: TableDef, rows: Rows, m: Abstract, c: Command, procs: seq<Proc>)
    requires ValidTable(t) && ProperCommand(t, c) && c.Ask? && Models(t, rows, m) && Truthful(rows, procs)
    requires CallsOf(t, c, procs).Some?
    ensures var ws := PointValues(c.filters, KeyNames(t)).value;
            procs != [] && FiltersOk(t, c.filters) && Below(c.selected, |t.columns|) && |ws| == |KeyNames(t)|
            && PointAnswer(QueryOf(t, c.filters, c.selected), RawAll(ws), procs[0].found)
               == Ok(KeyAnswer(t, m, c.filters, c.selected, ws))
  {
    hide Models, ValidTable, Truthful, PointAnswer, KeyAnswer, QueryOf, RawAll, PointValues, KeyWords;
    FirstRead(rows, procs);
    LookupAnswers(t, rows, m, c.filters, c.selected, PointValues(c.filters, KeyNames(t)).value);
  }

  /* ---------- The whole system ---------- */

  /** In a run whose calls were all answered, every read was truthful. */
  lemma RunIsTruthful(dbs: seq<Db>, caching: bool, m: Rows, acts: seq<Action>)
    requires dbs != [] && Represents(dbs, m)
    requires Runs(Fresh(dbs, caching), acts) && OrderlyRun(Fresh(dbs, caching), acts)
    requires forall p <- Final(Fresh(dbs, caching), acts).procs :: p.pc.Acked?
    ensures Truthful(m, Final(Fresh(dbs, caching), acts).procs)
  {
    hide Runs, Final, OrderlyRun, Represents, After;
    var procs := Final(Fresh(dbs, caching), acts).procs;
    forall i | 0 <= i < |procs| && procs[i].req.GetRow?
      ensures procs[i].found == Lookup(After(m, procs[..i]), procs[i].req.addr)
    {
      assert procs[i] in procs;
      AnswersLikeAPlainMap(dbs, caching, m, acts, i);
      ReplayIsAfter(m, procs[..i]);
    }
  }

  /** And the engines hold what the plain map holds after all calls. */
  lemma RunIsRepresented(dbs: seq<Db>, caching: bool, m: Rows, acts: seq<Action>)
    requires dbs != [] && Represents(dbs, m)
    requires Runs(Fresh(dbs, caching), acts) && OrderlyRun(Fresh(dbs, caching), acts)
    requires forall p <- Final(Fresh(dbs, caching), acts).procs :: p.pc.Acked?
    ensures var s := Final(Fresh(dbs, caching), acts); s.pipes != [] && Represents(Dbs(s), After(m, s.procs))
  {
    hide Runs, Final, OrderlyRun, After, Route, RowKey;
    var s := Final(Fresh(dbs, caching), acts);
    ReplayIsAfter(m, s.procs);
    assert s.pipes != [] by { NonEmpty(dbs, caching, acts); }
    forall a | Good(a)
      ensures Lookup(Dbs(s)[Route(a, |Dbs(s)|)], RowKey(a)) == Lookup(After(m, s.procs), a)
    {
      assert forall i | 0 <= i < |s.procs| :: s.procs[i] in s.procs;
      RestingRowsAreCoherent(dbs, caching, m, acts, a);
      RouteInRange(a, |s.pipes|);
    }
  }

  lemma NonEmpty(dbs: seq<Db>, caching: bool, acts: seq<Action>)
    requires dbs != [] && Runs(Fresh(dbs, caching), acts)
    ensures Final(Fresh(dbs, caching), acts).pipes != []
  {
    hide Runs, Final;
    FreshSafe(dbs, caching);
    RunSafe(Fresh(dbs, caching), acts);
  }

  /** One client runs writes and full-key SELECTs on a table of a storage with any number of
      engines, with or without the row cache, while collectors and committers are scheduled
      in any way. Each UPDATE merges into what its own read returned, and each SELECT answers
      from what its own read returned. Then every SELECT answers what the abstract table
      says, and when all calls are answered the engines hold exactly the abstract table. */
  lemma DatabaseIsAPlainTable(
      dbs: seq<Db>, caching: bool, acts: seq<Action>, t: TableDef, m: Abstract, cs: seq<Command>)
    requires dbs != [] && ValidTable(t) && Holds(dbs, t, m) && ProperSession(t, cs)
    requires Runs(Fresh(dbs, caching), acts) && OrderlyRun(Fresh(dbs, caching), acts)
    requires var s := Final(Fresh(dbs, caching), acts);
             Plays(t, cs, s.procs) && forall p <- s.procs :: p.pc.Acked?
    ensures var s := Final(Fresh(dbs, caching), acts);
            && Answers(t, cs, s.procs) == AbstractAnswers(t, m, cs)
            && Dbs(s) != [] && Holds(Dbs(s), t, AbstractSession(t, m, cs))
  {
    hide Runs, Final, OrderlyRun, Represents, Models, AbstractSession, Answers, AbstractAnswers, Plays, ProperSession;
    hide Sharded, After, ValidTable;
    var rows :| Represents(dbs, rows) && Models(t, rows, m);
    var s := Final(Fresh(dbs, caching), acts);
    RunIsTruthful(dbs, caching, rows, acts);
    RunIsRepresented(dbs, caching, rows, acts);
    SessionRuns(t, rows, m, cs, s.procs);
    ShardingKept(dbs, caching, acts);
  }

  /** After such a run any SELECT, by whichever plan, answers the projected rows of the
      abstract table that satisfy its filters, if its plan fits them and the limit is not
      exceeded. */
  lemma SelectAfterTheRun(
      dbs: seq<Db>, caching: bool, acts: seq<Action>, t: TableDef, m: Abstract, cs: seq<Command>,
      filters: seq<Filter>, selected: seq<nat>, limit: nat, keys: seq<seq<Value>>)
    requires dbs != [] && ValidTable(t) && Holds(dbs, t, m) && ProperSession(t, cs)
    requires Runs(Fresh(dbs, caching), acts) && OrderlyRun(Fresh(dbs, caching), acts)
    requires var s := Final(Fresh(dbs, caching), acts);
             Plays(t, cs, s.procs) && forall p <- s.procs :: p.pc.Acked?
    requires FiltersOk(t, filters) && Below(selected, |t.columns|) && PlanFits(t, filters, selected)
    requires var final := AbstractSession(t, m, cs);
             Lists(keys, final) && Wide(t, final, keys)
             && 1 <= limit && |Matching(t, final, filters, selected, keys)| <= limit
    ensures var s := Final(Fresh(dbs, caching), acts);
            && Dbs(s) != []
            && var r := Answered(Dbs(s), t, filters, selected, limit);
               r.Ok? && multiset(r.value) == multiset(Matching(t, AbstractSession(t, m, cs), filters, selected, keys))
  {
    hide Runs, Final, OrderlyRun, Holds, AbstractSession, Plays;
    hide ProperSession, ValidTable, PlanFits, Lists, Matching, Answered;
    DatabaseIsAPlainTable(dbs, caching, acts, t, m, cs);
    SelectAnswersTheAbstractTable(
      Dbs(Final(Fresh(dbs, caching), acts)), t, AbstractSession(t, m, cs), filters, selected, limit, keys);
  }
}
