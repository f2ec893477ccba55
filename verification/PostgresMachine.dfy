/**
 Any number of concurrent `Store` and `Retrieve` calls on the Postgres repository, as a step machine.

 One connection is shared under a mutex, which is held for one attempt and released between a call's attempts. An
 attempt opens a transaction, executes one statement and completes; it may break or fail at any of these points. A
 broken attempt is taken not to have committed. An upsert that fails otherwise while it is being committed may have
 become visible all the same: the library reports a connection lost during a commit as an error in doubt, which is not
 a broken connection and is not retried.
 */
module PostgresMachine {
  import opened Wrappers
  import opened Repository
  import opened PostgresManager
  import opened Linearizability

  datatype Op = Store(e: Entity) | Retrieve(id: string)

  datatype Reply = Stored | Found(row: Option<Entity>) | GaveUp | Threw

  datatype Ended = Succeeded(reply: Reply) | BrokeOff | FailedOtherwise

  datatype Phase =
    | Queued                        // before the mutex
    | Locked                        // mutex held, about to test the connection
    | Connected                     // mutex held, connection or null pointer about to be passed to the operation
    | Began                         // mutex held, transaction open
    | Executed(row: Option<Entity>) // mutex held, statement executed in the open transaction
    | Caught                        // mutex held, broken_connection caught, connection not reset yet
    | Unlocking(ended: Ended)       // mutex held, closure being left
    | Judging(ended: Ended)         // mutex free, retry hook deciding
    | Done(reply: Reply)
    | Finished(reply: Reply)

  /** `attempts` counts the attempts started, `breaks` those that broke; `endings` are those of the attempts left. */
  datatype Invocation = Invocation(op: Op, attempts: nat, breaks: nat, endings: seq<Ended>, phase: Phase)

  function Called(op: Op): Invocation {
    Invocation(op, 0, 0, [], Queued)
  }

  datatype State = State(
    maxRetry: nat,
    connection: Option<nat>,  // which factory call made it
    locked: bool,
    table: Table,
    calls: seq<Invocation>,
    tally: Tally)

  /** What has happened so far: factory calls, how they and the attempts ended, and which connections broke. */
  datatype Tally = Tally(
    factoryCalls: nat,
    brokenAttempts: nat,
    factoryFailures: nat,
    factoryNulls: nat,
    broken: set<nat>)

  /** Whether a logged call's upsert became visible. */
  datatype Effect = Applied | NoEffect

  type Logged = Entry<Op, Effect, Reply>

  datatype Trace = Trace(state: State, history: seq<Event<Op, Reply>>, log: seq<Logged>)

  datatype Step =
    | Invoke(op: Op)
    | Lock(id: nat)
    | Reuse(id: nat)
    | Create(id: nat, outcome: FactoryOutcome)
    | RejectNull(id: nat)
    | Begin(id: nat)
    | Execute(id: nat)
    | Complete(id: nat)
    | Break(id: nat)
    | Fail(id: nat, visible: bool)  // any other exception; `visible` when an upsert in doubt was committed
    | Reset(id: nat)
    | Unlock(id: nat)
    | Retry(id: nat)
    | Conclude(id: nat)
    | Deliver(id: nat)

  predicate Operating(l: Invocation, connection: Option<nat>) {
    (l.phase.Connected? && connection.Some?) || l.phase.Began? || l.phase.Executed?
  }

  predicate MayRetry(s: State, l: Invocation) {
    l.phase.Judging? && l.phase.ended.BrokeOff? && l.attempts <= s.maxRetry
  }

  predicate Enabled(s: State, step: Step) {
    if step.Invoke? then true
    else
      && step.id < |s.calls|
      && var l := s.calls[step.id];
         match step
         case Lock(_) => l.phase.Queued? && !s.locked
         case Reuse(_) => l.phase.Locked? && s.connection.Some?
         case Create(_, _) => l.phase.Locked? && s.connection.None?
         case RejectNull(_) => l.phase.Connected? && s.connection.None?
         case Begin(_) => l.phase.Connected? && s.connection.Some?
         case Execute(_) => l.phase.Began?
         case Complete(_) => l.phase.Executed?
         case Break(_) => Operating(l, s.connection)
         case Fail(_, visible) => Operating(l, s.connection) && (visible ==> l.phase.Executed? && l.op.Store?)
         case Reset(_) => l.phase.Caught?
         case Unlock(_) => l.phase.Unlocking?
         case Retry(_) => MayRetry(s, l)
         case Conclude(_) => l.phase.Judging? && !MayRetry(s, l)
         case Deliver(_) => l.phase.Done?
  }

  /** What a completed operation returns: the upsert nothing, the query the row it read. */
  function ReplyOf(op: Op, row: Option<Entity>): Reply {
    if op.Store? then Stored else Found(row)
  }

  /** What a call answers whose last attempt ended like this. */
  function ReplyFor(ended: Ended): Reply {
    match ended
    case Succeeded(reply) => reply
    case BrokeOff => GaveUp
    case FailedOtherwise => Threw
  }

  function PhaseAfter(s: State, step: Step): Phase
    requires Enabled(s, step) && !step.Invoke?
  {
    var l := s.calls[step.id];
    match step
    case Lock(_) => Locked
    case Reuse(_) => Connected
    case Create(_, outcome) =>
      (match outcome
       case NewConnection => Connected
       case NullConnection => Connected
       case FactoryBroken => Caught
       case FactoryFails => Unlocking(FailedOtherwise))
    case RejectNull(_) => Unlocking(FailedOtherwise)
    case Begin(_) => Began
    case Execute(_) => Executed(if l.op.Retrieve? then Row(s.table, l.op.id) else None)
    case Complete(_) => Unlocking(Succeeded(ReplyOf(l.op, l.phase.row)))
    case Break(_) => Caught
    case Fail(_, _) => Unlocking(FailedOtherwise)
    case Reset(_) => Unlocking(BrokeOff)
    case Unlock(_) => Judging(l.phase.ended)
    case Retry(_) => Queued
    case Conclude(_) => Done(ReplyFor(l.phase.ended))
    case Deliver(_) => Finished(l.phase.reply)
  }

  predicate Breaks(step: Step) {
    step.Break? || (step.Create? && step.outcome.FactoryBroken?)
  }

  function InvocationAfter(s: State, step: Step): Invocation
    requires Enabled(s, step) && !step.Invoke?
  {
    var l := s.calls[step.id];
    Invocation(
      l.op,
      if step.Lock? then l.attempts + 1 else l.attempts,
      if Breaks(step) then l.breaks + 1 else l.breaks,
      if step.Unlock? then l.endings + [l.phase.ended] else l.endings,
      PhaseAfter(s, step))
  }

  function ConnectionAfter(s: State, step: Step): Option<nat> {
    if step.Create? && step.outcome.NewConnection? then Some(s.tally.factoryCalls)
    else if step.Reset? then None
    else s.connection
  }

  function TallyAfter(s: State, step: Step): Tally
    requires Enabled(s, step)
  {
    var t := s.tally;
    if step.Create? then
      Tally(
        t.factoryCalls + 1,
        if step.outcome.FactoryBroken? then t.brokenAttempts + 1 else t.brokenAttempts,
        if step.outcome.FactoryFails? then t.factoryFailures + 1 else t.factoryFailures,
        if step.outcome.NullConnection? then t.factoryNulls + 1 else t.factoryNulls,
        t.broken)
    else if step.Break? then
      t.(brokenAttempts := t.brokenAttempts + 1,
         broken := t.broken + if s.connection.Some? then {s.connection.value} else {})
    else t
  }

  /** The transaction of a `Store` becomes visible when it completes, or when it fails in doubt and was committed. */
  predicate Publishes(s: State, step: Step)
    requires Enabled(s, step)
  {
    (step.Complete? && s.calls[step.id].op.Store?) || (step.Fail? && step.visible)
  }

  function TableAfter(s: State, step: Step): Table
    requires Enabled(s, step)
  {
    if Publishes(s, step) then Upsert(s.table, s.calls[step.id].op.e) else s.table
  }

  function Next(s: State, step: Step): State
    requires Enabled(s, step)
  {
    if step.Invoke? then s.(calls := s.calls + [Called(step.op)])
    else
      State(
        s.maxRetry,
        ConnectionAfter(s, step),
        if step.Lock? then true else if step.Unlock? then false else s.locked,
        TableAfter(s, step),
        s.calls[step.id := InvocationAfter(s, step)],
        TallyAfter(s, step))
  }

  function Seen(s: State, step: Step): seq<Event<Op, Reply>>
    requires Enabled(s, step)
  {
    match step
    case Invoke(op) => [Event.Call(|s.calls|, op)]
    case Deliver(i) => [Event.Return(i, s.calls[i].phase.reply)]
    case _ => []
  }

  /** The step throws away the attempt for good, with an exception that is not retried. */
  predicate Throws(step: Step) {
    step.Fail? || step.RejectNull? || (step.Create? && step.outcome.FactoryFails?)
  }

  /** Calls are logged with the step that decides them: under the mutex, or when the retry hook gives up. */
  function Committing(s: State, step: Step): seq<Logged>
    requires Enabled(s, step)
  {
    if step.Invoke? then []
    else
      var l, effect := s.calls[step.id], if Publishes(s, step) then Applied else NoEffect;
      if step.Complete? then [Entry(step.id, l.op, effect, ReplyOf(l.op, l.phase.row))]
      else if Throws(step) then [Entry(step.id, l.op, effect, Threw)]
      else if step.Conclude? && l.phase.ended.BrokeOff? then [Entry(step.id, l.op, effect, GaveUp)]
      else []
  }

  function After(t: Trace, step: Step): Trace
    requires Enabled(t.state, step)
  {
    Trace(Next(t.state, step), t.history + Seen(t.state, step), t.log + Committing(t.state, step))
  }

  function Exec(t: Trace, steps: seq<Step>): Option<Trace> {
    if steps == [] then Some(t)
    else
      match Exec(t, steps[..|steps| - 1])
      case None => None
      case Some(t') => if Enabled(t'.state, steps[|steps| - 1]) then Some(After(t', steps[|steps| - 1])) else None
  }

  /** Right after the manager's constructor, whose factory call returned a connection or a null pointer. */
  function Start(maxRetry: nat, table: Table, first: FactoryOutcome): Trace {
    var nulls := if first.NewConnection? then 0 else 1;
    var connection := if first.NewConnection? then Some(0) else None;
    Trace(State(maxRetry, connection, false, table, [], Tally(1, 0, 0, nulls, {})), [], [])
  }

  ghost predicate Run(maxRetry: nat, table: Table, first: FactoryOutcome, steps: seq<Step>, t: Trace) {
    && (first.NewConnection? || first.NullConnection?)
    && Exec(Start(maxRetry, table, first), steps) == Some(t)
  }

  // ---------- the sequential object ----------

  /** One logged call on a plain map. Only a `Store` changes it: one that returned always, one that threw perhaps. */
  function Apply(table: Table, op: Op, effect: Effect, reply: Reply): Option<Table> {
    match reply
    case Stored => if op.Store? && effect.Applied? then Some(Upsert(table, op.e)) else None
    case Found(row) => if op.Retrieve? && effect.NoEffect? && row == Row(table, op.id) then Some(table) else None
    case GaveUp => if effect.NoEffect? then Some(table) else None
    case Threw => if effect.NoEffect? then Some(table) else if op.Store? then Some(Upsert(table, op.e)) else None
  }

  function Replay(table: Table, log: seq<Logged>): Option<Table> {
    if log == [] then Some(table)
    else
      match Replay(table, log[..|log| - 1])
      case None => None
      case Some(t) => Apply(t, log[|log| - 1].arg, log[|log| - 1].env, log[|log| - 1].res)
  }

  predicate WentThrough(e: Logged) {
    e.res.Stored? || e.res.Found? || e.env.Applied?
  }

  /** The calls that returned or took effect, in the order of the log. */
  function Effective(log: seq<Logged>): seq<Logged> {
    if log == [] then []
    else Effective(log[..|log| - 1]) + if WentThrough(log[|log| - 1]) then [log[|log| - 1]] else []
  }

  /** What `InMemoryRepo` answers and becomes. */
  function InMemory(table: Table, op: Op): (Table, Reply) {
    match op
    case Store(e) => (Upsert(table, e), Stored)
    case Retrieve(id) => (table, Found(Row(table, id)))
  }

  /** The map after these calls, when it answers each of them as the log says; one that threw never saw its answer. */
  function InMemoryRun(table: Table, log: seq<Logged>): Option<Table> {
    if log == [] then Some(table)
    else
      match InMemoryRun(table, log[..|log| - 1])
      case None => None
      case Some(t) =>
        var (t', reply) := InMemory(t, log[|log| - 1].arg);
        if reply == log[|log| - 1].res || log[|log| - 1].res.Threw? then Some(t') else None
  }

  function Upserts(log: seq<Logged>): seq<Entity> {
    if log == [] then []
    else
      var e := log[|log| - 1];
      Upserts(log[..|log| - 1]) + if e.arg.Store? && e.env.Applied? then [e.arg.e] else []
  }

  function Fold(table: Table, es: seq<Entity>): Table {
    if es == [] then table else Upsert(Fold(table, es[..|es| - 1]), es[|es| - 1])
  }

  // ---------- how steps are grouped ----------

  predicate HoldsMutex(l: Invocation) {
    || l.phase.Locked? || l.phase.Connected? || l.phase.Began?
    || l.phase.Executed? || l.phase.Caught? || l.phase.Unlocking?
  }

  function StageOf(l: Invocation): Stage<Reply> {
    match l.phase
    case Unlocking(ended) => if ended.BrokeOff? then Pending else Committed(ReplyFor(ended))
    case Judging(ended) => if ended.BrokeOff? then Pending else Committed(ReplyFor(ended))
    case Done(r) => Committed(r)
    case Finished(r) => Returned(r)
    case _ => Pending
  }
}
