/** What every run of the Postgres repository keeps true, and the theorems about whole runs. */
module PostgresProofs {
  import opened Wrappers
  import opened Repository
  import opened PostgresManager
  import opened Linearizability
  import opened Counting
  import opened PostgresMachine

  // ---------- the mutex ----------

  ghost predicate MutexInv(s: State) {
    Count(s.calls, HoldsMutex) == if s.locked then 1 else 0
  }

  lemma HoldsAfter(s: State, step: Step)
    requires Enabled(s, step) && !step.Invoke?
    ensures HoldsMutex(InvocationAfter(s, step)) == (step.Lock? || (HoldsMutex(s.calls[step.id]) && !step.Unlock?))
    ensures step.Lock? ==> !HoldsMutex(s.calls[step.id])
    ensures step.Unlock? ==> HoldsMutex(s.calls[step.id])
  {
  }

  lemma MutexInvStep(s: State, step: Step)
    requires MutexInv(s) && Enabled(s, step)
    ensures MutexInv(Next(s, step))
  {
    if step.Invoke? {
      CountAppend(s.calls, Called(step.op), HoldsMutex);
    } else {
      HoldsAfter(s, step);
      CountUpdate(s.calls, step.id, InvocationAfter(s, step), HoldsMutex);
      if HoldsMutex(s.calls[step.id]) {
        CountPositive(s.calls, step.id, HoldsMutex);
      }
    }
  }

  lemma HolderAlone(s: State, i: nat, j: nat)
    requires MutexInv(s) && i < |s.calls| && j < |s.calls| && i != j && HoldsMutex(s.calls[i])
    ensures s.locked && !HoldsMutex(s.calls[j])
  {
    CountPositive(s.calls, i, HoldsMutex);
    if HoldsMutex(s.calls[j]) {
      CountTwo(s.calls, i, j, HoldsMutex);
    }
  }

  // ---------- the connection ----------

  function Gone(connection: Option<nat>): nat {
    if connection.None? then 1 else 0
  }

  /** The connection in place has never broken, and every factory call is accounted for. */
  ghost predicate Clean(connection: Option<nat>, t: Tally) {
    && (connection.Some? ==> connection.value < t.factoryCalls && connection.value !in t.broken)
    && t.factoryCalls + Gone(connection) == 1 + t.brokenAttempts + t.factoryFailures + t.factoryNulls
  }

  /** What the holder of the mutex knows: `Clean`, or while handling a broken connection, as if it were gone already. */
  ghost predicate Knows(l: Invocation, connection: Option<nat>, t: Tally, table: Table) {
    match l.phase
    case Caught => Clean(None, t)
    case Began => connection.Some? && Clean(connection, t)
    case Executed(row) => connection.Some? && Clean(connection, t) && (l.op.Retrieve? ==> row == Row(table, l.op.id))
    case _ => HoldsMutex(l) ==> Clean(connection, t)
  }

  ghost predicate ConnectionInv(s: State) {
    && (forall c :: c in s.tally.broken ==> c < s.tally.factoryCalls)
    && (!s.locked ==> Clean(s.connection, s.tally))
    && forall i :: 0 <= i < |s.calls| ==> Knows(s.calls[i], s.connection, s.tally, s.table)
  }

  lemma KnowsActing(s: State, step: Step)
    requires Enabled(s, step) && !step.Invoke?
    requires Knows(s.calls[step.id], s.connection, s.tally, s.table)
    requires !s.locked ==> Clean(s.connection, s.tally)
    requires forall c :: c in s.tally.broken ==> c < s.tally.factoryCalls
    ensures Knows(InvocationAfter(s, step), ConnectionAfter(s, step), TallyAfter(s, step), TableAfter(s, step))
    ensures forall c :: c in TallyAfter(s, step).broken ==> c < TallyAfter(s, step).factoryCalls
  {
  }

  lemma OnlyHolderChanges(s: State, step: Step)
    requires Enabled(s, step)
    ensures step.Invoke? || !HoldsMutex(s.calls[step.id]) ==>
              && ConnectionAfter(s, step) == s.connection
              && TallyAfter(s, step) == s.tally
              && TableAfter(s, step) == s.table
  {
  }

  lemma ConnectionInvStep(s: State, step: Step)
    requires MutexInv(s) && ConnectionInv(s) && Enabled(s, step)
    ensures ConnectionInv(Next(s, step))
  {
    var s' := Next(s, step);
    OnlyHolderChanges(s, step);
    if !step.Invoke? {
      var i := step.id;
      KnowsActing(s, step);
      HoldsAfter(s, step);
      if HoldsMutex(s.calls[i]) {
        CountPositive(s.calls, i, HoldsMutex);
      }
      forall j | 0 <= j < |s'.calls| ensures Knows(s'.calls[j], s'.connection, s'.tally, s'.table) {
        if j != i {
          assert Knows(s.calls[j], s.connection, s.tally, s.table);
          if HoldsMutex(s.calls[i]) {
            HolderAlone(s, i, j);
          }
        }
      }
    }
  }

  // ---------- attempts ----------

  /** The first `n` attempts broke. */
  ghost predicate Broke(endings: seq<Ended>, n: int)
    requires n <= |endings|
  {
    forall k :: 0 <= k < n ==> endings[k] == BrokeOff
  }

  /** Every earlier attempt of the call broke. */
  ghost predicate InAttempt(l: Invocation) {
    |l.endings| + 1 == l.attempts && Broke(l.endings, |l.endings|)
  }

  /** Its last attempt ended so, after earlier ones that broke. */
  ghost predicate EndedWith(l: Invocation, ended: Ended) {
    && |l.endings| == l.attempts >= 1
    && Broke(l.endings, |l.endings| - 1)
    && l.endings[|l.endings| - 1] == ended
    && Counted(l, ended)
  }

  ghost predicate Counted(l: Invocation, ended: Ended) {
    && l.attempts == l.breaks + (if ended.BrokeOff? then 0 else 1)
    && (ended.Succeeded? ==> ended.reply.Stored? || ended.reply.Found?)
  }

  ghost predicate Answers(l: Invocation, reply: Reply, maxRetry: nat) {
    && l.attempts >= 1 && |l.endings| == l.attempts
    && EndedWith(l, l.endings[|l.endings| - 1])
    && reply == ReplyFor(l.endings[|l.endings| - 1])
    && (reply.GaveUp? ==> l.attempts == maxRetry + 1)
  }

  ghost predicate AttemptsOk(l: Invocation, maxRetry: nat) {
    && l.attempts <= maxRetry + 1
    && (match l.phase
        case Queued => l.breaks == l.attempts == |l.endings| <= maxRetry && Broke(l.endings, |l.endings|)
        case Caught => l.breaks == l.attempts && InAttempt(l)
        case Unlocking(ended) => Counted(l, ended) && InAttempt(l)
        case Judging(ended) => EndedWith(l, ended)
        case Done(reply) => Answers(l, reply, maxRetry)
        case Finished(reply) => Answers(l, reply, maxRetry)
        case _ => l.attempts == l.breaks + 1 && InAttempt(l))
  }

  ghost predicate AttemptsInv(s: State) {
    forall l :: l in s.calls ==> AttemptsOk(l, s.maxRetry)
  }

  lemma AttemptsOkAfter(s: State, step: Step)
    requires Enabled(s, step) && !step.Invoke? && AttemptsOk(s.calls[step.id], s.maxRetry)
    ensures AttemptsOk(InvocationAfter(s, step), s.maxRetry)
  {
  }

  lemma AttemptsInvStep(s: State, step: Step)
    requires AttemptsInv(s) && Enabled(s, step)
    ensures AttemptsInv(Next(s, step))
  {
    if !step.Invoke? {
      assert s.calls[step.id] in s.calls;
      AttemptsOkAfter(s, step);
    }
  }

  // ---------- the table and the history ----------

  lemma ReplaySnoc(table: Table, log: seq<Logged>, e: Logged)
    requires Replay(table, log).Some?
    ensures Replay(table, log + [e]) == Apply(Replay(table, log).value, e.arg, e.env, e.res)
  {
    assert (log + [e])[..|log|] == log;
  }

  ghost predicate TableInv(t: Trace, table: Table) {
    Replay(table, t.log) == Some(t.state.table)
  }

  /** What a step logs is a legal operation on the table before it, and leads to the table after it. */
  lemma LoggedIsLegal(s: State, step: Step)
    requires Enabled(s, step)
    requires step.Invoke? || Knows(s.calls[step.id], s.connection, s.tally, s.table)
    ensures var c := Committing(s, step);
            if c == [] then TableAfter(s, step) == s.table
            else |c| == 1 && Apply(s.table, c[0].arg, c[0].env, c[0].res) == Some(TableAfter(s, step))
  {
  }

  lemma TableInvStep(t: Trace, step: Step, table: Table)
    requires TableInv(t, table) && ConnectionInv(t.state) && Enabled(t.state, step)
    ensures TableInv(After(t, step), table)
  {
    if !step.Invoke? {
      assert Knows(t.state.calls[step.id], t.state.connection, t.state.tally, t.state.table);
    }
    LoggedIsLegal(t.state, step);
    var c := Committing(t.state, step);
    if c == [] {
      assert t.log + c == t.log;
    } else {
      assert c == [c[0]];
      ReplaySnoc(table, t.log, c[0]);
    }
  }

  function Ops(calls: seq<Invocation>): seq<Op> {
    seq(|calls|, i requires 0 <= i < |calls| => calls[i].op)
  }

  function Stages(calls: seq<Invocation>): seq<Stage<Reply>> {
    seq(|calls|, i requires 0 <= i < |calls| => StageOf(calls[i]))
  }

  ghost predicate HistoryInv(t: Trace) {
    Consistent(Ops(t.state.calls), Stages(t.state.calls), t.history, t.log)
  }

  lemma CommitsOnce(s: State, step: Step)
    requires Enabled(s, step) && !step.Invoke?
    ensures var l, l', c := s.calls[step.id], InvocationAfter(s, step), Committing(s, step);
            && (c == [] && !step.Deliver? ==> StageOf(l') == StageOf(l))
            && (step.Deliver? ==> c == [] && StageOf(l).Committed? && StageOf(l') == Returned(StageOf(l).res))
            && (c != [] ==> !step.Deliver? && c == [Entry(step.id, l.op, c[0].env, c[0].res)]
                            && StageOf(l).Pending? && StageOf(l') == Committed(c[0].res))
  {
  }

  lemma HistoryInvStep(t: Trace, step: Step)
    requires HistoryInv(t) && Enabled(t.state, step)
    ensures HistoryInv(After(t, step))
  {
    var s := t.state;
    if step.Invoke? {
      var l := Called(step.op);
      assert Ops(s.calls + [l]) == Ops(s.calls) + [step.op];
      assert Stages(s.calls + [l]) == Stages(s.calls) + [Pending];
      OnCall(Ops(s.calls), Stages(s.calls), t.history, t.log, step.op);
      assert t.log + [] == t.log;
    } else {
      CommitsOnce(s, step);
      HistoryMove(t, step.id, InvocationAfter(s, step), Committing(s, step), step.Deliver?);
    }
  }

  lemma HistoryMove(t: Trace, i: nat, l: Invocation, c: seq<Logged>, delivered: bool)
    requires HistoryInv(t) && i < |t.state.calls| && l.op == t.state.calls[i].op
    requires var st := StageOf(t.state.calls[i]);
             && (c == [] && !delivered ==> StageOf(l) == st)
             && (delivered ==> c == [] && st.Committed? && StageOf(l) == Returned(st.res))
             && (c != [] ==>
                   && !delivered && c == [Entry(i, l.op, c[0].env, c[0].res)]
                   && st.Pending? && StageOf(l) == Committed(c[0].res))
    ensures var ls := t.state.calls[i := l];
            var h := if delivered then [Event.Return(i, StageOf(l).res)] else [];
            Consistent(Ops(ls), Stages(ls), t.history + h, t.log + c)
  {
    var ops, stages := Ops(t.state.calls), Stages(t.state.calls);
    assert Ops(t.state.calls[i := l]) == ops;
    assert Stages(t.state.calls[i := l]) == stages[i := StageOf(l)];
    if c != [] {
      OnCommit(ops, stages, t.history, t.log, i, c[0].env, c[0].res);
      assert t.history + [] == t.history;
    } else if delivered {
      OnReturn(ops, stages, t.history, t.log, i);
      assert t.log + c == t.log;
    } else {
      assert stages[i := stages[i]] == stages;
      assert t.history + [] == t.history && t.log + c == t.log;
    }
  }

  // ---------- all together ----------

  ghost predicate Inv(t: Trace, table: Table) {
    && MutexInv(t.state) && ConnectionInv(t.state) && AttemptsInv(t.state)
    && TableInv(t, table) && HistoryInv(t)
  }

  lemma {:induction false} RunInv(maxRetry: nat, table: Table, first: FactoryOutcome, steps: seq<Step>, t: Trace)
    requires Run(maxRetry, table, first, steps, t)
    ensures Inv(t, table) && t.state.maxRetry == maxRetry
    decreases |steps|
  {
    if steps != [] {
      var n := |steps| - 1;
      var m := Exec(Start(maxRetry, table, first), steps[..n]).value;
      RunInv(maxRetry, table, first, steps[..n], m);
      MutexInvStep(m.state, steps[n]);
      ConnectionInvStep(m.state, steps[n]);
      AttemptsInvStep(m.state, steps[n]);
      TableInvStep(m, steps[n], table);
      HistoryInvStep(m, steps[n]);
    }
  }

  // ---------- theorems ----------

  /** Step `k` is a break of this connection. */
  ghost predicate BreaksAt(start: Trace, steps: seq<Step>, k: nat, connection: nat) {
    && k < |steps| && steps[k].Break?
    && Exec(start, steps[..k]).Some? && Exec(start, steps[..k]).value.state.connection == Some(connection)
  }

  lemma BrokenGrows(s: State, step: Step)
    requires Enabled(s, step)
    ensures s.tally.broken <= Next(s, step).tally.broken
    ensures step.Break? && s.connection.Some? ==> s.connection.value in Next(s, step).tally.broken
  {
  }

  lemma {:induction false} BreaksAreRecorded(start: Trace, steps: seq<Step>, t: Trace, k: nat, connection: nat)
    requires Exec(start, steps) == Some(t) && BreaksAt(start, steps, k, connection)
    ensures connection in t.state.tally.broken
    decreases |steps|
  {
    var n := |steps| - 1;
    var m := Exec(start, steps[..n]).value;
    BrokenGrows(m.state, steps[n]);
    if k < n {
      assert steps[..n][..k] == steps[..k];
      BreaksAreRecorded(start, steps[..n], m, k, connection);
    }
  }

  /** No operation is started or continued on a connection that has broken at any step before, by whichever call. */
  lemma NoReuseAfterBroken(maxRetry: nat, table: Table, first: FactoryOutcome, steps: seq<Step>, t: Trace, step: Step)
    requires Run(maxRetry, table, first, steps, t) && Enabled(t.state, step)
    requires step.Begin? || step.Execute? || step.Complete?
    ensures t.state.connection.Some? && t.state.connection.value !in t.state.tally.broken
    ensures forall k :: !BreaksAt(Start(maxRetry, table, first), steps, k, t.state.connection.value)
  {
    RunInv(maxRetry, table, first, steps, t);
    assert Knows(t.state.calls[step.id], t.state.connection, t.state.tally, t.state.table);
    forall k: nat | BreaksAt(Start(maxRetry, table, first), steps, k, t.state.connection.value) ensures false {
      BreaksAreRecorded(Start(maxRetry, table, first), steps, t, k, t.state.connection.value);
    }
  }

  predicate Creates(step: Step, outcome: FactoryOutcome) {
    step.Create? && step.outcome == outcome
  }

  /** How often the factory ended so, the constructor's own call included. */
  function Outcomes(first: FactoryOutcome, steps: seq<Step>, outcome: FactoryOutcome): nat {
    Count(steps, (step: Step) => Creates(step, outcome)) + if first == outcome then 1 else 0
  }

  function Breakings(steps: seq<Step>): nat {
    Count(steps, (step: Step) => step.Break?)
  }

  /** The tally counts the steps of the run. */
  ghost predicate Tallied(first: FactoryOutcome, steps: seq<Step>, t: Tally) {
    && t.factoryFailures == Outcomes(first, steps, FactoryFails)
    && t.factoryNulls == Outcomes(first, steps, NullConnection)
    && t.brokenAttempts == Outcomes(first, steps, FactoryBroken) + Breakings(steps)
    && t.factoryCalls == t.factoryFailures + t.factoryNulls + Outcomes(first, steps, FactoryBroken)
                         + Outcomes(first, steps, NewConnection)
  }

  lemma OutcomesSnoc(first: FactoryOutcome, steps: seq<Step>, step: Step, outcome: FactoryOutcome)
    ensures Outcomes(first, steps + [step], outcome)
            == Outcomes(first, steps, outcome) + if Creates(step, outcome) then 1 else 0
  {
    CountAppend(steps, step, (x: Step) => Creates(x, outcome));
  }

  lemma BreakingsSnoc(steps: seq<Step>, step: Step)
    ensures Breakings(steps + [step]) == Breakings(steps) + if step.Break? then 1 else 0
  {
    CountAppend(steps, step, (x: Step) => x.Break?);
  }

  lemma TalliedStep(first: FactoryOutcome, steps: seq<Step>, s: State, step: Step)
    requires Enabled(s, step) && Tallied(first, steps, s.tally)
    ensures Tallied(first, steps + [step], Next(s, step).tally)
  {
    OutcomesSnoc(first, steps, step, NewConnection);
    OutcomesSnoc(first, steps, step, NullConnection);
    OutcomesSnoc(first, steps, step, FactoryBroken);
    OutcomesSnoc(first, steps, step, FactoryFails);
    BreakingsSnoc(steps, step);
  }

  lemma {:induction false} TallyExactly(
    maxRetry: nat, table: Table, first: FactoryOutcome, steps: seq<Step>, t: Trace)
    requires Run(maxRetry, table, first, steps, t)
    ensures Tallied(first, steps, t.state.tally)
    decreases |steps|
  {
    if steps != [] {
      var n := |steps| - 1;
      var m := Exec(Start(maxRetry, table, first), steps[..n]).value;
      TallyExactly(maxRetry, table, first, steps[..n], m);
      TalliedStep(first, steps[..n], m.state, steps[n]);
      assert steps == steps[..n] + [steps[n]];
    }
  }

  /**
   Conservation: whenever the mutex is free, factory calls, plus one while the connection is gone, equal one plus
   broken attempts plus factory calls that failed otherwise or returned a null pointer. In terms of the run: of the
   connections that the factory ever made, all have broken but the one in place, if there is one.
   */
  lemma ConnectionsConserved(maxRetry: nat, table: Table, first: FactoryOutcome, steps: seq<Step>, t: Trace)
    requires Run(maxRetry, table, first, steps, t) && !t.state.locked
    ensures var n := t.state.tally;
            n.factoryCalls + Gone(t.state.connection) == 1 + n.brokenAttempts + n.factoryFailures + n.factoryNulls
    ensures Outcomes(first, steps, NewConnection) == Breakings(steps) + if t.state.connection.Some? then 1 else 0
  {
    FreeIsClean(maxRetry, table, first, steps, t);
    TallyExactly(maxRetry, table, first, steps, t);
  }

  lemma FreeIsClean(maxRetry: nat, table: Table, first: FactoryOutcome, steps: seq<Step>, t: Trace)
    requires Run(maxRetry, table, first, steps, t) && !t.state.locked
    ensures Clean(t.state.connection, t.state.tally)
  {
    RunInv(maxRetry, table, first, steps, t);
  }

  /** At most one operation is in progress at any moment. */
  lemma OneOperationAtATime(
    maxRetry: nat, table: Table, first: FactoryOutcome, steps: seq<Step>, t: Trace, i: nat, j: nat)
    requires Run(maxRetry, table, first, steps, t)
    requires i < |t.state.calls| && j < |t.state.calls|
    requires Operating(t.state.calls[i], t.state.connection) && Operating(t.state.calls[j], t.state.connection)
    ensures i == j && t.state.locked
  {
    RunInv(maxRetry, table, first, steps, t);
    CountPositive(t.state.calls, i, HoldsMutex);
    if i != j {
      HolderAlone(t.state, i, j);
    }
  }

  /**
   A finished call made at most `maxRetry + 1` attempts, all but the last of which broke. It answers as its last attempt
   ended: it returns normally exactly when that one succeeded, throws on exactly when that one failed otherwise, and
   gives up exactly when all attempts broke, which were `maxRetry + 1` then.
   */
  lemma RetryIsBounded(maxRetry: nat, table: Table, first: FactoryOutcome, steps: seq<Step>, t: Trace, i: nat)
    requires Run(maxRetry, table, first, steps, t)
    requires i < |t.state.calls| && t.state.calls[i].phase.Finished?
    ensures var l := t.state.calls[i];
            && 1 <= l.attempts <= maxRetry + 1
            && (l.phase.reply.GaveUp? <==> l.breaks == l.attempts)
            && (l.phase.reply.GaveUp? ==> l.attempts == maxRetry + 1)
            && (!l.phase.reply.GaveUp? ==> l.breaks == l.attempts - 1)
    ensures var l := t.state.calls[i];
            && |l.endings| == l.attempts
            && (forall k :: 0 <= k < |l.endings| - 1 ==> l.endings[k] == BrokeOff)
            && var last := l.endings[|l.endings| - 1];
               && (l.phase.reply.Stored? || l.phase.reply.Found? <==> last == Succeeded(l.phase.reply))
               && (l.phase.reply.GaveUp? <==> last == BrokeOff)
               && (l.phase.reply.Threw? <==> last == FailedOtherwise)
  {
    FinishedAnswers(maxRetry, table, first, steps, t, i);
    AnswersAsLastEnded(t.state.calls[i], t.state.calls[i].phase.reply, maxRetry);
  }

  lemma FinishedAnswers(maxRetry: nat, table: Table, first: FactoryOutcome, steps: seq<Step>, t: Trace, i: nat)
    requires Run(maxRetry, table, first, steps, t)
    requires i < |t.state.calls| && t.state.calls[i].phase.Finished?
    ensures var l := t.state.calls[i]; Answers(l, l.phase.reply, maxRetry) && l.attempts <= maxRetry + 1
  {
    RunInv(maxRetry, table, first, steps, t);
    assert t.state.calls[i] in t.state.calls && AttemptsOk(t.state.calls[i], maxRetry);
  }

  lemma AnswersAsLastEnded(l: Invocation, reply: Reply, maxRetry: nat)
    requires Answers(l, reply, maxRetry)
    ensures |l.endings| == l.attempts >= 1
    ensures var last := l.endings[|l.endings| - 1];
            && (reply.Stored? || reply.Found? <==> last == Succeeded(reply))
            && (reply.GaveUp? <==> last == BrokeOff)
            && (reply.Threw? <==> last == FailedOtherwise)
            && Counted(l, last)
    ensures forall k :: 0 <= k < |l.endings| - 1 ==> l.endings[k] == BrokeOff
  {
  }

  // ---------- what a call has been through ----------

  /** The call's attempt broke with this step. */
  predicate BreaksCall(step: Step, i: nat) {
    step == Break(i) || step == Create(i, FactoryBroken)
  }

  /** The call's attempt failed for good with this step: another exception, or no connection to work on. */
  predicate FailsCall(step: Step, i: nat) {
    step == Fail(i, false) || step == Fail(i, true) || step == RejectNull(i) || step == Create(i, FactoryFails)
  }

  ghost predicate Failed(steps: seq<Step>, i: nat) {
    exists step :: step in steps && FailsCall(step, i)
  }

  ghost predicate CallExplained(steps: seq<Step>, i: nat, l: Invocation) {
    && (Complete(i) in steps <==> Decided(l))
    && (Failed(steps, i) <==> HasThrown(l))
    && l.breaks == Count(steps, (x: Step) => BreaksCall(x, i))
    && l.attempts == Count(steps, (x: Step) => x == Lock(i))
  }

  predicate Decided(l: Invocation) {
    !StageOf(l).Pending? && (StageOf(l).res.Stored? || StageOf(l).res.Found?)
  }

  predicate HasThrown(l: Invocation) {
    !StageOf(l).Pending? && StageOf(l).res.Threw?
  }

  /** What one step does to a call. */
  lemma StageMoves(s: State, step: Step)
    requires Enabled(s, step) && !step.Invoke? && AttemptsOk(s.calls[step.id], s.maxRetry)
    ensures var i, l, l' := step.id, s.calls[step.id], InvocationAfter(s, step);
            && (Decided(l') <==> Decided(l) || step == Complete(i))
            && (HasThrown(l') <==> HasThrown(l) || FailsCall(step, i))
            && l'.breaks == l.breaks + (if BreaksCall(step, i) then 1 else 0)
            && l'.attempts == l.attempts + (if step == Lock(i) then 1 else 0)
  {
  }

  lemma CallExplainedStep(steps: seq<Step>, s: State, step: Step, i: nat)
    requires Enabled(s, step) && i < |s.calls|
    requires CallExplained(steps, i, s.calls[i]) && AttemptsOk(s.calls[i], s.maxRetry)
    ensures CallExplained(steps + [step], i, Next(s, step).calls[i])
  {
    CountAppend(steps, step, (x: Step) => BreaksCall(x, i));
    CountAppend(steps, step, (x: Step) => x == Lock(i));
    FailedSnoc(steps, step, i);
    if !step.Invoke? && step.id == i {
      StageMoves(s, step);
    }
  }

  lemma FailedSnoc(steps: seq<Step>, step: Step, i: nat)
    ensures Failed(steps + [step], i) <==> Failed(steps, i) || FailsCall(step, i)
  {
    assert step in steps + [step];
  }

  lemma {:induction false} NothingYet(steps: seq<Step>, i: nat)
    requires forall step :: step in steps && !step.Invoke? ==> step.id != i
    ensures CallExplained(steps, i, Invocation(Retrieve(""), 0, 0, [], Queued))
  {
    if steps != [] {
      assert steps[|steps| - 1] in steps;
      NothingYet(steps[..|steps| - 1], i);
    }
  }

  ghost predicate StepsExplain(steps: seq<Step>, s: State) {
    && (forall step :: step in steps && !step.Invoke? ==> step.id < |s.calls|)
    && forall i :: 0 <= i < |s.calls| ==> CallExplained(steps, i, s.calls[i])
  }

  lemma StepsExplainStep(steps: seq<Step>, s: State, step: Step)
    requires Enabled(s, step) && StepsExplain(steps, s) && AttemptsInv(s)
    ensures StepsExplain(steps + [step], Next(s, step))
  {
    var s' := Next(s, step);
    forall i | 0 <= i < |s'.calls| ensures CallExplained(steps + [step], i, s'.calls[i]) {
      if i < |s.calls| {
        assert s.calls[i] in s.calls;
        CallExplainedStep(steps, s, step, i);
      } else {
        NothingYet(steps + [step], i);
      }
    }
  }

  lemma RunAttempts(maxRetry: nat, table: Table, first: FactoryOutcome, steps: seq<Step>, t: Trace)
    requires Run(maxRetry, table, first, steps, t)
    ensures AttemptsInv(t.state) && t.state.maxRetry == maxRetry
  {
    RunInv(maxRetry, table, first, steps, t);
  }

  lemma {:induction false} CallsExplained(
    maxRetry: nat, table: Table, first: FactoryOutcome, steps: seq<Step>, t: Trace)
    requires Run(maxRetry, table, first, steps, t)
    ensures StepsExplain(steps, t.state)
    decreases |steps|
  {
    if steps != [] {
      var n := |steps| - 1;
      var m := Exec(Start(maxRetry, table, first), steps[..n]).value;
      CallsExplained(maxRetry, table, first, steps[..n], m);
      RunAttempts(maxRetry, table, first, steps[..n], m);
      StepsExplainStep(steps[..n], m.state, steps[n]);
      assert steps == steps[..n] + [steps[n]];
    }
  }

  /**
   How a finished call answers, from what happened in the run: it returned exactly when an attempt of it completed, it
   threw on exactly when one failed otherwise than by a broken connection, and it gave up exactly when each of its
   `maxRetry + 1` attempts broke.
   */
  lemma AnswersFromSteps(
    maxRetry: nat, table: Table, first: FactoryOutcome, steps: seq<Step>, t: Trace, i: nat)
    requires Run(maxRetry, table, first, steps, t)
    requires i < |t.state.calls| && t.state.calls[i].phase.Finished?
    ensures var reply := t.state.calls[i].phase.reply;
            && (reply.Stored? || reply.Found? <==> Complete(i) in steps)
            && (reply.Threw? <==> exists step :: step in steps && FailsCall(step, i))
            && (reply.GaveUp? <==> Count(steps, (x: Step) => BreaksCall(x, i)) == maxRetry + 1)
            && 1 <= Count(steps, (x: Step) => x == Lock(i)) <= maxRetry + 1
  {
    CallsExplained(maxRetry, table, first, steps, t);
    RetryIsBounded(maxRetry, table, first, steps, t, i);
    assert CallExplained(steps, i, t.state.calls[i]);
  }

  // ---------- progress ----------

  predicate Unfinished(l: Invocation) {
    !l.phase.Finished?
  }

  /** A step that a call's phase asks for. */
  function NextOf(s: State, i: nat): Step
    requires i < |s.calls| && Unfinished(s.calls[i])
  {
    var l := s.calls[i];
    match l.phase
    case Queued => Lock(i)
    case Locked => if s.connection.Some? then Reuse(i) else Create(i, NewConnection)
    case Connected => if s.connection.Some? then Begin(i) else RejectNull(i)
    case Began => Execute(i)
    case Executed(_) => Complete(i)
    case Caught => Reset(i)
    case Unlocking(_) => Unlock(i)
    case Judging(_) => if MayRetry(s, l) then Retry(i) else Conclude(i)
    case Done(_) => Deliver(i)
  }

  /** Deadlock freedom: while a call is unfinished, one of the calls in progress can take a step. */
  lemma Progress(maxRetry: nat, table: Table, first: FactoryOutcome, steps: seq<Step>, t: Trace) returns (step: Step)
    requires Run(maxRetry, table, first, steps, t)
    requires exists l :: l in t.state.calls && Unfinished(l)
    ensures Enabled(t.state, step) && !step.Invoke?
  {
    var i: nat;
    RunMutex(maxRetry, table, first, steps, t);
    if t.state.locked {
      i := CountWitness(t.state.calls, HoldsMutex);
    } else {
      var l :| l in t.state.calls && Unfinished(l);
      i :| i < |t.state.calls| && t.state.calls[i] == l;
    }
    step := NextOf(t.state, i);
    NextIsEnabled(t.state, i);
  }

  lemma RunMutex(maxRetry: nat, table: Table, first: FactoryOutcome, steps: seq<Step>, t: Trace)
    requires Run(maxRetry, table, first, steps, t)
    ensures MutexInv(t.state)
  {
    RunInv(maxRetry, table, first, steps, t);
  }

  lemma NextIsEnabled(s: State, i: nat)
    requires i < |s.calls| && Unfinished(s.calls[i]) && (s.calls[i].phase.Queued? ==> !s.locked)
    ensures Enabled(s, NextOf(s, i)) && !NextOf(s, i).Invoke?
  {
  }

  /** Steps that a call takes at most, for each attempt it may still start and in the one it is in. */
  function Remaining(maxRetry: nat, l: Invocation): nat {
    8 * (if l.attempts <= maxRetry then maxRetry + 1 - l.attempts else 0)
    + match l.phase
      case Queued => 2
      case Locked => 9
      case Connected => 8
      case Began => 7
      case Executed(_) => 6
      case Caught => 5
      case Unlocking(_) => 4
      case Judging(_) => 3
      case Done(_) => 1
      case Finished(_) => 0
  }

  lemma RemainingDrops(s: State, step: Step)
    requires Enabled(s, step) && !step.Invoke? && AttemptsOk(s.calls[step.id], s.maxRetry)
    ensures Remaining(s.maxRetry, InvocationAfter(s, step)) < Remaining(s.maxRetry, s.calls[step.id])
  {
  }

  function Work(maxRetry: nat, calls: seq<Invocation>): nat {
    Sum(calls, (l: Invocation) => Remaining(maxRetry, l))
  }

  lemma WorkDrops(s: State, step: Step)
    requires Enabled(s, step) && AttemptsInv(s)
    ensures var before, after := Work(s.maxRetry, s.calls), Work(s.maxRetry, Next(s, step).calls);
            if step.Invoke? then after == before + 8 * (s.maxRetry + 1) + 2 else after < before
  {
    var maxRetry := s.maxRetry;
    if step.Invoke? {
      SumAppend(s.calls, Called(step.op), (l: Invocation) => Remaining(maxRetry, l));
    } else {
      assert s.calls[step.id] in s.calls;
      RemainingDrops(s, step);
      SumUpdate(s.calls, step.id, InvocationAfter(s, step), (l: Invocation) => Remaining(maxRetry, l));
    }
  }

  /** What the calls of a run may cost: 8 steps for each attempt and three more, for each of them. */
  function Budget(maxRetry: nat, calls: nat): nat {
    if calls == 0 then 0 else Budget(maxRetry, calls - 1) + 8 * (maxRetry + 1) + 3
  }

  lemma {:induction false} BudgetIsProduct(maxRetry: nat, calls: nat)
    ensures Budget(maxRetry, calls) == calls * (8 * (maxRetry + 1) + 3)
  {
    if calls > 0 {
      BudgetIsProduct(maxRetry, calls - 1);
    }
  }

  lemma BudgetPaysStep(s: State, step: Step)
    requires Enabled(s, step) && AttemptsInv(s)
    ensures var s' := Next(s, step);
            1 + Work(s.maxRetry, s'.calls) + Budget(s.maxRetry, |s.calls|)
            <= Work(s.maxRetry, s.calls) + Budget(s.maxRetry, |s'.calls|)
  {
    WorkDrops(s, step);
    assert |Next(s, step).calls| == if step.Invoke? then |s.calls| + 1 else |s.calls|;
  }

  lemma {:induction false} WorkIsBudgeted(
    maxRetry: nat, table: Table, first: FactoryOutcome, steps: seq<Step>, t: Trace)
    requires Run(maxRetry, table, first, steps, t)
    ensures |steps| + Work(maxRetry, t.state.calls) <= Budget(maxRetry, |t.state.calls|)
    decreases |steps|
  {
    if steps != [] {
      var n := |steps| - 1;
      var m := Exec(Start(maxRetry, table, first), steps[..n]).value;
      WorkIsBudgeted(maxRetry, table, first, steps[..n], m);
      RunAttempts(maxRetry, table, first, steps[..n], m);
      BudgetPaysStep(m.state, steps[n]);
    }
  }

  /** Every run is finite: each call takes at most 8 steps for each attempt and three more, in any interleaving. */
  lemma RunsAreBounded(maxRetry: nat, table: Table, first: FactoryOutcome, steps: seq<Step>, t: Trace)
    requires Run(maxRetry, table, first, steps, t)
    ensures |steps| <= |t.state.calls| * (8 * (maxRetry + 1) + 3)
  {
    WorkIsBudgeted(maxRetry, table, first, steps, t);
    BudgetIsProduct(maxRetry, |t.state.calls|);
  }

  // ---------- linearizability ----------

  /** Linearizability: the log is a legal sequential execution that respects real time and ends in the table. */
  lemma RepositoryLinearizable(maxRetry: nat, table: Table, first: FactoryOutcome, steps: seq<Step>, t: Trace)
    requires Run(maxRetry, table, first, steps, t)
    ensures Linearizes(t.history, t.log)
    ensures Replay(table, t.log) == Some(t.state.table)
  {
    RunInv(maxRetry, table, first, steps, t);
    ConsistentLinearizes(Ops(t.state.calls), Stages(t.state.calls), t.history, t.log);
  }

  /** `InMemory` is what the in-memory repository's own methods do. */
  method OnInMemoryRepo(repo: InMemoryRepo, op: Op) returns (reply: Reply)
    requires repo.Valid()
    modifies repo
    ensures repo.Valid() && (repo.data, reply) == InMemory(old(repo.data), op)
  {
    match op {
      case Store(e) =>
        repo.Store(e);
        reply := Stored;
      case Retrieve(id) =>
        var row := repo.Retrieve(id);
        reply := Found(row);
    }
  }

  lemma ApplyAsInMemory(table: Table, e: Logged)
    requires Apply(table, e.arg, e.env, e.res).Some?
    ensures var (table', reply) := InMemory(table, e.arg);
            Apply(table, e.arg, e.env, e.res) == Some(if WentThrough(e) then table' else table)
            && (WentThrough(e) ==> reply == e.res || e.res.Threw?)
  {
  }

  lemma InMemoryRunSnoc(table: Table, log: seq<Logged>, e: Logged)
    requires InMemoryRun(table, log).Some?
    ensures var (table', reply) := InMemory(InMemoryRun(table, log).value, e.arg);
            InMemoryRun(table, log + [e]) == if reply == e.res || e.res.Threw? then Some(table') else None
  {
    assert (log + [e])[..|log|] == log;
  }

  /** The calls that returned or took effect are answered as the in-memory repository answers them. */
  lemma {:induction false} SameAsInMemory(table: Table, log: seq<Logged>)
    requires Replay(table, log).Some?
    ensures InMemoryRun(table, Effective(log)) == Replay(table, log)
  {
    if log != [] {
      var n := |log| - 1;
      SameAsInMemory(table, log[..n]);
      ApplyAsInMemory(Replay(table, log[..n]).value, log[n]);
      if WentThrough(log[n]) {
        InMemoryRunSnoc(table, Effective(log[..n]), log[n]);
      } else {
        assert Effective(log[..n]) + [] == Effective(log[..n]);
      }
    }
  }

  lemma FoldSnoc(table: Table, es: seq<Entity>, e: Entity)
    ensures Fold(table, es + [e]) == Upsert(Fold(table, es), e)
  {
    assert (es + [e])[..|es|] == es;
  }

  lemma AppliedUpserts(table: Table, e: Logged)
    requires Apply(table, e.arg, e.env, e.res).Some?
    ensures e.env.Applied? ==> e.arg.Store?
    ensures Apply(table, e.arg, e.env, e.res) == Some(if e.env.Applied? then Upsert(table, e.arg.e) else table)
  {
  }

  /** The table is the fold of the committed upserts in log order. */
  lemma {:induction false} TableIsFold(table: Table, log: seq<Logged>)
    requires Replay(table, log).Some?
    ensures Replay(table, log) == Some(Fold(table, Upserts(log)))
  {
    if log != [] {
      var n := |log| - 1;
      TableIsFold(table, log[..n]);
      AppliedUpserts(Replay(table, log[..n]).value, log[n]);
      if log[n].env.Applied? {
        FoldSnoc(table, Upserts(log[..n]), log[n].arg.e);
      } else {
        assert Upserts(log[..n]) + [] == Upserts(log[..n]);
      }
    }
  }

  /**
   Refinement: in every run the table is the fold of the committed upserts in the order of the mutex, and through the
   repository port the calls that returned, with the stores that threw after they were committed, behave as on the
   in-memory repository.
   */
  lemma RefinesInMemoryRepo(maxRetry: nat, table: Table, first: FactoryOutcome, steps: seq<Step>, t: Trace)
    requires Run(maxRetry, table, first, steps, t)
    ensures t.state.table == Fold(table, Upserts(t.log))
    ensures InMemoryRun(table, Effective(t.log)) == Some(t.state.table)
    ensures Linearizes(t.history, t.log)
  {
    RepositoryLinearizable(maxRetry, table, first, steps, t);
    SameAsInMemory(table, t.log);
    TableIsFold(table, t.log);
  }

  /** The places in the log at which an upsert of call `i` took effect. */
  ghost function Commits(log: seq<Logged>, i: nat): set<int> {
    set p | 0 <= p < |log| && log[p].id == i && log[p].env.Applied?
  }

  lemma {:induction false} EffectFitsReply(table: Table, log: seq<Logged>, p: nat)
    requires Replay(table, log).Some? && p < |log|
    ensures log[p].res.Stored? ==> log[p].env.Applied?
    ensures log[p].res.Found? || log[p].res.GaveUp? ==> log[p].env.NoEffect?
    ensures log[p].env.Applied? ==> log[p].arg.Store?
  {
    if p < |log| - 1 {
      EffectFitsReply(table, log[..|log| - 1], p);
    }
  }

  ghost predicate ThrewButCommitted(log: seq<Logged>, i: nat) {
    exists e :: e in log && e.id == i && e.res.Threw? && e.env.Applied?
  }

  /** A call is logged as one that threw after it was committed exactly when its commit failed in doubt. */
  lemma {:induction false} CommittedInDoubt(start: Trace, steps: seq<Step>, t: Trace, i: nat)
    requires Exec(start, steps) == Some(t) && start.log == []
    ensures ThrewButCommitted(t.log, i) <==> Fail(i, true) in steps
    decreases |steps|
  {
    if steps != [] {
      var n := |steps| - 1;
      var m := Exec(start, steps[..n]).value;
      CommittedInDoubt(start, steps[..n], m, i);
      var c := Committing(m.state, steps[n]);
      assert t.log == m.log + c;
      assert ThrewButCommitted(c, i) <==> steps[n] == Fail(i, true) by {
        if steps[n] == Fail(i, true) {
          assert c[0] in c;
        }
      }
      assert ThrewButCommitted(t.log, i) <==> ThrewButCommitted(m.log, i) || ThrewButCommitted(c, i);
      assert steps == steps[..n] + [steps[n]];
    }
  }

  /**
   A finished call committed exactly once when it is a `Store` that returned, and never when it gave up or is a
   `Retrieve`. One that threw committed once when its commit failed in doubt with the upsert visible, and else never.
   */
  lemma StoreCommitsOnce(maxRetry: nat, table: Table, first: FactoryOutcome, steps: seq<Step>, t: Trace, i: nat)
    requires Run(maxRetry, table, first, steps, t)
    requires i < |t.state.calls| && t.state.calls[i].phase.Finished?
    ensures var reply, n := t.state.calls[i].phase.reply, |Commits(t.log, i)|;
            && (reply.Stored? ==> n == 1)
            && (reply.Threw? ==> n == if Fail(i, true) in steps then 1 else 0)
            && (reply.GaveUp? || t.state.calls[i].op.Retrieve? ==> n == 0)
  {
    RunInv(maxRetry, table, first, steps, t);
    CommittedInDoubt(Start(maxRetry, table, first), steps, t, i);
    var r := t.state.calls[i].phase.reply;
    var p := OnlyEntry(t, i);
    EffectFitsReply(table, t.log, p);
    assert Commits(t.log, i) == if t.log[p].env.Applied? then {p} else {};
  }

  /** The one entry of a finished call in the log. */
  lemma OnlyEntry(t: Trace, i: nat) returns (p: nat)
    requires HistoryInv(t) && i < |t.state.calls| && t.state.calls[i].phase.Finished?
    ensures p < |t.log| && t.log[p].arg == t.state.calls[i].op && t.log[p].res == t.state.calls[i].phase.reply
    ensures forall q :: 0 <= q < |t.log| ==> (t.log[q].id == i <==> q == p)
  {
    assert Stages(t.state.calls)[i] == Returned(t.state.calls[i].phase.reply);
    assert Answered(t.log, i, t.state.calls[i].phase.reply);
    p :| At(t.log, p, i) && t.log[p].res == t.state.calls[i].phase.reply;
    assert t.log[p].arg == Ops(t.state.calls)[i];
    forall q | 0 <= q < |t.log| && t.log[q].id == i ensures q == p {
      assert At(t.log, q, i);
    }
  }

  lemma ExecSnoc(t: Trace, steps: seq<Step>, step: Step)
    requires Exec(t, steps).Some? && Enabled(Exec(t, steps).value.state, step)
    ensures Exec(t, steps + [step]) == Some(After(Exec(t, steps).value, step))
  {
    assert (steps + [step])[..|steps|] == steps;
  }

  lemma ExecOne(start: Trace, step: Step)
    requires Enabled(start.state, step)
    ensures Exec(start, [step]) == Some(After(start, step))
  {
    assert [step][..0] == [];
    assert Exec(start, []) == Some(start);
  }

  /** One more step of a run. */
  lemma Advance(start: Trace, steps: seq<Step>, t: Trace, step: Step) returns (steps': seq<Step>, t': Trace)
    requires Exec(start, steps) == Some(t) && Enabled(t.state, step)
    ensures Exec(start, steps') == Some(t') && t' == After(t, step)
  {
    ExecSnoc(start, steps, step);
    steps', t' := steps + [step], After(t, step);
  }

  lemma StoreIsExecuted(maxRetry: nat, table: Table, e: Entity) returns (steps: seq<Step>, t: Trace)
    ensures Run(maxRetry, table, NewConnection, steps, t)
    ensures t.state.calls == [Invocation(Store(e), 1, 0, [], Executed(None))]
    ensures t.state.connection == Some(0) && t.state.table == table
  {
    var start := Start(maxRetry, table, NewConnection);
    ExecOne(start, Invoke(Store(e)));
    steps, t := [Invoke(Store(e))], After(start, Invoke(Store(e)));
    assert t.state.calls == [Called(Store(e))];
    steps, t := Advance(start, steps, t, Lock(0));
    assert t.state.calls == [Invocation(Store(e), 1, 0, [], Locked)];
    steps, t := Advance(start, steps, t, Reuse(0));
    assert t.state.calls == [Invocation(Store(e), 1, 0, [], Connected)];
    steps, t := Advance(start, steps, t, Begin(0));
    assert t.state.calls == [Invocation(Store(e), 1, 0, [], Began)];
    steps, t := Advance(start, steps, t, Execute(0));
  }

  /** A `Store` that threw can have committed, whatever the table and the entity: its commit fails in doubt. */
  lemma StoreThatThrewCommitted(maxRetry: nat, table: Table, e: Entity) returns (steps: seq<Step>, t: Trace)
    ensures Run(maxRetry, table, NewConnection, steps, t)
    ensures |t.state.calls| == 1 && t.state.calls[0].op == Store(e) && t.state.calls[0].phase == Finished(Threw)
    ensures t.state.table == Upsert(table, e)
  {
    var start := Start(maxRetry, table, NewConnection);
    steps, t := StoreIsExecuted(maxRetry, table, e);
    steps, t := Advance(start, steps, t, Fail(0, true));
    steps, t := Advance(start, steps, t, Unlock(0));
    steps, t := Advance(start, steps, t, Conclude(0));
    steps, t := Advance(start, steps, t, Deliver(0));
  }

  /** Call `i` is in progress after the first `k` steps, and the table then holds `row` for `id`. */
  ghost predicate ReadAt(start: Trace, steps: seq<Step>, k: nat, i: nat, id: string, row: Option<Entity>) {
    && k <= |steps|
    && Exec(start, steps[..k]).Some?
    && var s := Exec(start, steps[..k]).value.state;
       i < |s.calls| && !s.calls[i].phase.Finished? && row == Row(s.table, id)
  }

  /** A `Retrieve` that returned read its row at some moment between its call and its return. */
  lemma {:induction false} RetrieveReadsDuringCall(
    maxRetry: nat, table: Table, first: FactoryOutcome, steps: seq<Step>, t: Trace, i: nat, row: Option<Entity>)
    returns (k: nat)
    requires Run(maxRetry, table, first, steps, t)
    requires i < |t.state.calls| && t.state.calls[i].op.Retrieve?
    requires !StageOf(t.state.calls[i]).Pending? && StageOf(t.state.calls[i]).res == Found(row)
    ensures ReadAt(Start(maxRetry, table, first), steps, k, i, t.state.calls[i].op.id, row)
    decreases |steps|
  {
    var n := |steps| - 1;
    var start := Start(maxRetry, table, first);
    var m := Exec(start, steps[..n]).value;
    if i < |m.state.calls| && !StageOf(m.state.calls[i]).Pending? {
      StageStays(m.state, steps[n], i);
      k := RetrieveReadsDuringCall(maxRetry, table, first, steps[..n], m, i, row);
      assert steps[..n][..k] == steps[..k];
    } else {
      RunInv(maxRetry, table, first, steps[..n], m);
      FoundOnlyByCompleting(m.state, steps[n], i, row);
      assert m.state.calls[i].phase == Executed(row);
      k := n;
      assert row == Row(m.state.table, m.state.calls[i].op.id) by {
        assert Knows(m.state.calls[i], m.state.connection, m.state.tally, m.state.table);
      }
    }
  }

  lemma FoundOnlyByCompleting(s: State, step: Step, i: nat, row: Option<Entity>)
    requires Enabled(s, step) && i < |Next(s, step).calls| && (i < |s.calls| ==> StageOf(s.calls[i]).Pending?)
    requires var stage := StageOf(Next(s, step).calls[i]);
             stage == Committed(Found(row)) || stage == Stage.Returned(Found(row))
    requires forall l :: l in s.calls ==> AttemptsOk(l, s.maxRetry)
    ensures step == Complete(i) && i < |s.calls| && s.calls[i].phase == Executed(row) && s.calls[i].op.Retrieve?
    ensures Next(s, step).calls[i].op == s.calls[i].op
  {
  }

  lemma StageStays(s: State, step: Step, i: nat)
    requires Enabled(s, step) && i < |s.calls| && !StageOf(s.calls[i]).Pending?
    ensures var l := Next(s, step).calls[i];
            l.op == s.calls[i].op && !StageOf(l).Pending? && StageOf(l).res == StageOf(s.calls[i]).res
  {
  }
}
