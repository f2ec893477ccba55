/** What every run of the concurrent key cache keeps true, and the theorems about whole runs. */
module KeyCacheProofs {
  import opened Wrappers
  import opened JwkSet
  import opened KeyCache
  import opened Linearizability
  import opened Counting
  import opened KeyCacheMachine

  // ---------- the lock ----------

  /** The reader count and writer flag agree with who is inside, and a writer excludes readers. */
  ghost predicate LockInv(s: State) {
    && s.readers == Count(s.lookups, HoldsShared)
    && Count(s.lookups, HoldsExclusive) == (if s.writer then 1 else 0)
    && (s.writer ==> s.readers == 0)
  }

  /** Locks are taken and given back by exactly the four locking steps. */
  lemma HoldsAfter(s: State, step: Step)
    requires Enabled(s, step) && !step.Invoke?
    ensures var l, l' := s.lookups[step.id], Lookup(s.lookups[step.id].kid, PhaseAfter(s, step));
            && HoldsShared(l') == (step.LockShared? || (HoldsShared(l) && !step.UnlockShared?))
            && HoldsExclusive(l') == (step.LockExclusive? || (HoldsExclusive(l) && !step.UnlockExclusive?))
            && (step.LockShared? || step.LockExclusive? ==> !HoldsShared(l) && !HoldsExclusive(l))
            && (step.UnlockShared? ==> HoldsShared(l))
            && (step.UnlockExclusive? ==> HoldsExclusive(l))
  {
  }

  lemma LockInvStep(s: State, step: Step)
    requires LockInv(s) && Enabled(s, step)
    ensures LockInv(Next(s, step))
  {
    if step.Invoke? {
      CountAppend(s.lookups, Lookup(step.kid, Entering), HoldsShared);
      CountAppend(s.lookups, Lookup(step.kid, Entering), HoldsExclusive);
    } else {
      HoldsAfter(s, step);
      CountsMove(s.lookups, step.id, Lookup(s.lookups[step.id].kid, PhaseAfter(s, step)));
    }
  }

  lemma CountsMove(ls: seq<Lookup>, i: nat, l: Lookup)
    requires i < |ls|
    ensures Count(ls[i := l], HoldsShared) + (if HoldsShared(ls[i]) then 1 else 0)
            == Count(ls, HoldsShared) + if HoldsShared(l) then 1 else 0
    ensures Count(ls[i := l], HoldsExclusive) + (if HoldsExclusive(ls[i]) then 1 else 0)
            == Count(ls, HoldsExclusive) + if HoldsExclusive(l) then 1 else 0
    ensures HoldsShared(ls[i]) ==> Count(ls, HoldsShared) >= 1
    ensures HoldsExclusive(ls[i]) ==> Count(ls, HoldsExclusive) >= 1
  {
    CountUpdate(ls, i, l, HoldsShared);
    CountUpdate(ls, i, l, HoldsExclusive);
    if HoldsShared(ls[i]) {
      CountPositive(ls, i, HoldsShared);
    }
    if HoldsExclusive(ls[i]) {
      CountPositive(ls, i, HoldsExclusive);
    }
  }

  /** Whoever holds the exclusive lock is alone inside. */
  lemma ExclusiveAlone(s: State, i: nat, j: nat)
    requires LockInv(s) && i < |s.lookups| && j < |s.lookups| && i != j && HoldsExclusive(s.lookups[i])
    ensures s.writer && !HoldsShared(s.lookups[j]) && !HoldsExclusive(s.lookups[j])
  {
    CountPositive(s.lookups, i, HoldsExclusive);
    if HoldsShared(s.lookups[j]) {
      CountPositive(s.lookups, j, HoldsShared);
    }
    if HoldsExclusive(s.lookups[j]) {
      CountTwo(s.lookups, i, j, HoldsExclusive);
    }
  }

  // ---------- the map ----------

  /** The last successful key set, or `first` when there is none. */
  function LastGood(first: Keys, replies: seq<Reply>): Keys {
    if replies == [] then first
    else if replies[|replies| - 1].fetched.Some? then replies[|replies| - 1].fetched.value
    else LastGood(first, replies[..|replies| - 1])
  }

  /** Entries of `target` outside `todo`. */
  ghost predicate PartOf(data: Keys, target: Keys, todo: set<string>) {
    && todo <= target.Keys
    && data.Keys == target.Keys - todo
    && forall k :: k in data ==> data[k] == target[k]
  }

  /**
   What a lookup inside a lock sees: `data` is the map in memory, `d` the map of the sequential execution so far and
   `good` the last successful key set.
   */
  ghost predicate Sees(l: Lookup, throwing: bool, data: Keys, d: Keys, good: Keys) {
    match l.phase
    case Fetching => data == d == good && l.kid !in d
    case Replacing(target, todo) => l.kid !in d && PartOf(data, target, todo) && target == good
    case LookingAgain(fetched) => l.kid !in d && data == Refreshed(d, fetched) == good && (fetched.None? ==> !throwing)
    case _ => HoldsShared(l) || HoldsExclusive(l) ==> data == d == good
  }

  ghost predicate DataInv(t: Trace, first: Keys) {
    var s := t.state;
    && Replay(first, t.log, s.throwing).Some?
    && var d := Replay(first, t.log, s.throwing).value;
       var good := LastGood(first, t.replies);
       && (!s.writer ==> s.data == d == good)
       && forall i :: 0 <= i < |s.lookups| ==> Sees(s.lookups[i], s.throwing, s.data, d, good)
  }

  lemma ReplaySnoc(first: Keys, log: seq<Logged>, e: Logged, throwing: bool)
    requires Replay(first, log, throwing).Some?
    ensures var d := Replay(first, log, throwing).value;
            var (d', o) := AtomicLookup(d, e.arg, if e.env.FromCache? then None else e.env.fetched, throwing);
            Replay(first, log + [e], throwing)
            == if o == e.res && (e.env.FromCache? <==> e.arg in d) then Some(d') else None
  {
    assert (log + [e])[..|log|] == log;
  }

  lemma LastGoodSnoc(first: Keys, replies: seq<Reply>, r: Reply)
    ensures LastGood(first, replies + [r]) == if r.fetched.Some? then r.fetched.value else LastGood(first, replies)
  {
    assert (replies + [r])[..|replies|] == replies;
  }

  /** The sequential map and the last successful key set move exactly with the steps that should move them. */
  lemma StepEffect(t: Trace, step: Step, first: Keys)
    requires LockInv(t.state) && DataInv(t, first) && Enabled(t.state, step)
    ensures var s, t' := t.state, After(t, step);
            var d, good := Replay(first, t.log, s.throwing).value, LastGood(first, t.replies);
            && Replay(first, t'.log, s.throwing)
               == Some(if step.FindAgain? then Refreshed(d, s.lookups[step.id].phase.fetched) else d)
            && LastGood(first, t'.replies) == if step.CallProvider? then Refreshed(good, Fetch(step.response)) else good
  {
    LogEffect(t, step, first);
    if step.CallProvider? {
      LastGoodSnoc(first, t.replies, Reply(step.id, Fetch(step.response)));
    } else {
      assert t.replies + Replying(step) == t.replies;
    }
  }

  lemma LogEffect(t: Trace, step: Step, first: Keys)
    requires LockInv(t.state) && DataInv(t, first) && Enabled(t.state, step)
    ensures var s, c := t.state, Committing(t.state, step);
            var d := Replay(first, t.log, s.throwing).value;
            Replay(first, t.log + c, s.throwing)
            == Some(if step.FindAgain? then Refreshed(d, s.lookups[step.id].phase.fetched) else d)
  {
    var s, c := t.state, Committing(t.state, step);
    var d, good := Replay(first, t.log, s.throwing).value, LastGood(first, t.replies);
    if c == [] {
      assert t.log + c == t.log;
    } else {
      assert c == [c[0]];
      assert Sees(s.lookups[step.id], s.throwing, s.data, d, good);
      LoggedIsLegal(s, step, d, good);
      ReplaySnoc(first, t.log, c[0], s.throwing);
    }
  }

  /** What a step logs is what an atomic lookup on the sequential map does. */
  lemma LoggedIsLegal(s: State, step: Step, d: Keys, good: Keys)
    requires Enabled(s, step) && Committing(s, step) != []
    requires Sees(s.lookups[step.id], s.throwing, s.data, d, good)
    ensures var e := Committing(s, step)[0];
            AtomicLookup(d, e.arg, if e.env.FromCache? then None else e.env.fetched, s.throwing)
            == (if step.FindAgain? then Refreshed(d, s.lookups[step.id].phase.fetched) else d, e.res)
            && (e.env.FromCache? <==> e.arg in d)
  {
  }

  /** The acting lookup sees after its step what its new phase promises. */
  lemma SeesActing(s: State, step: Step, d: Keys, good: Keys)
    requires Enabled(s, step) && !step.Invoke?
    requires Sees(s.lookups[step.id], s.throwing, s.data, d, good)
    requires !s.writer ==> s.data == d == good
    ensures var l := s.lookups[step.id];
            Sees(Lookup(l.kid, PhaseAfter(s, step)), s.throwing, DataAfter(s, step),
                 if step.FindAgain? then Refreshed(d, l.phase.fetched) else d,
                 if step.CallProvider? then Refreshed(good, Fetch(step.response)) else good)
  {
  }

  lemma DataInvStep(t: Trace, step: Step, first: Keys)
    requires LockInv(t.state) && DataInv(t, first) && Enabled(t.state, step)
    ensures DataInv(After(t, step), first)
  {
    var t' := After(t, step);
    StepEffect(t, step, first);
    FreeAfter(t, step, first);
    forall j | 0 <= j < |t'.state.lookups|
      ensures Sees(t'.state.lookups[j], t'.state.throwing, t'.state.data,
                   Replay(first, t'.log, t.state.throwing).value, LastGood(first, t'.replies))
    {
      if step.Invoke? {
        NewcomerSees(t, step, first, j);
      } else if j == step.id {
        ActingSees(t, step, first);
      } else {
        SeesOther(t, step, first, j);
      }
    }
  }

  lemma NewcomerSees(t: Trace, step: Step, first: Keys, j: nat)
    requires LockInv(t.state) && DataInv(t, first) && step.Invoke? && j < |After(t, step).state.lookups|
    ensures var t' := After(t, step);
            Sees(t'.state.lookups[j], t.state.throwing, t'.state.data,
                 Replay(first, t.log, t.state.throwing).value, LastGood(first, t.replies))
  {
  }

  /** The acting lookup sees after its step what its new phase promises. */
  lemma ActingSees(t: Trace, step: Step, first: Keys)
    requires LockInv(t.state) && DataInv(t, first) && Enabled(t.state, step) && !step.Invoke?
    ensures var t' := After(t, step);
            && Replay(first, t'.log, t.state.throwing).Some?
            && Sees(t'.state.lookups[step.id], t.state.throwing, t'.state.data,
                    Replay(first, t'.log, t.state.throwing).value, LastGood(first, t'.replies))
  {
    var s := t.state;
    StepEffect(t, step, first);
    assert Sees(s.lookups[step.id], s.throwing, s.data,
                Replay(first, t.log, s.throwing).value, LastGood(first, t.replies));
    SeesActing(s, step, Replay(first, t.log, s.throwing).value, LastGood(first, t.replies));
  }

  /** With no writer inside after the step, memory and both ideal maps agree. */
  lemma FreeAfter(t: Trace, step: Step, first: Keys)
    requires LockInv(t.state) && DataInv(t, first) && Enabled(t.state, step)
    ensures var t' := After(t, step);
            && Replay(first, t'.log, t.state.throwing).Some?
            && (!t'.state.writer ==>
                  t'.state.data == Replay(first, t'.log, t.state.throwing).value == LastGood(first, t'.replies))
  {
    var s := t.state;
    StepEffect(t, step, first);
    if !step.Invoke? {
      HoldsAfter(s, step);
      assert Sees(s.lookups[step.id], s.throwing, s.data,
                  Replay(first, t.log, s.throwing).value, LastGood(first, t.replies));
      if HoldsExclusive(s.lookups[step.id]) {
        CountPositive(s.lookups, step.id, HoldsExclusive);
      }
    }
  }

  /** The other lookups see no change, or are outside both locks. */
  lemma SeesOther(t: Trace, step: Step, first: Keys, j: nat)
    requires LockInv(t.state) && DataInv(t, first) && Enabled(t.state, step) && !step.Invoke?
    requires j < |t.state.lookups| && j != step.id
    ensures var t' := After(t, step);
            && Replay(first, t'.log, t.state.throwing).Some?
            && Sees(t.state.lookups[j], t.state.throwing, t'.state.data,
                    Replay(first, t'.log, t.state.throwing).value, LastGood(first, t'.replies))
  {
    var s := t.state;
    StepEffect(t, step, first);
    assert Sees(s.lookups[j], s.throwing, s.data, Replay(first, t.log, s.throwing).value, LastGood(first, t.replies));
    if step.CallProvider? || step.CopyEntry? || step.FindAgain? {
      ExclusiveAlone(s, step.id, j);
    } else {
      assert DataAfter(s, step) == s.data;
    }
  }

  // ---------- the refreshes ----------

  /** The provider replies that the log's refreshes stand for, in the order of the log. */
  function Refreshes(log: seq<Logged>): seq<Reply> {
    if log == [] then []
    else
      var e := log[|log| - 1];
      Refreshes(log[..|log| - 1]) + if e.env.FromRefresh? then [Reply(e.id, e.env.fetched)] else []
  }

  lemma RefreshesSnoc(log: seq<Logged>, e: Logged)
    ensures Refreshes(log + [e]) == Refreshes(log) + if e.env.FromRefresh? then [Reply(e.id, e.env.fetched)] else []
  {
    assert (log + [e])[..|log|] == log;
  }

  /** The reply that a lookup has received and not logged yet. */
  function Owed(l: Lookup, i: nat): seq<Reply> {
    match l.phase
    case Replacing(target, _) => [Reply(i, Some(target))]
    case LookingAgain(fetched) => [Reply(i, fetched)]
    case _ => []
  }

  /** The replies are the refreshes and what the lookup inside the exclusive lock still owes. */
  ghost predicate Accounted(s: State, replies: seq<Reply>, refreshes: seq<Reply>) {
    && (!s.writer ==> replies == refreshes)
    && forall i :: 0 <= i < |s.lookups| && HoldsExclusive(s.lookups[i]) ==> replies == refreshes + Owed(s.lookups[i], i)
  }

  ghost predicate RefreshInv(t: Trace) {
    Accounted(t.state, t.replies, Refreshes(t.log))
  }

  /** A step logs what the acting lookup no longer owes, and owes what the provider has just replied. */
  lemma OwedAfter(s: State, step: Step)
    requires Enabled(s, step) && !step.Invoke?
    ensures var i, l' := step.id, Lookup(s.lookups[step.id].kid, PhaseAfter(s, step));
            Owed(s.lookups[i], i) + Replying(step) == Refreshes(Committing(s, step)) + Owed(l', i)
  {
    var c := Committing(s, step);
    if c != [] {
      assert c == [c[0]] && c[..0] == [];
    }
  }

  lemma RefreshesConcat(log: seq<Logged>, c: seq<Logged>)
    requires |c| <= 1
    ensures Refreshes(log + c) == Refreshes(log) + Refreshes(c)
  {
    if c == [] {
      assert log + c == log;
    } else {
      assert c == [c[0]] && c[..0] == [];
      RefreshesSnoc(log, c[0]);
    }
  }

  /** Steps outside the exclusive lock neither call the provider nor log a refresh. */
  lemma OutsideNoRefresh(s: State, step: Step)
    requires Enabled(s, step) && (step.Invoke? || !HoldsExclusive(s.lookups[step.id]))
    ensures Replying(step) == [] && Refreshes(Committing(s, step)) == []
  {
    var c := Committing(s, step);
    if c != [] {
      assert c == [c[0]] && c[..0] == [];
    }
  }

  lemma RefreshInvStep(t: Trace, step: Step)
    requires LockInv(t.state) && RefreshInv(t) && Enabled(t.state, step)
    ensures RefreshInv(After(t, step))
  {
    var s := t.state;
    RefreshesConcat(t.log, Committing(s, step));
    if step.Invoke? || !HoldsExclusive(s.lookups[step.id]) {
      OutsideNoRefresh(s, step);
      AccountedOutside(s, step, t.replies, Refreshes(t.log));
      assert t.replies + [] == t.replies && Refreshes(t.log) + [] == Refreshes(t.log);
    } else {
      OwedAfter(s, step);
      AccountedInside(s, step, t.replies, Refreshes(t.log), Refreshes(Committing(s, step)));
    }
  }

  lemma AccountedOutside(s: State, step: Step, replies: seq<Reply>, refreshes: seq<Reply>)
    requires Accounted(s, replies, refreshes) && Enabled(s, step)
    requires step.Invoke? || !HoldsExclusive(s.lookups[step.id])
    ensures Accounted(Next(s, step), replies, refreshes)
  {
    if !step.Invoke? {
      HoldsAfter(s, step);
    }
  }

  lemma AccountedInside(s: State, step: Step, replies: seq<Reply>, refreshes: seq<Reply>, logged: seq<Reply>)
    requires LockInv(s) && Accounted(s, replies, refreshes) && Enabled(s, step)
    requires !step.Invoke? && HoldsExclusive(s.lookups[step.id])
    requires Owed(s.lookups[step.id], step.id) + Replying(step)
             == logged + Owed(Lookup(s.lookups[step.id].kid, PhaseAfter(s, step)), step.id)
    ensures Accounted(Next(s, step), replies + Replying(step), refreshes + logged)
  {
    var s', i := Next(s, step), step.id;
    HoldsAfter(s, step);
    CountPositive(s.lookups, i, HoldsExclusive);
    assert replies + Replying(step) == refreshes + logged + Owed(s'.lookups[i], i) by {
      assert replies + Replying(step) == refreshes + (Owed(s.lookups[i], i) + Replying(step));
    }
    forall j | 0 <= j < |s'.lookups| && j != i ensures !HoldsExclusive(s'.lookups[j]) {
      ExclusiveAlone(s, i, j);
    }
  }

  // ---------- the history ----------

  function Kids(lookups: seq<Lookup>): seq<string> {
    seq(|lookups|, i requires 0 <= i < |lookups| => lookups[i].kid)
  }

  function Stages(lookups: seq<Lookup>): seq<Stage<Outcome>> {
    seq(|lookups|, i requires 0 <= i < |lookups| => StageOf(lookups[i]))
  }

  ghost predicate HistoryInv(t: Trace) {
    Consistent(Kids(t.state.lookups), Stages(t.state.lookups), t.history, t.log)
  }

  /** A lookup is logged with the step that fixes its outcome, and only then. */
  lemma CommitsOnce(s: State, step: Step)
    requires Enabled(s, step) && !step.Invoke?
    ensures var l, c := s.lookups[step.id], Committing(s, step);
            var l' := Lookup(l.kid, PhaseAfter(s, step));
            && (c == [] && !step.Deliver? ==> StageOf(l') == StageOf(l))
            && (step.Deliver? ==> c == [] && StageOf(l).Committed? && StageOf(l') == Returned(StageOf(l).res))
            && (c != [] ==> !step.Deliver? && c == [Entry(step.id, l.kid, c[0].env, c[0].res)]
                            && StageOf(l).Pending? && StageOf(l') == Committed(c[0].res))
  {
  }

  lemma HistoryInvStep(t: Trace, step: Step)
    requires HistoryInv(t) && Enabled(t.state, step)
    ensures HistoryInv(After(t, step))
  {
    var s := t.state;
    var kids, stages := Kids(s.lookups), Stages(s.lookups);
    if step.Invoke? {
      assert Kids(s.lookups + [Lookup(step.kid, Entering)]) == kids + [step.kid];
      assert Stages(s.lookups + [Lookup(step.kid, Entering)]) == stages + [Pending];
      OnCall(kids, stages, t.history, t.log, step.kid);
      assert t.log + [] == t.log;
    } else {
      var i := step.id;
      var l := Lookup(s.lookups[i].kid, PhaseAfter(s, step));
      CommitsOnce(s, step);
      HistoryMove(t, i, l, Committing(s, step), step.Deliver?);
    }
  }

  lemma HistoryMove(t: Trace, i: nat, l: Lookup, c: seq<Logged>, delivered: bool)
    requires HistoryInv(t) && i < |t.state.lookups| && l.kid == t.state.lookups[i].kid
    requires var st := StageOf(t.state.lookups[i]);
             && (c == [] && !delivered ==> StageOf(l) == st)
             && (delivered ==> c == [] && st.Committed? && StageOf(l) == Returned(st.res))
             && (c != [] ==>
                   && !delivered && c == [Entry(i, l.kid, c[0].env, c[0].res)]
                   && st.Pending? && StageOf(l) == Committed(c[0].res))
    ensures var ls := t.state.lookups[i := l];
            var h := if delivered then [Event.Return(i, StageOf(l).res)] else [];
            Consistent(Kids(ls), Stages(ls), t.history + h, t.log + c)
  {
    var kids, stages := Kids(t.state.lookups), Stages(t.state.lookups);
    assert Kids(t.state.lookups[i := l]) == kids;
    assert Stages(t.state.lookups[i := l]) == stages[i := StageOf(l)];
    if c != [] {
      OnCommit(kids, stages, t.history, t.log, i, c[0].env, c[0].res);
      assert t.history + [] == t.history;
    } else if delivered {
      OnReturn(kids, stages, t.history, t.log, i);
      assert t.log + c == t.log;
    } else {
      assert stages[i := stages[i]] == stages;
      assert t.history + [] == t.history && t.log + c == t.log;
    }
  }

  // ---------- all together ----------

  ghost predicate Inv(t: Trace, first: Keys) {
    LockInv(t.state) && DataInv(t, first) && RefreshInv(t) && HistoryInv(t)
  }

  lemma InvStart(first: Keys, throwing: bool)
    ensures Inv(Start(first, throwing), first)
  {
    DataStart(first, throwing);
    AccountedStart(Start(first, throwing).state);
    HistoryStart(Start(first, throwing));
  }

  lemma DataStart(first: Keys, throwing: bool)
    ensures LockInv(Start(first, throwing).state) && DataInv(Start(first, throwing), first)
  {
  }

  lemma AccountedStart(s: State)
    requires s.lookups == []
    ensures Accounted(s, [], Refreshes([]))
  {
  }

  lemma HistoryStart(t: Trace)
    requires t.state.lookups == [] && t.history == [] && t.log == []
    ensures HistoryInv(t)
  {
  }

  lemma {:induction false} InvExec(t: Trace, first: Keys, steps: seq<Step>, t': Trace)
    requires Inv(t, first) && Exec(t, steps) == Some(t')
    ensures Inv(t', first) && t'.state.throwing == t.state.throwing
    decreases |steps|
  {
    if steps != [] {
      var n := |steps| - 1;
      var m := Exec(t, steps[..n]).value;
      InvExec(t, first, steps[..n], m);
      LockInvStep(m.state, steps[n]);
      DataInvStep(m, steps[n], first);
      RefreshInvStep(m, steps[n]);
      HistoryInvStep(m, steps[n]);
    }
  }

  lemma RunInv(first: Response, throwing: bool, steps: seq<Step>, t: Trace)
    requires Run(first, throwing, steps, t)
    ensures Inv(t, Constructed(first, throwing).value) && t.state.throwing == throwing
  {
    var c := Constructed(first, throwing).value;
    InvStart(c, throwing);
    InvExec(Start(c, throwing), c, steps, t);
  }

  /**
   Linearizability: every run's history is explained by the log, which is a sequential execution of atomic lookups
   starting from the constructed cache, respects real time and includes the lookups that end in an exception. Its
   refreshes are the provider's replies, in order; only the last reply may not be in the log yet, while a writer is
   inside.
   */
  lemma Linearizable(first: Response, throwing: bool, steps: seq<Step>, t: Trace)
    requires Run(first, throwing, steps, t)
    ensures Linearizes(t.history, t.log)
    ensures Replay(Constructed(first, throwing).value, t.log, throwing).Some?
    ensures !t.state.writer ==> Replay(Constructed(first, throwing).value, t.log, throwing) == Some(t.state.data)
    ensures !t.state.writer ==> Refreshes(t.log) == t.replies
    ensures Refreshes(t.log) <= t.replies && |t.replies| <= |Refreshes(t.log)| + 1
  {
    RunInv(first, throwing, steps, t);
    if t.state.writer {
      var i := CountWitness(t.state.lookups, HoldsExclusive);
      assert t.replies == Refreshes(t.log) + Owed(t.state.lookups[i], i);
    }
    ConsistentLinearizes(Kids(t.state.lookups), Stages(t.state.lookups), t.history, t.log);
  }
}
