/** Safety, snapshot, accounting, coalescing and progress of the concurrent key cache, over all runs. */
module KeyCacheTheorems {
  import opened Wrappers
  import opened JwkSet
  import opened KeyCache
  import opened Counting
  import opened KeyCacheMachine
  import opened KeyCacheProofs
  import opened Linearizability

  // ---------- mutual exclusion and snapshots ----------

  /** About to look into the map. */
  predicate Looking(l: Lookup) {
    l.phase.Reading? || l.phase.Rechecking? || l.phase.LookingAgain?
  }

  /** A writer never coexists with readers or another writer. */
  lemma WriterExcludesAll(first: Response, throwing: bool, steps: seq<Step>, t: Trace, i: nat, j: nat)
    requires Run(first, throwing, steps, t)
    requires i < |t.state.lookups| && j < |t.state.lookups| && i != j
    requires HoldsExclusive(t.state.lookups[i])
    ensures !HoldsShared(t.state.lookups[j]) && !HoldsExclusive(t.state.lookups[j])
    ensures t.state.writer && t.state.readers == 0
  {
    RunInv(first, throwing, steps, t);
    ExclusiveAlone(t.state, i, j);
  }

  /**
   Snapshot: whenever no writer holds the lock, and for every lookup about to read, the map is exactly the last
   successful key set.
   */
  lemma Snapshot(first: Response, throwing: bool, steps: seq<Step>, t: Trace)
    requires Run(first, throwing, steps, t)
    ensures var good := LastGood(Constructed(first, throwing).value, t.replies);
            && (!t.state.writer ==> t.state.data == good)
            && (forall l :: l in t.state.lookups && Looking(l) ==> t.state.data == good)
  {
    RunInv(first, throwing, steps, t);
    var c := Constructed(first, throwing).value;
    forall l | l in t.state.lookups && Looking(l) ensures t.state.data == LastGood(c, t.replies) {
      var i :| 0 <= i < |t.state.lookups| && t.state.lookups[i] == l;
      assert Sees(t.state.lookups[i], t.state.throwing, t.state.data,
                  Replay(c, t.log, t.state.throwing).value, LastGood(c, t.replies));
    }
  }

  /** A key set that was once fetched is only ever replaced by a non-empty one. */
  lemma {:induction false} LastGoodStays(first: Keys, t: Trace, steps: seq<Step>, t': Trace)
    requires Exec(t, steps) == Some(t') && LastGood(first, t.replies) != map[]
    ensures LastGood(first, t'.replies) != map[]
    decreases |steps|
  {
    if steps != [] {
      var n := |steps| - 1;
      var m := Exec(t, steps[..n]).value;
      LastGoodStays(first, t, steps[..n], m);
      if steps[n].CallProvider? {
        LastGoodSnoc(first, m.replies, Reply(steps[n].id, Fetch(steps[n].response)));
      } else {
        assert t'.replies == m.replies;
      }
    }
  }

  lemma ExecSnoc(t: Trace, steps: seq<Step>, step: Step)
    ensures Exec(t, steps + [step]) == match Exec(t, steps)
                                       case None => None
                                       case Some(m) => if Enabled(m.state, step) then Some(After(m, step)) else None
  {
    assert (steps + [step])[..|steps|] == steps;
  }

  lemma {:induction false} ExecConcat(t: Trace, before: seq<Step>, m: Trace, after: seq<Step>)
    requires Exec(t, before) == Some(m)
    ensures Exec(t, before + after) == Exec(m, after)
    decreases |after|
  {
    if after == [] {
      assert before + after == before;
    } else {
      var init, last := after[..|after| - 1], after[|after| - 1];
      ExecConcat(t, before, m, init);
      ExecSnoc(t, before + init, last);
      ExecSnoc(m, init, last);
      assert after == init + [last] && before + after == before + init + [last];
    }
  }

  /**
   Between any two moments of a run: once a key set was fetched, by the constructor or by a later refresh, the last
   fetched key set is never empty again. So a cache that holds keys while no writer is inside holds keys at every later
   such moment and whenever a lookup looks into it.
   */
  lemma NeverEmptied(first: Response, throwing: bool, before: seq<Step>, t: Trace, after: seq<Step>, t': Trace)
    requires Run(first, throwing, before, t) && Exec(t, after) == Some(t')
    ensures var c := Constructed(first, throwing).value;
            LastGood(c, t.replies) != map[] ==> LastGood(c, t'.replies) != map[]
    ensures !t.state.writer && t.state.data != map[] ==>
              (!t'.state.writer || exists l :: l in t'.state.lookups && Looking(l)) ==> t'.state.data != map[]
  {
    var c := Constructed(first, throwing).value;
    ExecConcat(Start(c, throwing), before, t, after);
    Snapshot(first, throwing, before, t);
    Snapshot(first, throwing, before + after, t');
    if LastGood(c, t.replies) != map[] {
      LastGoodStays(c, t, after, t');
    }
  }

  // ---------- progress ----------

  predicate Unfinished(l: Lookup) {
    !l.phase.Finished?
  }

  /** The step that a lookup's phase asks for. */
  ghost function NextOf(l: Lookup, i: nat): Step
    requires Unfinished(l)
  {
    match l.phase
    case Entering => LockShared(i)
    case Reading => FindShared(i)
    case HaveRead(_) => UnlockShared(i)
    case Upgrading => LockExclusive(i)
    case Rechecking => Recheck(i)
    case Fetching => CallProvider(i, ProviderThrew)
    case Replacing(target, todo) =>
      if todo * target.Keys == {} then EndCopy(i) else var key: string :| key in todo * target.Keys; CopyEntry(i, key)
    case LookingAgain(_) => FindAgain(i)
    case Leaving(_) => UnlockExclusive(i)
    case Done(_) => Deliver(i)
  }

  /** Deadlock freedom: while some lookup is unfinished, one of the lookups in progress can take a step. */
  lemma Progress(first: Response, throwing: bool, steps: seq<Step>, t: Trace) returns (step: Step)
    requires Run(first, throwing, steps, t)
    requires exists l :: l in t.state.lookups && Unfinished(l)
    ensures Enabled(t.state, step) && !step.Invoke?
  {
    RunInv(first, throwing, steps, t);
    var s := t.state;
    var i: nat;
    if Count(s.lookups, HoldsExclusive) >= 1 {
      i := CountWitness(s.lookups, HoldsExclusive);
    } else if Count(s.lookups, HoldsShared) >= 1 {
      i := CountWitness(s.lookups, HoldsShared);
    } else {
      var l :| l in s.lookups && Unfinished(l);
      i :| i < |s.lookups| && s.lookups[i] == l;
    }
    var c := Constructed(first, throwing).value;
    assert Sees(s.lookups[i], s.throwing, s.data, Replay(c, t.log, s.throwing).value, LastGood(c, t.replies));
    step := NextOf(s.lookups[i], i);
    NextIsEnabled(s, i);
  }

  lemma NextIsEnabled(s: State, i: nat)
    requires i < |s.lookups| && Unfinished(s.lookups[i])
    requires var phase := s.lookups[i].phase; phase.Replacing? ==> phase.todo <= phase.target.Keys
    requires s.lookups[i].phase.Entering? ==> !s.writer
    requires s.lookups[i].phase.Upgrading? ==> !s.writer && s.readers == 0
    ensures Enabled(s, NextOf(s.lookups[i], i)) && !NextOf(s.lookups[i], i).Invoke?
  {
    if s.lookups[i].phase.Replacing? {
      assert s.lookups[i].phase.todo * s.lookups[i].phase.target.Keys == s.lookups[i].phase.todo;
    }
  }

  /**
   Readers share the lock: with no writer inside, a lookup of a cached key that is about to start returns the cached
   text by its own four steps, however many other readers are inside.
   */
  lemma HitNeedsNobody(first: Response, throwing: bool, before: seq<Step>, t: Trace, i: nat) returns (t': Trace)
    requires Run(first, throwing, before, t)
    requires i < |t.state.lookups| && t.state.lookups[i].phase.Entering?
    requires !t.state.writer && t.state.lookups[i].kid in t.state.data
    ensures Exec(t, [LockShared(i), FindShared(i), UnlockShared(i), Deliver(i)]) == Some(t')
    ensures t'.state.lookups[i].phase == Finished(Value(t.state.data[t.state.lookups[i].kid]))
    ensures t'.replies == t.replies && t'.state.data == t.state.data
  {
    var a := HitStep(t, i, LockShared(i), Reading);
    var b := HitStep(a, i, FindShared(i), HaveRead(Some(t.state.data[t.state.lookups[i].kid])));
    var c := HitStep(b, i, UnlockShared(i), Done(Value(t.state.data[t.state.lookups[i].kid])));
    t' := HitStep(c, i, Deliver(i), Finished(Value(t.state.data[t.state.lookups[i].kid])));
    ExecOne(t, LockShared(i));
    ExecSnoc(t, [LockShared(i)], FindShared(i));
    ExecSnoc(t, [LockShared(i), FindShared(i)], UnlockShared(i));
    ExecSnoc(t, [LockShared(i), FindShared(i), UnlockShared(i)], Deliver(i));
    assert [LockShared(i)] + [FindShared(i)] == [LockShared(i), FindShared(i)];
    assert [LockShared(i), FindShared(i)] + [UnlockShared(i)] == [LockShared(i), FindShared(i), UnlockShared(i)];
    assert [LockShared(i), FindShared(i), UnlockShared(i)] + [Deliver(i)]
           == [LockShared(i), FindShared(i), UnlockShared(i), Deliver(i)];
  }

  lemma ExecOne(t: Trace, step: Step)
    requires Enabled(t.state, step)
    ensures Exec(t, [step]) == Some(After(t, step))
  {
    assert [] + [step] == [step];
    ExecSnoc(t, [], step);
  }

  /** One step of a lookup that hits, which changes nothing but its own phase and the reader count. */
  lemma HitStep(t: Trace, i: nat, step: Step, phase: Phase) returns (t': Trace)
    requires i < |t.state.lookups| && Enabled(t.state, step) && !step.Invoke? && step.id == i
    requires step.LockShared? || step.FindShared? || step.UnlockShared? || step.Deliver?
    requires PhaseAfter(t.state, step) == phase
    ensures t' == After(t, step)
    ensures t'.state.lookups == t.state.lookups[i := Lookup(t.state.lookups[i].kid, phase)]
    ensures t'.state.data == t.state.data && t'.state.writer == t.state.writer && t'.replies == t.replies
  {
    t' := After(t, step);
    assert t.replies + [] == t.replies;
  }

  /** Steps a lookup may still take, not counting entries of a key set it has not fetched yet. */
  function Remaining(l: Lookup): nat {
    match l.phase
    case Entering => 10
    case Reading => 9
    case HaveRead(_) => 8
    case Upgrading => 7
    case Rechecking => 6
    case Fetching => 5
    case Replacing(_, todo) => 4 + |todo|
    case LookingAgain(_) => 3
    case Leaving(_) => 2
    case Done(_) => 1
    case Finished(_) => 0
  }

  function FetchedSize(r: Reply): nat {
    if r.fetched.Some? then |r.fetched.value.Keys| else 0
  }

  lemma RemainingDrops(s: State, step: Step)
    requires Enabled(s, step) && !step.Invoke?
    ensures var l := s.lookups[step.id];
            Remaining(Lookup(l.kid, PhaseAfter(s, step))) + 1
            <= Remaining(l) + if step.CallProvider? then FetchedSize(Reply(step.id, Fetch(step.response))) else 0
  {
    if step.CopyEntry? {
      CopyDrops(s, step);
    } else if step.CallProvider? {
      CallDrops(s, step);
    }
  }

  lemma CopyDrops(s: State, step: Step)
    requires Enabled(s, step) && step.CopyEntry?
    ensures var l := s.lookups[step.id]; Remaining(Lookup(l.kid, PhaseAfter(s, step))) + 1 == Remaining(l)
  {
    var todo := s.lookups[step.id].phase.todo;
    assert |todo - {step.key}| == |todo| - 1;
  }

  lemma CallDrops(s: State, step: Step)
    requires Enabled(s, step) && step.CallProvider?
    ensures var l := s.lookups[step.id];
            Remaining(Lookup(l.kid, PhaseAfter(s, step))) + 1
            <= Remaining(l) + FetchedSize(Reply(step.id, Fetch(step.response)))
  {
  }

  /** Every step of a lookup in progress uses up the summed measure; only a fetched key set adds its own size. */
  lemma MeasureDecreases(s: State, step: Step)
    requires Enabled(s, step) && !step.Invoke?
    ensures Sum(Next(s, step).lookups, Remaining) + 1 <= Sum(s.lookups, Remaining) + Sum(Replying(step), FetchedSize)
  {
    RemainingDrops(s, step);
    SumUpdate(s.lookups, step.id, Lookup(s.lookups[step.id].kid, PhaseAfter(s, step)), Remaining);
    if step.CallProvider? {
      var rs := Replying(step);
      assert rs[..0] == [];
      assert Sum(rs, FetchedSize) == Sum(rs[..0], FetchedSize) + FetchedSize(rs[0]);
    }
  }

  lemma {:induction false} SumConcatOne<T>(s: seq<T>, t: seq<T>, f: T -> nat)
    requires |t| <= 1
    ensures Sum(s + t, f) == Sum(s, f) + Sum(t, f)
  {
    if t == [] {
      assert s + t == s;
    } else {
      assert (s + t)[..|s|] == s;
      assert t[..0] == [];
    }
  }

  ghost predicate NoNewCalls(steps: seq<Step>) {
    forall i :: 0 <= i < |steps| ==> !steps[i].Invoke?
  }

  /** Termination: without new calls, a run is no longer than the measure plus the entries it fetches. */
  lemma {:induction false} RunsAreBounded(t: Trace, steps: seq<Step>, t': Trace)
    requires Exec(t, steps) == Some(t') && NoNewCalls(steps)
    ensures |steps| + Sum(t'.state.lookups, Remaining) + Sum(t.replies, FetchedSize)
            <= Sum(t.state.lookups, Remaining) + Sum(t'.replies, FetchedSize)
    decreases |steps|
  {
    if steps != [] {
      var n := |steps| - 1;
      var m := Exec(t, steps[..n]).value;
      RunsAreBounded(t, steps[..n], m);
      MeasureDecreases(m.state, steps[n]);
      SumConcatOne(m.replies, Replying(steps[n]), FetchedSize);
    }
  }

  // ---------- provider-call accounting ----------

  function Callers(replies: seq<Reply>): set<nat> {
    set r | r in replies :: r.id
  }

  predicate Refreshing(l: Lookup) {
    l.phase.Replacing? || l.phase.LookingAgain?
  }

  type Log = seq<Logged>

  /** Which lookups called the provider can be read off their phase, or off the log once they are in it. */
  ghost predicate CallersMatch(ls: seq<Lookup>, log: Log, callers: set<nat>) {
    && (forall i :: i in callers ==> i < |ls|)
    && (forall i :: 0 <= i < |ls| && StageOf(ls[i]).Pending? ==> (i in callers <==> Refreshing(ls[i])))
    && (forall p :: 0 <= p < |log| ==> (log[p].id in callers <==> log[p].env.FromRefresh?))
  }

  ghost predicate CallsInv(t: Trace) {
    && |Callers(t.replies)| == |t.replies|
    && CallersMatch(t.state.lookups, t.log, Callers(t.replies))
  }

  lemma CallersSnoc(replies: seq<Reply>, r: Reply)
    requires r.id !in Callers(replies) && |Callers(replies)| == |replies|
    ensures Callers(replies + [r]) == Callers(replies) + {r.id}
    ensures |Callers(replies + [r])| == |replies| + 1
  {
    assert forall x :: x in replies + [r] <==> x in replies || x == r;
  }

  /** Only a provider call starts a refresh, and a lookup is logged as refreshed exactly when it is in one. */
  lemma RefreshShape(s: State, step: Step)
    requires Enabled(s, step) && !step.Invoke?
    ensures var l, c := s.lookups[step.id], Committing(s, step);
            var l' := Lookup(l.kid, PhaseAfter(s, step));
            && (step.CallProvider? ==> StageOf(l).Pending? && !Refreshing(l))
            && (StageOf(l').Pending? ==>
                  StageOf(l).Pending? && (Refreshing(l') <==> Refreshing(l) || step.CallProvider?))
            && (c != [] ==>
                  && c == [c[0]] && c[0].id == step.id && StageOf(l).Pending?
                  && (c[0].env.FromRefresh? <==> Refreshing(l) || step.CallProvider?))
  {
  }

  lemma CallersAfter(t: Trace, step: Step)
    requires |Callers(t.replies)| == |t.replies|
    requires step.CallProvider? ==> step.id !in Callers(t.replies)
    ensures Callers(t.replies + Replying(step))
            == if step.CallProvider? then Callers(t.replies) + {step.id} else Callers(t.replies)
    ensures |Callers(t.replies + Replying(step))| == |t.replies + Replying(step)|
  {
    if step.CallProvider? {
      CallersSnoc(t.replies, Reply(step.id, Fetch(step.response)));
    } else {
      assert t.replies + [] == t.replies;
    }
  }

  lemma CallsInvStep(t: Trace, step: Step)
    requires CallsInv(t) && HistoryInv(t) && Enabled(t.state, step)
    ensures CallsInv(After(t, step))
  {
    var ls := t.state.lookups;
    if step.Invoke? {
      assert t.log + [] == t.log && t.replies + [] == t.replies;
    } else {
      var i := step.id;
      RefreshShape(t.state, step);
      CallersAfter(t, step);
      var l, c := Lookup(ls[i].kid, PhaseAfter(t.state, step)), Committing(t.state, step);
      assert CallersMatch(ls[i := l], t.log + c, Callers(t.replies + Replying(step))) by {
        if StageOf(ls[i]).Pending? {
          NotLoggedYet(t, i);
        }
        CallersMove(ls, t.log, Callers(t.replies), i, l, c, step.CallProvider?);
      }
    }
  }

  lemma CallersMove(ls: seq<Lookup>, log: Log, callers: set<nat>, i: nat, l: Lookup, c: Log, calls: bool)
    requires CallersMatch(ls, log, callers) && i < |ls|
    requires StageOf(ls[i]).Pending? ==> forall p :: 0 <= p < |log| ==> log[p].id != i
    requires calls ==> StageOf(ls[i]).Pending? && !Refreshing(ls[i])
    requires StageOf(l).Pending? ==> StageOf(ls[i]).Pending? && (Refreshing(l) <==> Refreshing(ls[i]) || calls)
    requires c != [] ==>
               && c == [c[0]] && c[0].id == i && StageOf(ls[i]).Pending?
               && (c[0].env.FromRefresh? <==> Refreshing(ls[i]) || calls)
    ensures CallersMatch(ls[i := l], log + c, if calls then callers + {i} else callers)
  {
  }

  lemma NotLoggedYet(t: Trace, i: nat)
    requires HistoryInv(t) && i < |t.state.lookups| && StageOf(t.state.lookups[i]).Pending?
    ensures forall p :: 0 <= p < |t.log| ==> t.log[p].id != i
  {
    var stages := Stages(t.state.lookups);
    assert stages[i].Pending?;
    forall p | 0 <= p < |t.log| ensures t.log[p].id != i {
      assert !stages[t.log[p].id].Pending?;
    }
  }

  lemma {:induction false} CallsInvExec(t: Trace, first: Keys, steps: seq<Step>, t': Trace)
    requires Inv(t, first) && CallsInv(t) && Exec(t, steps) == Some(t')
    ensures CallsInv(t')
    decreases |steps|
  {
    if steps != [] {
      var n := |steps| - 1;
      var m := Exec(t, steps[..n]).value;
      CallsInvExec(t, first, steps[..n], m);
      InvExec(t, first, steps[..n], m);
      CallsInvStep(m, steps[n]);
    }
  }

  /**
   Accounting: after the constructor's own call, the provider was called once for each lookup that reached the refresh
   and never twice for one lookup. A logged lookup called it exactly when it was answered by a refresh.
   */
  lemma ProviderCalls(first: Response, throwing: bool, steps: seq<Step>, t: Trace)
    requires Run(first, throwing, steps, t)
    ensures |t.replies| == |Callers(t.replies)|
    ensures forall e :: e in t.log ==> (e.id in Callers(t.replies) <==> e.env.FromRefresh?)
    ensures forall i :: 0 <= i < |t.state.lookups| && StageOf(t.state.lookups[i]).Pending? ==>
              (i in Callers(t.replies) <==> Refreshing(t.state.lookups[i]))
  {
    var c := Constructed(first, throwing).value;
    InvStart(c, throwing);
    CallsInvExec(Start(c, throwing), c, steps, t);
  }

  // ---------- what a lookup answers ----------

  /** Entry `q` is a refresh that fetched a key set. */
  predicate Fetched(log: Log, q: int)
    requires 0 <= q < |log|
  {
    log[q].env.FromRefresh? && log[q].env.fetched.Some?
  }

  /** The key set last fetched before place `p` of the log, or `first` when none was. */
  ghost predicate CacheBefore(first: Keys, log: Log, p: int, cache: Keys)
    requires 0 <= p <= |log|
  {
    || (cache == first && forall q :: 0 <= q < p ==> !Fetched(log, q))
    || (exists q :: 0 <= q < p && Fetched(log, q) && log[q].env.fetched.value == cache
                    && forall r :: q < r < p ==> !Fetched(log, r))
  }

  lemma {:induction false} ReplayIsLastFetched(first: Keys, log: Log, throwing: bool)
    requires Replay(first, log, throwing).Some?
    ensures CacheBefore(first, log, |log|, Replay(first, log, throwing).value)
  {
    if log != [] {
      var n := |log| - 1;
      ReplayIsLastFetched(first, log[..n], throwing);
      var d := Replay(first, log[..n], throwing).value;
      CacheBeforeGrows(first, log[..n], log, n, d);
      if Fetched(log, n) {
        assert Replay(first, log, throwing).value == log[n].env.fetched.value;
      } else {
        assert Replay(first, log, throwing).value == d;
      }
    }
  }

  lemma CacheBeforeGrows(first: Keys, log: Log, longer: Log, p: nat, cache: Keys)
    requires log <= longer && p <= |log| && CacheBefore(first, log, p, cache)
    ensures CacheBefore(first, longer, p, cache)
  {
    assert forall q :: 0 <= q < p ==> (Fetched(log, q) <==> Fetched(longer, q));
    if exists q :: 0 <= q < p && Fetched(log, q) {
      var q :| 0 <= q < p && Fetched(log, q) && log[q].env.fetched.value == cache
               && forall r :: q < r < p ==> !Fetched(log, r);
      assert Fetched(longer, q) && longer[q].env.fetched.value == cache;
    }
  }

  /** The answer that the source promises for entry `e` when the cache holds `cache`. */
  ghost predicate AnswersAsPromised(e: Logged, cache: Keys, throwing: bool) {
    match e.env
    case FromCache => e.arg in cache && e.res == Value(cache[e.arg])
    case FromRefresh(Some(keys)) => e.arg !in cache && e.res == Value(if e.arg in keys then keys[e.arg] else "")
    case FromRefresh(None) => e.arg !in cache && e.res == if throwing then Threw else Value("")
  }

  /** Entry `p` answers as promised with the cache before it. */
  ghost predicate EntryAsPromised(first: Keys, log: Log, p: int, throwing: bool)
    requires 0 <= p < |log|
  {
    exists cache :: CacheBefore(first, log, p, cache) && AnswersAsPromised(log[p], cache, throwing)
  }

  lemma {:induction false} ReplayAnswers(first: Keys, log: Log, throwing: bool, p: nat)
    requires Replay(first, log, throwing).Some? && p < |log|
    ensures EntryAsPromised(first, log, p, throwing)
  {
    var n := |log| - 1;
    var cache: Keys;
    if p < n {
      ReplayAnswers(first, log[..n], throwing, p);
      cache :| CacheBefore(first, log[..n], p, cache) && AnswersAsPromised(log[..n][p], cache, throwing);
    } else {
      cache := Replay(first, log[..n], throwing).value;
      ReplayIsLastFetched(first, log[..n], throwing);
      LastAnswers(first, log, throwing);
    }
    CacheBeforeGrows(first, log[..n], log, p, cache);
    assert AnswersAsPromised(log[p], cache, throwing);
  }

  lemma LastAnswers(first: Keys, log: Log, throwing: bool)
    requires log != [] && Replay(first, log, throwing).Some?
    ensures Replay(first, log[..|log| - 1], throwing).Some?
    ensures AnswersAsPromised(log[|log| - 1], Replay(first, log[..|log| - 1], throwing).value, throwing)
  {
  }

  /** The replies to the provider calls of a run, in their order. */
  function Responses(steps: seq<Step>): seq<Reply> {
    if steps == [] then []
    else
      var step := steps[|steps| - 1];
      Responses(steps[..|steps| - 1]) + if step.CallProvider? then [Reply(step.id, Fetch(step.response))] else []
  }

  lemma {:induction false} RepliesAreResponses(t: Trace, steps: seq<Step>, t': Trace)
    requires Exec(t, steps) == Some(t')
    ensures t'.replies == t.replies + Responses(steps)
    decreases |steps|
  {
    if steps != [] {
      RepliesAreResponses(t, steps[..|steps| - 1], Exec(t, steps[..|steps| - 1]).value);
    }
  }

  lemma ReturnsAreLogged(history: seq<Event<string, Outcome>>, log: Log)
    requires Linearizes(history, log)
    ensures forall h :: h in history && h.Return? ==> exists e :: e in log && e.id == h.id && e.res == h.res
  {
    forall h | h in history && h.Return? ensures exists e :: e in log && e.id == h.id && e.res == h.res {
      var i :| 0 <= i < |history| && history[i] == h;
      assert Answered(log, history[i].id, history[i].res);
      var p :| At(log, p, h.id) && log[p].res == h.res;
      assert log[p] in log;
    }
  }

  /**
   What every lookup of every run answers, entry by entry of its sequential order: the cached text when the key set
   fetched last before it, or by the constructor, has the key. Otherwise it refreshes, and answers the text that the
   fetched key set has for the key, the empty string when that has none, and after a failed fetch an exception or the
   empty string. The refreshes are those of the provider's responses; every result a caller sees is one of the entries.
   With no writer inside, the map in memory is the key set fetched last.
   */
  lemma AnswersExactly(first: Response, throwing: bool, steps: seq<Step>, t: Trace)
    requires Run(first, throwing, steps, t)
    ensures var start := if Fetch(first).Some? then Fetch(first).value else map[];
            && (forall p :: 0 <= p < |t.log| ==> EntryAsPromised(start, t.log, p, throwing))
            && (!t.state.writer ==> CacheBefore(start, t.log, |t.log|, t.state.data))
    ensures t.replies == Responses(steps) && Refreshes(t.log) <= t.replies
    ensures forall h :: h in t.history && h.Return? ==> exists e :: e in t.log && e.id == h.id && e.res == h.res
  {
    var c := Constructed(first, throwing).value;
    Linearizable(first, throwing, steps, t);
    RepliesAreResponses(Start(c, throwing), steps, t);
    ReplayIsLastFetched(c, t.log, throwing);
    forall p | 0 <= p < |t.log| ensures EntryAsPromised(c, t.log, p, throwing) {
      ReplayAnswers(c, t.log, throwing, p);
    }
    ReturnsAreLogged(t.history, t.log);
  }

  // ---------- what an empty answer means ----------

  predicate NonEmptyPems(keys: Keys) {
    forall k :: k in keys ==> keys[k] != ""
  }

  /** An entry answered from the cache returned a key of the cache at its place in the sequential execution. */
  lemma {:induction false} CacheAnswersAreKeys(first: Keys, log: Log, throwing: bool, p: nat)
    requires Replay(first, log, throwing).Some? && p < |log| && log[p].env.FromCache?
    ensures Replay(first, log[..p], throwing).Some?
    ensures var d := Replay(first, log[..p], throwing).value; log[p].arg in d && log[p].res == Value(d[log[p].arg])
  {
    var n := |log| - 1;
    if p < n {
      assert log[..n][..p] == log[..p];
      CacheAnswersAreKeys(first, log[..n], throwing, p);
    }
  }

  ghost predicate RefreshesNonEmpty(log: Log) {
    forall e :: e in log && e.env.FromRefresh? && e.env.fetched.Some? ==> NonEmptyPems(e.env.fetched.value)
  }

  lemma {:induction false} ReplayPems(first: Keys, log: Log, throwing: bool)
    requires NonEmptyPems(first) && RefreshesNonEmpty(log) && Replay(first, log, throwing).Some?
    ensures NonEmptyPems(Replay(first, log, throwing).value)
  {
    if log != [] {
      assert log[|log| - 1] in log;
      ReplayPems(first, log[..|log| - 1], throwing);
    }
  }

  /** The PEM writer never produced an empty text in this response. */
  predicate WritesPems(r: Response) {
    r.Document? ==> forall k :: k in r.pem ==> r.pem[k] != ""
  }

  lemma FetchedNonEmptyPems(r: Response)
    requires WritesPems(r)
    ensures Fetch(r).Some? ==> NonEmptyPems(Fetch(r).value)
  {
    if Fetch(r).Some? {
      forall id | id in Fetch(r).value ensures Fetch(r).value[id] != "" {
        FetchedPemsNonEmpty(r, id);
      }
    }
  }

  /** The key set that a lookup has fetched has no empty text. */
  ghost predicate PhasePems(phase: Phase) {
    && (phase.Replacing? ==> NonEmptyPems(phase.target))
    && (phase.LookingAgain? && phase.fetched.Some? ==> NonEmptyPems(phase.fetched.value))
  }

  ghost predicate PemsInv(t: Trace) {
    && RefreshesNonEmpty(t.log)
    && forall l :: l in t.state.lookups ==> PhasePems(l.phase)
  }

  lemma PemsInvStep(t: Trace, step: Step)
    requires PemsInv(t) && Enabled(t.state, step) && (step.CallProvider? ==> WritesPems(step.response))
    ensures PemsInv(After(t, step))
  {
    if !step.Invoke? {
      assert t.state.lookups[step.id] in t.state.lookups;
      PemsAfter(t.state, step);
    }
  }

  lemma PemsAfter(s: State, step: Step)
    requires Enabled(s, step) && !step.Invoke? && (step.CallProvider? ==> WritesPems(step.response))
    requires PhasePems(s.lookups[step.id].phase)
    ensures PhasePems(PhaseAfter(s, step)) && RefreshesNonEmpty(Committing(s, step))
  {
    if step.CallProvider? {
      FetchedNonEmptyPems(step.response);
    }
  }

  lemma {:induction false} PemsInvExec(t: Trace, steps: seq<Step>, t': Trace)
    requires PemsInv(t) && Exec(t, steps) == Some(t')
    requires forall step :: step in steps && step.CallProvider? ==> WritesPems(step.response)
    ensures PemsInv(t')
    decreases |steps|
  {
    if steps != [] {
      var n := |steps| - 1;
      PemsInvExec(t, steps[..n], Exec(t, steps[..n]).value);
      assert steps[n] in steps;
      PemsInvStep(Exec(t, steps[..n]).value, steps[n]);
    }
  }

  /** When no PEM text is ever empty, a lookup that returned the empty string or threw called the provider. */
  lemma EmptyAnswerCalledProvider(first: Response, throwing: bool, steps: seq<Step>, t: Trace, e: Logged)
    requires Run(first, throwing, steps, t) && e in t.log
    requires WritesPems(first) && forall step :: step in steps && step.CallProvider? ==> WritesPems(step.response)
    requires e.res == Value("") || e.res == Threw
    ensures e.id in Callers(t.replies)
  {
    ProviderCalls(first, throwing, steps, t);
    Linearizable(first, throwing, steps, t);
    var c := Constructed(first, throwing).value;
    FetchedNonEmptyPems(first);
    PemsInvExec(Start(c, throwing), steps, t);
    if e.env.FromCache? {
      var p :| 0 <= p < |t.log| && t.log[p] == e;
      CacheAnswersAreKeys(c, t.log, throwing, p);
      assert forall x :: x in t.log[..p] ==> x in t.log;
      ReplayPems(c, t.log[..p], throwing);
      assert false;
    }
  }

  // ---------- the empty key id ----------

  /** No map that a refresh can leave behind has an empty id, and no lookup of the empty id has found a key. */
  ghost predicate NoEmptyKid(s: State) {
    && "" !in s.data
    && forall l :: l in s.lookups ==>
        && (l.phase.Replacing? ==> "" !in l.phase.target)
        && (l.kid == "" ==>
            && (l.phase.HaveRead? ==> l.phase.found.None?)
            && (l.phase.Leaving? || l.phase.Done? || l.phase.Finished? ==>
                  l.phase.outcome == Value("") || l.phase.outcome == Threw))
  }

  lemma NoEmptyKidStep(s: State, step: Step)
    requires NoEmptyKid(s) && Enabled(s, step)
    ensures NoEmptyKid(Next(s, step))
  {
    if step.CallProvider? && Fetch(step.response).Some? && "" in Fetch(step.response).value {
      FetchedIdsQualify(step.response, "");
    }
    if !step.Invoke? {
      assert s.lookups[step.id] in s.lookups;
    }
  }

  lemma {:induction false} NoEmptyKidExec(t: Trace, steps: seq<Step>, t': Trace)
    requires NoEmptyKid(t.state) && Exec(t, steps) == Some(t')
    ensures NoEmptyKid(t'.state)
    decreases |steps|
  {
    if steps != [] {
      var m := Exec(t, steps[..|steps| - 1]).value;
      NoEmptyKidExec(t, steps[..|steps| - 1], m);
      NoEmptyKidStep(m.state, steps[|steps| - 1]);
    }
  }

  /**
   The cache never holds the empty id, so a lookup of it never returns a key: it throws or returns the empty string.
   (rest-jwks-rsa-key-provider.h:24 says that it returns an arbitrary key.)
   */
  lemma EmptyKidFindsNothing(first: Response, throwing: bool, steps: seq<Step>, t: Trace)
    requires Run(first, throwing, steps, t)
    ensures "" !in t.state.data
    ensures forall l :: l in t.state.lookups && l.kid == "" && l.phase.Finished? ==>
              l.phase.outcome == Value("") || l.phase.outcome == Threw
    ensures forall e :: e in t.log && e.arg == "" ==> e.env.FromRefresh? && e.id in Callers(t.replies)
  {
    var c := Constructed(first, throwing).value;
    if "" in c {
      FetchedIdsQualify(first, "");
    }
    NoEmptyKidExec(Start(c, throwing), steps, t);
    Linearizable(first, throwing, steps, t);
    ProviderCalls(first, throwing, steps, t);
    forall e | e in t.log && e.arg == "" ensures e.env.FromRefresh? && e.id in Callers(t.replies) {
      if e.env.FromCache? {
        EmptyKidNotCached(first, throwing, steps, t, e);
      }
    }
  }

  lemma {:induction false} EmptyKidNotCached(first: Response, throwing: bool, steps: seq<Step>, t: Trace, e: Logged)
    requires Run(first, throwing, steps, t) && e in t.log && e.arg == ""
    ensures e.env.FromRefresh?
    decreases |steps|
  {
    var n := |steps| - 1;
    var c := Constructed(first, throwing).value;
    if "" in c {
      FetchedIdsQualify(first, "");
    }
    var m := Exec(Start(c, throwing), steps[..n]).value;
    if e in m.log {
      EmptyKidNotCached(first, throwing, steps[..n], m, e);
    } else {
      NoEmptyKidExec(Start(c, throwing), steps[..n], m);
      assert e in Committing(m.state, steps[n]);
    }
  }

  // ---------- refresh coalescing ----------

  /** Key `k` is in the last successful key set, and nobody looking for it is about to call the provider. */
  ghost predicate Settled(t: Trace, first: Keys, k: string) {
    && k in LastGood(first, t.replies)
    && forall l :: l in t.state.lookups && l.kid == k ==> !l.phase.Fetching?
  }

  lemma SettledStep(t: Trace, step: Step, first: Keys, k: string)
    requires Inv(t, first) && Enabled(t.state, step)
    requires Settled(t, first, k) || step.CallProvider?
    requires step.CallProvider? ==> Fetch(step.response).Some? && k in Fetch(step.response).value
    ensures Settled(After(t, step), first, k)
  {
    var s, t' := t.state, After(t, step);
    StepEffect(t, step, first);
    forall l | l in t'.state.lookups && l.kid == k ensures !l.phase.Fetching? {
      var j :| 0 <= j < |t'.state.lookups| && t'.state.lookups[j] == l;
      if j < |s.lookups| && (step.Invoke? || j != step.id) {
        assert s.lookups[j] == l;
        if step.CallProvider? {
          ExclusiveAlone(s, step.id, j);
        }
      } else if step.Recheck? {
        assert Sees(s.lookups[j], s.throwing, s.data,
                    Replay(first, t.log, s.throwing).value, LastGood(first, t.replies));
      }
    }
  }

  /** The provider responses after the first `from` ones all succeeded and contain `k`. */
  ghost predicate AllContain(replies: seq<Reply>, from: nat, k: string) {
    forall p :: from <= p < |replies| ==> replies[p].fetched.Some? && k in replies[p].fetched.value
  }

  /** From the first provider call after `from` on, `k` is settled and no further call is made for it. */
  ghost predicate Coalesced(t: Trace, from: nat, first: Keys, k: string) {
    && |t.replies| >= from
    && (|t.replies| > from ==> Settled(t, first, k))
    && forall p :: from < p < |t.replies| ==>
         t.replies[p].id < |t.state.lookups| && t.state.lookups[t.replies[p].id].kid != k
  }

  lemma CoalescedStep(t: Trace, step: Step, from: nat, first: Keys, k: string)
    requires Inv(t, first) && Coalesced(t, from, first, k) && Enabled(t.state, step)
    requires step.CallProvider? ==> Fetch(step.response).Some? && k in Fetch(step.response).value
    ensures Coalesced(After(t, step), from, first, k)
  {
    var t' := After(t, step);
    KidsStay(t.state, step);
    if step.CallProvider? {
      assert t.state.lookups[step.id] in t.state.lookups;
    } else {
      assert t'.replies == t.replies;
    }
    if |t'.replies| > from {
      SettledStep(t, step, first, k);
    }
  }

  lemma {:induction false} CoalescedExec(t: Trace, first: Keys, steps: seq<Step>, t': Trace, k: string)
    requires Inv(t, first) && Exec(t, steps) == Some(t') && AllContain(t'.replies, |t.replies|, k)
    ensures Coalesced(t', |t.replies|, first, k)
    decreases |steps|
  {
    if steps != [] {
      var n := |steps| - 1;
      var m := Exec(t, steps[..n]).value;
      assert m.replies <= t'.replies;
      CoalescedExec(t, first, steps[..n], m, k);
      InvExec(t, first, steps[..n], m);
      if steps[n].CallProvider? {
        assert t'.replies[|m.replies|] == Reply(steps[n].id, Fetch(steps[n].response));
      }
      CoalescedStep(m, steps[n], |t.replies|, first, k);
    }
  }

  lemma KidsStay(s: State, step: Step)
    requires Enabled(s, step)
    ensures var s' := Next(s, step);
            |s'.lookups| >= |s.lookups| && forall i :: 0 <= i < |s.lookups| ==> s'.lookups[i].kid == s.lookups[i].kid
  {
  }

  /** Further provider calls made by lookups of `k`. */
  ghost function CallsFor(t: Trace, from: nat, k: string): set<int> {
    set p | from <= p < |t.replies| && t.replies[p].id < |t.state.lookups| && t.state.lookups[t.replies[p].id].kid == k
  }

  /**
   Refresh coalescing: from any reachable trace `t`, if all later responses succeed and contain `k`, then all lookups
   of `k` together make at most one further provider call, and only the first further call can be theirs.
   */
  lemma RefreshCoalescing(
    first: Response, throwing: bool, before: seq<Step>, t: Trace, after: seq<Step>, t': Trace, k: string)
    requires Run(first, throwing, before, t)
    requires Exec(t, after) == Some(t') && AllContain(t'.replies, |t.replies|, k)
    ensures CallsFor(t', |t.replies|, k) <= {|t.replies|}
    ensures |CallsFor(t', |t.replies|, k)| <= 1
  {
    RunInv(first, throwing, before, t);
    CoalescedExec(t, Constructed(first, throwing).value, after, t', k);
    CoalescedCalls(t', |t.replies|, Constructed(first, throwing).value, k);
  }

  lemma CoalescedCalls(t: Trace, from: nat, first: Keys, k: string)
    requires Coalesced(t, from, first, k)
    ensures CallsFor(t, from, k) <= {from} && |CallsFor(t, from, k)| <= 1
  {
    var calls := CallsFor(t, from, k);
    assert calls == if from in calls then {from} else {};
  }
}
