/**
 Stopping the Pub/Sub handler: a mutex, a flag and a condition variable.

 `Handle` takes the mutex, subscribes and waits on the condition variable until the flag is set; `Stop` sets the flag
 under the mutex and then notifies one waiter. Any number of threads may be in `Handle` and in `Stop`, and waiters may
 wake up for no reason.
 */
module StopHandshake {
  import opened Wrappers
  import opened Counting

  datatype Handler =
    | Idle         // before Handle
    | Subscribing  // mutex held
    | Testing      // mutex held, about to look at the flag
    | Blocked      // waiting, mutex released
    | Woken        // notified or woken spuriously, about to take the mutex again
    | Leaving      // mutex held, wait is over
    | Gone         // Handle returned

  datatype Stopper =
    | Before
    | Holding   // mutex held
    | HasSet    // mutex held, flag set
    | Released  // mutex released, about to notify
    | Finished  // Stop returned

  datatype State = State(locked: bool, stopRequested: bool, handlers: seq<Handler>, stoppers: seq<Stopper>)

  datatype Step =
    | Enter(h: nat)
    | Subscribe(h: nat)
    | Test(h: nat)
    | Wake(h: nat)
    | Relock(h: nat)
    | Leave(h: nat)
    | StopLock(s: nat)
    | StopSet(s: nat)
    | StopUnlock(s: nat)
    | Notify(s: nat, woken: Option<nat>)

  predicate OfHandler(step: Step) {
    step.Enter? || step.Subscribe? || step.Test? || step.Wake? || step.Relock? || step.Leave?
  }

  predicate Enabled(s: State, step: Step) {
    if OfHandler(step) then
      && step.h < |s.handlers|
      && var h := s.handlers[step.h];
         match step
         case Enter(_) => h.Idle? && !s.locked
         case Subscribe(_) => h.Subscribing?
         case Test(_) => h.Testing?
         case Wake(_) => h.Blocked?
         case Relock(_) => h.Woken? && !s.locked
         case Leave(_) => h.Leaving?
    else
      && step.s < |s.stoppers|
      && var t := s.stoppers[step.s];
         match step
         case StopLock(_) => t.Before? && !s.locked
         case StopSet(_) => t.Holding?
         case StopUnlock(_) => t.HasSet?
         case Notify(_, woken) =>
           && t.Released?
           && (woken.Some? ==> woken.value < |s.handlers| && s.handlers[woken.value].Blocked?)
           && (woken.None? ==> Blocked !in s.handlers)
  }

  function HandlerAfter(s: State, step: Step): Handler
    requires Enabled(s, step) && OfHandler(step)
  {
    match step
    case Enter(_) => Subscribing
    case Subscribe(_) => Testing
    case Test(_) => if s.stopRequested then Leaving else Blocked
    case Wake(_) => Woken
    case Relock(_) => Testing
    case Leave(_) => Gone
  }

  function StopperAfter(step: Step): Stopper
    requires !OfHandler(step)
  {
    match step
    case StopLock(_) => Holding
    case StopSet(_) => HasSet
    case StopUnlock(_) => Released
    case Notify(_, _) => Finished
  }

  /** A waiter that finds the flag unset releases the mutex in the same step in which it blocks. */
  function Next(s: State, step: Step): State
    requires Enabled(s, step)
  {
    if OfHandler(step) then
      s.(handlers := s.handlers[step.h := HandlerAfter(s, step)],
         locked := if step.Enter? || step.Relock? then true
                   else if step.Leave? || (step.Test? && !s.stopRequested) then false
                   else s.locked)
    else
      s.(stoppers := s.stoppers[step.s := StopperAfter(step)],
         handlers := if step.Notify? && step.woken.Some? then s.handlers[step.woken.value := Woken] else s.handlers,
         stopRequested := s.stopRequested || step.StopSet?,
         locked := if step.StopLock? then true else if step.StopUnlock? then false else s.locked)
  }

  function Exec(s: State, steps: seq<Step>): Option<State> {
    if steps == [] then Some(s)
    else
      match Exec(s, steps[..|steps| - 1])
      case None => None
      case Some(s') => if Enabled(s', steps[|steps| - 1]) then Some(Next(s', steps[|steps| - 1])) else None
  }

  function Start(handlers: nat, stoppers: nat): State {
    State(false, false, seq(handlers, _ => Idle), seq(stoppers, _ => Before))
  }

  ghost predicate Run(handlers: nat, stoppers: nat, steps: seq<Step>, s: State) {
    Exec(Start(handlers, stoppers), steps) == Some(s)
  }

  predicate IsBlocked(h: Handler) {
    h.Blocked?
  }

  predicate IsFinished(t: Stopper) {
    t.Finished?
  }

  // ---------- no lost wakeup ----------

  /** Once the flag is set nobody blocks any more, and each finished `Stop` has woken one waiter if there was one. */
  ghost predicate WakeupInv(s: State) {
    && (s.stopRequested ==>
          || Count(s.handlers, IsBlocked) == 0
          || Count(s.handlers, IsBlocked) + Count(s.stoppers, IsFinished) <= |s.handlers|)
    && (!s.stopRequested ==> forall t :: t in s.stoppers ==> t.Before? || t.Holding?)
  }

  lemma {:induction false} CountAtMost<T>(s: seq<T>, p: T -> bool)
    ensures Count(s, p) <= |s|
  {
    if s != [] {
      CountAtMost(s[..|s| - 1], p);
    }
  }

  lemma {:induction false} CountNone<T>(s: seq<T>, p: T -> bool)
    requires forall x :: x in s ==> !p(x)
    ensures Count(s, p) == 0
  {
    if s != [] {
      assert s[|s| - 1] in s;
      CountNone(s[..|s| - 1], p);
    }
  }

  lemma WakeupInvStep(s: State, step: Step)
    requires WakeupInv(s) && Enabled(s, step)
    ensures WakeupInv(Next(s, step))
  {
    if OfHandler(step) {
      CountUpdate(s.handlers, step.h, HandlerAfter(s, step), IsBlocked);
    } else {
      CountUpdate(s.stoppers, step.s, StopperAfter(step), IsFinished);
      assert s.stoppers[step.s] in s.stoppers;
      if step.StopSet? && !s.stopRequested {
        CountAtMost(s.handlers, IsBlocked);
        CountNone(s.stoppers, IsFinished);
      }
      if step.Notify? {
        if step.woken.Some? {
          CountUpdate(s.handlers, step.woken.value, Woken, IsBlocked);
          CountPositive(s.handlers, step.woken.value, IsBlocked);
        } else {
          CountNone(s.handlers, IsBlocked);
        }
      }
    }
  }

  lemma {:induction false} RunInv(handlers: nat, stoppers: nat, steps: seq<Step>, s: State)
    requires Run(handlers, stoppers, steps, s)
    ensures WakeupInv(s) && |s.handlers| == handlers && |s.stoppers| == stoppers
    decreases |steps|
  {
    if steps != [] {
      var m := Exec(Start(handlers, stoppers), steps[..|steps| - 1]).value;
      RunInv(handlers, stoppers, steps[..|steps| - 1], m);
      WakeupInvStep(m, steps[|steps| - 1]);
    }
  }

  /**
   No lost wakeup: in every interleaving, once as many `Stop` calls have finished as there are threads in `Handle`,
   none of these threads is blocked. For one handler, one finished `Stop` is enough.
   */
  lemma NoLostWakeup(handlers: nat, stoppers: nat, steps: seq<Step>, s: State)
    requires Run(handlers, stoppers, steps, s)
    requires Count(s.stoppers, IsFinished) >= handlers
    ensures Blocked !in s.handlers
  {
    RunInv(handlers, stoppers, steps, s);
    if !s.stopRequested {
      CountNone(s.stoppers, IsFinished);
    }
    if Blocked in s.handlers {
      var i :| 0 <= i < |s.handlers| && s.handlers[i].Blocked?;
      CountPositive(s.handlers, i, IsBlocked);
    }
  }

  // ---------- no leaving without a stop ----------

  /** The flag is set exactly when a `Stop` has set it, and a handler that is over its wait has seen it set. */
  ghost predicate FlagInv(s: State) {
    && (s.stopRequested <==> exists t :: t in s.stoppers && !t.Before? && !t.Holding?)
    && (!s.stopRequested ==> forall h :: h in s.handlers ==> !h.Leaving? && !h.Gone?)
  }

  lemma FlagInvStep(s: State, step: Step)
    requires FlagInv(s) && Enabled(s, step)
    ensures FlagInv(Next(s, step))
  {
    var s' := Next(s, step);
    if !OfHandler(step) {
      var i := step.s;
      assert s.stoppers[i] in s.stoppers && s'.stoppers[i] in s'.stoppers;
      if s.stopRequested {
        var t :| t in s.stoppers && !t.Before? && !t.Holding?;
        var k :| 0 <= k < |s.stoppers| && s.stoppers[k] == t;
        assert s'.stoppers[k] in s'.stoppers;
      }
    } else {
      assert s.handlers[step.h] in s.handlers;
    }
  }

  /**
   `Handle` leaves its wait only after a stop: in every interleaving, with spurious wakeups, while no `Stop` has set the
   flag no handler is past its wait, and only a `Stop` sets the flag.
   */
  lemma {:induction false} NoLeavingWithoutStop(handlers: nat, stoppers: nat, steps: seq<Step>, s: State)
    requires Run(handlers, stoppers, steps, s)
    ensures s.stopRequested <==> exists t :: t in s.stoppers && !t.Before? && !t.Holding?
    ensures !s.stopRequested ==> forall h :: h in s.handlers ==> !h.Leaving? && !h.Gone?
    decreases |steps|
  {
    if steps != [] {
      var m := Exec(Start(handlers, stoppers), steps[..|steps| - 1]).value;
      NoLeavingWithoutStop(handlers, stoppers, steps[..|steps| - 1], m);
      FlagInvStep(m, steps[|steps| - 1]);
    }
  }

  // ---------- leaving in a bounded number of steps ----------

  function Rank(h: Handler): nat {
    match h
    case Idle => 6
    case Subscribing => 5
    case Blocked => 4
    case Woken => 3
    case Testing => 2
    case Leaving => 1
    case Gone => 0
  }

  predicate NotGone(h: Handler) {
    !h.Gone?
  }

  /** With the flag set, every step of a handler brings it closer to its return, and nobody's step moves one back. */
  lemma HandlerStepsCount(s: State, step: Step)
    requires Enabled(s, step) && s.stopRequested
    ensures Next(s, step).stopRequested
    ensures Sum(Next(s, step).handlers, Rank) + (if OfHandler(step) then 1 else 0) <= Sum(s.handlers, Rank)
  {
    if OfHandler(step) {
      SumUpdate(s.handlers, step.h, HandlerAfter(s, step), Rank);
    } else if step.Notify? && step.woken.Some? {
      SumUpdate(s.handlers, step.woken.value, Woken, Rank);
    }
  }

  function HandlerSteps(steps: seq<Step>): nat {
    Count(steps, OfHandler)
  }

  /** After the flag is set, the handlers together take at most their summed rank of steps, in any interleaving. */
  lemma {:induction false} HandlersLeave(s: State, steps: seq<Step>, s': State)
    requires Exec(s, steps) == Some(s') && s.stopRequested
    ensures s'.stopRequested && HandlerSteps(steps) + Sum(s'.handlers, Rank) <= Sum(s.handlers, Rank)
    decreases |steps|
  {
    if steps != [] {
      var m := Exec(s, steps[..|steps| - 1]).value;
      HandlersLeave(s, steps[..|steps| - 1], m);
      HandlerStepsCount(m, steps[|steps| - 1]);
    }
  }

  // ---------- the mutex, and that someone can always go on ----------

  predicate HandlerHolds(h: Handler) {
    h.Subscribing? || h.Testing? || h.Leaving?
  }

  predicate StopperHolds(t: Stopper) {
    t.Holding? || t.HasSet?
  }

  ghost predicate MutexInv(s: State) {
    Count(s.handlers, HandlerHolds) + Count(s.stoppers, StopperHolds) == if s.locked then 1 else 0
  }

  lemma MutexInvStep(s: State, step: Step)
    requires MutexInv(s) && Enabled(s, step)
    ensures MutexInv(Next(s, step))
  {
    if OfHandler(step) {
      CountUpdate(s.handlers, step.h, HandlerAfter(s, step), HandlerHolds);
      if HandlerHolds(s.handlers[step.h]) {
        CountPositive(s.handlers, step.h, HandlerHolds);
      }
    } else {
      CountUpdate(s.stoppers, step.s, StopperAfter(step), StopperHolds);
      if StopperHolds(s.stoppers[step.s]) {
        CountPositive(s.stoppers, step.s, StopperHolds);
      }
      if step.Notify? && step.woken.Some? {
        CountUpdate(s.handlers, step.woken.value, Woken, HandlerHolds);
      }
    }
  }

  lemma {:induction false} RunMutexInv(handlers: nat, stoppers: nat, steps: seq<Step>, s: State)
    requires Run(handlers, stoppers, steps, s)
    ensures MutexInv(s)
    decreases |steps|
  {
    if steps == [] {
      CountNone(s.handlers, HandlerHolds);
      CountNone(s.stoppers, StopperHolds);
    } else {
      var m := Exec(Start(handlers, stoppers), steps[..|steps| - 1]).value;
      RunMutexInv(handlers, stoppers, steps[..|steps| - 1], m);
      MutexInvStep(m, steps[|steps| - 1]);
    }
  }

  /** At most one thread is inside the mutex: no handler beside a stop, no two handlers, no two stops. */
  lemma MutualExclusion(handlers: nat, stoppers: nat, steps: seq<Step>, s: State)
    requires Run(handlers, stoppers, steps, s)
    ensures forall h, t :: 0 <= h < |s.handlers| && 0 <= t < |s.stoppers| ==>
              !(HandlerHolds(s.handlers[h]) && StopperHolds(s.stoppers[t]))
    ensures forall h, k :: 0 <= h < k < |s.handlers| ==> !(HandlerHolds(s.handlers[h]) && HandlerHolds(s.handlers[k]))
    ensures forall t, u :: 0 <= t < u < |s.stoppers| ==> !(StopperHolds(s.stoppers[t]) && StopperHolds(s.stoppers[u]))
  {
    RunMutexInv(handlers, stoppers, steps, s);
    forall h | 0 <= h < |s.handlers| && HandlerHolds(s.handlers[h]) ensures Count(s.handlers, HandlerHolds) >= 1 {
      CountPositive(s.handlers, h, HandlerHolds);
    }
    forall t | 0 <= t < |s.stoppers| && StopperHolds(s.stoppers[t]) ensures Count(s.stoppers, StopperHolds) >= 1 {
      CountPositive(s.stoppers, t, StopperHolds);
    }
    AtMostOne(s.handlers, HandlerHolds);
    AtMostOne(s.stoppers, StopperHolds);
  }

  lemma AtMostOne<T>(s: seq<T>, p: T -> bool)
    requires Count(s, p) <= 1
    ensures forall i, j :: 0 <= i < j < |s| ==> !(p(s[i]) && p(s[j]))
  {
    forall i, j | 0 <= i < j < |s| && p(s[i]) && p(s[j]) ensures false {
      CountTwo(s, i, j, p);
    }
  }

  /** After enough `Stop` calls have finished, some handler can take a step until all of them have returned. */
  lemma HandlersCanLeave(handlers: nat, stoppers: nat, steps: seq<Step>, s: State) returns (step: Step)
    requires Run(handlers, stoppers, steps, s) && stoppers > 0
    requires (forall t :: t in s.stoppers ==> t.Finished?) && handlers <= stoppers
    requires exists h :: h in s.handlers && NotGone(h)
    ensures Enabled(s, step) && OfHandler(step)
  {
    RunMutexInv(handlers, stoppers, steps, s);
    RunInv(handlers, stoppers, steps, s);
    AllFinished(s.stoppers);
    NoLostWakeup(handlers, stoppers, steps, s);
    CountNone(s.stoppers, StopperHolds);
    var i: nat;
    if s.locked {
      i := CountWitness(s.handlers, HandlerHolds);
    } else {
      var h :| h in s.handlers && NotGone(h);
      i :| i < |s.handlers| && s.handlers[i] == h;
      if HandlerHolds(h) {
        CountPositive(s.handlers, i, HandlerHolds);
      }
    }
    assert s.handlers[i] in s.handlers;
    step := match s.handlers[i]
      case Idle => Enter(i)
      case Subscribing => Subscribe(i)
      case Testing => Test(i)
      case Blocked => Wake(i)
      case Woken => Relock(i)
      case Leaving => Leave(i)
      case Gone => Leave(i);
  }

  lemma {:induction false} AllFinished(ts: seq<Stopper>)
    requires forall t :: t in ts ==> t.Finished?
    ensures Count(ts, IsFinished) == |ts|
  {
    if ts != [] {
      assert ts[|ts| - 1] in ts;
      AllFinished(ts[..|ts| - 1]);
    }
  }

  // ---------- fewer Stop calls than handlers ----------

  lemma ExecSnoc(s: State, steps: seq<Step>, step: Step)
    requires Exec(s, steps).Some? && Enabled(Exec(s, steps).value, step)
    ensures Exec(s, steps + [step]) == Some(Next(Exec(s, steps).value, step))
  {
    assert (steps + [step])[..|steps|] == steps;
  }

  /** The first `w` handlers woken, the next ones up to `b` blocked, the rest idle; the first `f` stoppers finished. */
  function Scene(handlers: nat, stoppers: nat, b: nat, w: nat): State
    requires w <= b <= handlers && w <= stoppers
  {
    State(false, w > 0, seq(handlers, i => if i < w then Woken else if i < b then Blocked else Idle),
          seq(stoppers, i => if i < w then Finished else Before))
  }

  lemma {:induction false} AllBlock(handlers: nat, stoppers: nat, b: nat) returns (steps: seq<Step>)
    requires b <= handlers
    ensures Run(handlers, stoppers, steps, Scene(handlers, stoppers, b, 0))
    decreases b
  {
    if b == 0 {
      steps := [];
      assert Start(handlers, stoppers) == Scene(handlers, stoppers, 0, 0);
    } else {
      var before := AllBlock(handlers, stoppers, b - 1);
      var start, h := Start(handlers, stoppers), b - 1;
      ExecSnoc(start, before, Enter(h));
      ExecSnoc(start, before + [Enter(h)], Subscribe(h));
      ExecSnoc(start, before + [Enter(h)] + [Subscribe(h)], Test(h));
      steps := before + [Enter(h)] + [Subscribe(h)] + [Test(h)];
      assert Exec(start, steps).value == Scene(handlers, stoppers, b, 0);
    }
  }

  lemma {:induction false} EachStopWakesOne(handlers: nat, stoppers: nat, w: nat) returns (steps: seq<Step>)
    requires w <= stoppers && w <= handlers
    ensures Run(handlers, stoppers, steps, Scene(handlers, stoppers, handlers, w))
    decreases w
  {
    if w == 0 {
      steps := AllBlock(handlers, stoppers, handlers);
    } else {
      var before := EachStopWakesOne(handlers, stoppers, w - 1);
      steps := OneStop(Start(handlers, stoppers), before, w - 1);
      assert Exec(Start(handlers, stoppers), steps).value == Scene(handlers, stoppers, handlers, w);
    }
  }

  /** One `Stop` from beginning to end, waking the handler with its own number. */
  lemma OneStop(start: State, before: seq<Step>, t: nat) returns (steps: seq<Step>)
    requires Exec(start, before).Some?
    requires var s := Exec(start, before).value;
             !s.locked && t < |s.stoppers| && t < |s.handlers| && s.stoppers[t].Before? && s.handlers[t].Blocked?
    ensures Exec(start, steps).Some?
    ensures var s := Exec(start, before).value;
            Exec(start, steps).value == State(false, true, s.handlers[t := Woken], s.stoppers[t := Finished])
  {
    ExecSnoc(start, before, StopLock(t));
    ExecSnoc(start, before + [StopLock(t)], StopSet(t));
    ExecSnoc(start, before + [StopLock(t)] + [StopSet(t)], StopUnlock(t));
    ExecSnoc(start, before + [StopLock(t)] + [StopSet(t)] + [StopUnlock(t)], Notify(t, Some(t)));
    steps := before + [StopLock(t)] + [StopSet(t)] + [StopUnlock(t)] + [Notify(t, Some(t))];
  }

  /** The bound is exact: with fewer `Stop` calls than handlers, all of them can finish and leave a handler blocked. */
  lemma TooFewStops(handlers: nat, stoppers: nat) returns (steps: seq<Step>, s: State)
    requires 0 < stoppers < handlers
    ensures Run(handlers, stoppers, steps, s)
    ensures s.stopRequested && (forall t :: t in s.stoppers ==> t.Finished?) && Blocked in s.handlers
  {
    steps := EachStopWakesOne(handlers, stoppers, stoppers);
    s := Scene(handlers, stoppers, handlers, stoppers);
    assert s.handlers[handlers - 1] == Blocked;
  }
}
