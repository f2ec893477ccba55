/**
 Any number of concurrent lookups, through any copies that share one cache, as a step machine.

 A lookup reads under the shared lock, releases it, takes the exclusive lock, looks again, calls the provider, replaces
 the map entry by entry, and looks a third time. One step is one access to the shared lock or map, or one provider
 call. Everything between two steps belongs to whichever lookup is scheduled next.
 */
module KeyCacheMachine {
  import opened Wrappers
  import opened JwkSet
  import opened KeyCache
  import opened Linearizability

  datatype Phase =
    | Entering                                    // before the shared lock
    | Reading                                     // shared lock held
    | HaveRead(found: Option<string>)             // shared lock held, looked
    | Upgrading                                   // shared lock released, before the exclusive lock
    | Rechecking                                  // exclusive lock held
    | Fetching                                    // exclusive lock held, missed twice
    | Replacing(target: Keys, todo: set<string>)  // exclusive lock held, in the middle of assigning the map
    | LookingAgain(fetched: Option<Keys>)         // exclusive lock held, update finished or its error swallowed
    | Leaving(outcome: Outcome)                   // exclusive lock held, on the way out
    | Done(outcome: Outcome)                      // no lock held
    | Finished(outcome: Outcome)                  // returned or thrown to the caller

  datatype Lookup = Lookup(kid: string, phase: Phase)

  datatype State = State(throwing: bool, data: Keys, readers: nat, writer: bool, lookups: seq<Lookup>)

  /** Whether an entry of the log was answered from the cache, or by a refresh that failed (None) or fetched a map. */
  datatype Source = FromCache | FromRefresh(fetched: Option<Keys>)

  type Logged = Entry<string, Source, Outcome>

  datatype Reply = Reply(id: nat, fetched: Option<Keys>)

  /** A state and what was observed on the way to it. No step depends on anything but the state. */
  datatype Trace = Trace(state: State, history: seq<Event<string, Outcome>>, log: seq<Logged>, replies: seq<Reply>)

  datatype Step =
    | Invoke(kid: string)
    | LockShared(id: nat)
    | FindShared(id: nat)
    | UnlockShared(id: nat)
    | LockExclusive(id: nat)
    | Recheck(id: nat)
    | CallProvider(id: nat, response: Response)
    | CopyEntry(id: nat, key: string)
    | EndCopy(id: nat)
    | FindAgain(id: nat)
    | UnlockExclusive(id: nat)
    | Deliver(id: nat)

  predicate Enabled(s: State, step: Step) {
    if step.Invoke? then true
    else
      && step.id < |s.lookups|
      && var phase := s.lookups[step.id].phase;
         match step
         case LockShared(_) => phase.Entering? && !s.writer
         case FindShared(_) => phase.Reading?
         case UnlockShared(_) => phase.HaveRead?
         case LockExclusive(_) => phase.Upgrading? && !s.writer && s.readers == 0
         case Recheck(_) => phase.Rechecking?
         case CallProvider(_, _) => phase.Fetching?
         case CopyEntry(_, key) => phase.Replacing? && key in phase.todo && key in phase.target
         case EndCopy(_) => phase.Replacing? && phase.todo == {}
         case FindAgain(_) => phase.LookingAgain?
         case UnlockExclusive(_) => phase.Leaving?
         case Deliver(_) => phase.Done?
  }

  function Look(data: Keys, kid: string): Option<string> {
    if kid in data then Some(data[kid]) else None
  }

  /** Where the acting lookup goes. */
  function PhaseAfter(s: State, step: Step): Phase
    requires Enabled(s, step) && !step.Invoke?
  {
    var l := s.lookups[step.id];
    match step
    case LockShared(_) => Reading
    case FindShared(_) => HaveRead(Look(s.data, l.kid))
    case UnlockShared(_) => if l.phase.found.Some? then Done(Value(l.phase.found.value)) else Upgrading
    case LockExclusive(_) => Rechecking
    case Recheck(_) => if l.kid in s.data then Leaving(Value(s.data[l.kid])) else Fetching
    case CallProvider(_, response) =>
      (match Fetch(response)
       case Some(keys) => Replacing(keys, keys.Keys)
       case None => if s.throwing then Leaving(Threw) else LookingAgain(None))
    case CopyEntry(_, key) => Replacing(l.phase.target, l.phase.todo - {key})
    case EndCopy(_) => LookingAgain(Some(l.phase.target))
    case FindAgain(_) => Leaving(Value(Find(s.data, l.kid)))
    case UnlockExclusive(_) => Done(l.phase.outcome)
    case Deliver(_) => Finished(l.phase.outcome)
  }

  /** The map: emptied at the start of an assignment, then filled entry by entry. */
  function DataAfter(s: State, step: Step): Keys
    requires Enabled(s, step)
  {
    match step
    case CallProvider(_, response) => if Fetch(response).Some? then map[] else s.data
    case CopyEntry(i, key) => s.data[key := s.lookups[i].phase.target[key]]
    case _ => s.data
  }

  /** The state after a step. */
  function Next(s: State, step: Step): State
    requires Enabled(s, step)
  {
    if step.Invoke? then s.(lookups := s.lookups + [Lookup(step.kid, Entering)])
    else
      State(
        s.throwing,
        DataAfter(s, step),
        if step.LockShared? then s.readers + 1
        else if step.UnlockShared? && s.readers > 0 then s.readers - 1
        else s.readers,
        if step.LockExclusive? then true else if step.UnlockExclusive? then false else s.writer,
        s.lookups[step.id := Lookup(s.lookups[step.id].kid, PhaseAfter(s, step))])
  }

  /** Calls and returns, as the callers see them. */
  function Seen(s: State, step: Step): seq<Event<string, Outcome>>
    requires Enabled(s, step)
  {
    match step
    case Invoke(kid) => [Event.Call(|s.lookups|, kid)]
    case Deliver(i) => [Event.Return(i, s.lookups[i].phase.outcome)]
    case _ => []
  }

  /** The operations that take effect with this step. */
  function Committing(s: State, step: Step): seq<Logged>
    requires Enabled(s, step)
  {
    if step.Invoke? then []
    else
      var i, kid, phase := step.id, s.lookups[step.id].kid, s.lookups[step.id].phase;
      match step
      case FindShared(_) => if kid in s.data then [Entry(i, kid, FromCache, Value(s.data[kid]))] else []
      case Recheck(_) => if kid in s.data then [Entry(i, kid, FromCache, Value(s.data[kid]))] else []
      case CallProvider(_, response) =>
        if Fetch(response).None? && s.throwing then [Entry(i, kid, FromRefresh(None), Threw)] else []
      case FindAgain(_) => [Entry(i, kid, FromRefresh(phase.fetched), Value(Find(s.data, kid)))]
      case _ => []
  }

  function Replying(step: Step): seq<Reply> {
    if step.CallProvider? then [Reply(step.id, Fetch(step.response))] else []
  }

  function After(t: Trace, step: Step): Trace
    requires Enabled(t.state, step)
  {
    Trace(
      Next(t.state, step),
      t.history + Seen(t.state, step),
      t.log + Committing(t.state, step),
      t.replies + Replying(step))
  }

  /** Executes the steps one after the other; None when one of them is not enabled. */
  function Exec(t: Trace, steps: seq<Step>): Option<Trace> {
    if steps == [] then Some(t)
    else
      match Exec(t, steps[..|steps| - 1])
      case None => None
      case Some(t') => if Enabled(t'.state, steps[|steps| - 1]) then Some(After(t', steps[|steps| - 1])) else None
  }

  /** Right after construction with cache contents `data`. */
  function Start(data: Keys, throwing: bool): Trace {
    Trace(State(throwing, data, 0, false, []), [], [], [])
  }

  /** A run of the provider: constructed from `first`, then the given steps. */
  ghost predicate Run(first: Response, throwing: bool, steps: seq<Step>, t: Trace) {
    && Constructed(first, throwing).Some?
    && Exec(Start(Constructed(first, throwing).value, throwing), steps) == Some(t)
  }

  // ---------- the sequential object ----------

  /** The log is a sequential execution of atomic lookups; its result is the cache after them. */
  function Replay(data: Keys, log: seq<Logged>, throwing: bool): Option<Keys> {
    if log == [] then Some(data)
    else
      var e := log[|log| - 1];
      match Replay(data, log[..|log| - 1], throwing)
      case None => None
      case Some(d) =>
        var (d', outcome) := AtomicLookup(d, e.arg, if e.env.FromCache? then None else e.env.fetched, throwing);
        if outcome == e.res && (e.env.FromCache? <==> e.arg in d) then Some(d') else None
  }

  // ---------- how steps are grouped ----------

  predicate HoldsShared(l: Lookup) {
    l.phase.Reading? || l.phase.HaveRead?
  }

  predicate HoldsExclusive(l: Lookup) {
    l.phase.Rechecking? || l.phase.Fetching? || l.phase.Replacing? || l.phase.LookingAgain? || l.phase.Leaving?
  }

  function StageOf(l: Lookup): Stage<Outcome> {
    match l.phase
    case HaveRead(Some(v)) => Committed(Value(v))
    case Leaving(o) => Committed(o)
    case Done(o) => Committed(o)
    case Finished(o) => Returned(o)
    case _ => Pending
  }
}
