/**
 Two services: the first stores an entity and then reports it to the second one by a retried HTTP PUT, as set up in
 notifier/http/README.md:9-17.

 The retry hook is a library call. It may repeat an attempt that did not end well, up to `max_retry_count` times, and
 may give up after any of them. Requests and responses may be lost, a request may be applied without its response
 arriving, and either repository may throw, with or without having stored.
 */
module Replication {
  import opened Wrappers
  import opened Repository
  import opened EntityService
  import opened Counting

  // ---------- the notifier, with nothing else going on ----------

  /** What happens to one attempt: lost on the way, or handled by the other service and answered or not. */
  datatype Fate = RequestLost | Handled(repo: RepoFate, answered: bool)

  /** The attempt changes the other service, if the id is acceptable. */
  predicate Reaches(fate: Fate) {
    fate.Handled? && fate.repo != RepoThrows(false)
  }

  /** The attempt is answered by a success, if the id is acceptable. */
  predicate Succeeds(fate: Fate) {
    fate == Handled(RepoReturns, true)
  }

  class HttpNotifier {
    const server: HttpHandler
    const maxRetryCount: nat

    constructor (server: HttpHandler, maxRetryCount: nat)
      ensures this.server == server && this.maxRetryCount == maxRetryCount
    {
      this.server, this.maxRetryCount := server, maxRetryCount;
    }

    /**
     Reports the entity; `ok` is false when it throws, which is after as many attempts as the hook is willing to make.
     The other service then holds the entity or is as before; for an id that it does not accept it is as before.
     */
    method EntityChanged(e: Entity, fates: seq<Fate>) returns (ok: bool, attempts: nat)
      requires server.api.Valid() && server.api.repo != null && !server.api.hasNotifier
      requires 1 <= |fates| <= maxRetryCount + 1
      modifies server.api.repo
      ensures server.api.Valid() && 1 <= attempts <= |fates|
      ensures var told := exists k :: 0 <= k < attempts && Reaches(fates[k]);
              var before := old(server.api.repo.data);
              server.api.repo.data == if told && Acceptable(e.id) then Upsert(before, e) else before
      ensures ok <==> Acceptable(e.id) && Succeeds(fates[attempts - 1])
      ensures forall k :: 0 <= k < attempts - 1 ==> !(Acceptable(e.id) && Succeeds(fates[k]))
      ensures !ok ==> attempts == |fates|
    {
      var repo := server.api.repo;
      ghost var before := repo.data;
      ok, attempts := false, 0;
      while !ok && attempts < |fates|
        invariant server.api.Valid() && attempts <= |fates| && (ok ==> attempts > 0)
        invariant var told := exists k :: 0 <= k < attempts && Reaches(fates[k]);
                  repo.data == if told && Acceptable(e.id) then Upsert(before, e) else before
        invariant attempts > 0 ==> (ok <==> Acceptable(e.id) && Succeeds(fates[attempts - 1]))
        invariant forall k :: 0 <= k < attempts - 1 ==> !(Acceptable(e.id) && Succeeds(fates[k]))
        decreases |fates| - attempts
      {
        var fate := fates[attempts];
        if fate.Handled? {
          NotificationAccepted(repo.data, fate.repo, e);
          var path := NotificationPath(e.id);
          assert path[..8] == "/Entity/" && path[8..] == e.id;
          assert Upsert(Upsert(before, e), e) == Upsert(before, e);
          if OneLine(e.id) {
            var status := server.SetEntity(path, Some(ToJson(e)), fate.repo, true);
            ok := fate.answered && status.Ok?;
          }
        }
        attempts := attempts + 1;
      }
    }
  }

  // ---------- concurrent calls over a lossy network ----------

  datatype Phase =
    | Arrived                     // in SetEntity of the first service's core
    | Rejected                    // invalid id
    | StoreFailed(applied: bool)  // the first repository threw
    | Notifying                   // stored, between attempts
    | Awaiting                    // stored, an attempt's response outstanding
    | Succeeded                   // SetEntity returned normally
    | GaveUp                      // EntityChanged threw

  datatype SetCall = SetCall(e: Entity, attempts: nat, phase: Phase)

  datatype Packet = Packet(call: nat, attempt: nat)

  datatype State = State(
    maxRetry: nat,
    primary: Table,
    replica: Table,
    calls: seq<SetCall>,
    wire: set<Packet>,               // requests under way
    responses: map<Packet, Status>)  // responses under way

  datatype Step =
    | Invoke(e: Entity)
    | Store(id: nat, fate: RepoFate)
    | Send(id: nat)
    | Drop(packet: Packet)
    | Deliver(packet: Packet, fate: RepoFate)
    | Receive(id: nat)
    | TimeOut(id: nat)
    | GiveUp(id: nat)

  predicate Active(c: SetCall) {
    c.phase.Arrived? || c.phase.Notifying? || c.phase.Awaiting?
  }

  predicate Stored(c: SetCall) {
    !c.phase.Arrived? && !c.phase.Rejected? && c.phase != StoreFailed(false)
  }

  predicate Enabled(s: State, step: Step) {
    match step
    case Invoke(e) => true
    case Store(i, _) => i < |s.calls| && s.calls[i].phase.Arrived?
    case Send(i) => i < |s.calls| && s.calls[i].phase.Notifying? && s.calls[i].attempts <= s.maxRetry
    case Drop(p) => p in s.wire
    case Deliver(p, _) => p in s.wire && p.call < |s.calls|
    case Receive(i) => i < |s.calls| && s.calls[i].phase.Awaiting? && Packet(i, s.calls[i].attempts) in s.responses
    case TimeOut(i) => i < |s.calls| && s.calls[i].phase.Awaiting?
    case GiveUp(i) => i < |s.calls| && s.calls[i].phase.Notifying? && s.calls[i].attempts > 0
  }

  /** What the second service makes of a request. */
  function HandleRequest(replica: Table, fate: RepoFate, e: Entity): (Table, Status) {
    Put(replica, Backend(fate, NoNotifier), NotificationPath(e.id), Some(ToJson(e)))
  }

  function PhaseAfterStore(e: Entity, fate: RepoFate): Phase {
    if e.id == "" then Rejected
    else match fate
      case RepoReturns => Notifying
      case RepoThrows(applied) => StoreFailed(applied)
  }

  function SetPhase(s: State, i: nat, phase: Phase): State
    requires i < |s.calls|
  {
    s.(calls := s.calls[i := s.calls[i].(phase := phase)])
  }

  function Next(s: State, step: Step): State
    requires Enabled(s, step)
  {
    match step
    case Invoke(e) => s.(calls := s.calls + [SetCall(e, 0, Arrived)])
    case Store(i, fate) =>
      var e := s.calls[i].e;
      SetPhase(s, i, PhaseAfterStore(e, fate))
      .(primary := if e.id == "" || fate == RepoThrows(false) then s.primary else Upsert(s.primary, e))
    case Send(i) =>
      var n := s.calls[i].attempts + 1;
      s.(calls := s.calls[i := s.calls[i].(attempts := n, phase := Awaiting)], wire := s.wire + {Packet(i, n)})
    case Drop(p) => s.(wire := s.wire - {p})
    case Deliver(p, fate) =>
      var (replica, status) := HandleRequest(s.replica, fate, s.calls[p.call].e);
      s.(replica := replica, wire := s.wire - {p}, responses := s.responses[p := status])
    case Receive(i) =>
      SetPhase(s, i, if s.responses[Packet(i, s.calls[i].attempts)].Ok? then Succeeded else Notifying)
    case TimeOut(i) => SetPhase(s, i, Notifying)
    case GiveUp(i) => SetPhase(s, i, GaveUp)
  }

  function Exec(s: State, steps: seq<Step>): Option<State> {
    if steps == [] then Some(s)
    else
      match Exec(s, steps[..|steps| - 1])
      case None => None
      case Some(s') => if Enabled(s', steps[|steps| - 1]) then Some(Next(s', steps[|steps| - 1])) else None
  }

  function Start(maxRetry: nat): State {
    State(maxRetry, map[], map[], [], {}, map[])
  }

  ghost predicate Run(maxRetry: nat, steps: seq<Step>, s: State) {
    Exec(Start(maxRetry), steps) == Some(s)
  }

  // ---------- what a run did to an id ----------

  /** The step makes the first service hold its call's entity under `id`. */
  predicate Stores(s: State, step: Step, id: string) {
    step.Store? && step.id < |s.calls| && s.calls[step.id].e.id == id && id != "" && step.fate != RepoThrows(false)
  }

  /** The step makes the second service hold its packet's entity under `id`. */
  predicate Applies(s: State, step: Step, id: string) {
    && step.Deliver? && step.packet.call < |s.calls| && s.calls[step.packet.call].e.id == id
    && Acceptable(id) && step.fate != RepoThrows(false)
  }

  /** The call that stored last under `id` in this run. */
  function LastStore(s: State, steps: seq<Step>, id: string): Option<nat> {
    if steps == [] then None
    else
      var n := |steps| - 1;
      if Exec(s, steps[..n]).Some? && Stores(Exec(s, steps[..n]).value, steps[n], id) then Some(steps[n].id)
      else LastStore(s, steps[..n], id)
  }

  /** The call whose request was applied last under `id` in this run. */
  function LastApplied(s: State, steps: seq<Step>, id: string): Option<nat> {
    if steps == [] then None
    else
      var n := |steps| - 1;
      if Exec(s, steps[..n]).Some? && Applies(Exec(s, steps[..n]).value, steps[n], id) then Some(steps[n].packet.call)
      else LastApplied(s, steps[..n], id)
  }

  function EntityOf(s: State, call: Option<nat>): Option<Entity> {
    if call.Some? && call.value < |s.calls| then Some(s.calls[call.value].e) else None
  }

  // ---------- what every run keeps ----------

  /** A packet under way belongs to a stored call; an accepting response belongs to an acceptable id. */
  ghost predicate PacketsInv(s: State) {
    && (forall p :: p in s.wire ==> p.call < |s.calls| && Stored(s.calls[p.call]))
    && (forall p :: p in s.responses ==> p.call < |s.calls| && Stored(s.calls[p.call]))
    && (forall p :: p in s.responses && s.responses[p].Ok? ==> Acceptable(s.calls[p.call].e.id))
  }

  ghost predicate CallsInv(s: State) {
    forall c :: c in s.calls ==> c.attempts <= s.maxRetry + 1 && (c.phase.Succeeded? ==> Acceptable(c.e.id))
  }

  lemma CallsFrame(s: State, step: Step, i: nat)
    requires Enabled(s, step) && i < |s.calls|
    ensures i < |Next(s, step).calls| && Next(s, step).calls[i].e == s.calls[i].e
    ensures Stored(s.calls[i]) ==> Stored(Next(s, step).calls[i])
    ensures !Active(s.calls[i]) ==> Next(s, step).calls[i] == s.calls[i]
    ensures Stored(Next(s, step).calls[i]) ==> Stored(s.calls[i]) || (step.Store? && step.id == i)
  {
  }

  lemma PacketsInvStep(s: State, step: Step)
    requires PacketsInv(s) && Enabled(s, step)
    ensures PacketsInv(Next(s, step))
  {
    var s' := Next(s, step);
    if step.Deliver? {
      NotificationAccepted(s.replica, step.fate, s.calls[step.packet.call].e);
    }
    forall p | p in s'.wire || p in s'.responses ensures p.call < |s'.calls| && Stored(s'.calls[p.call]) {
      if p in s.wire || p in s.responses {
        CallsFrame(s, step, p.call);
      }
    }
    forall p | p in s'.responses && s'.responses[p].Ok? ensures Acceptable(s'.calls[p.call].e.id) {
      CallsFrame(s, step, p.call);
    }
  }

  lemma CallsInvStep(s: State, step: Step)
    requires PacketsInv(s) && CallsInv(s) && Enabled(s, step)
    ensures CallsInv(Next(s, step))
  {
    if !step.Invoke? && !step.Drop? && !step.Deliver? {
      assert s.calls[step.id] in s.calls;
    }
  }

  lemma {:induction false} RunInv(maxRetry: nat, steps: seq<Step>, s: State)
    requires Run(maxRetry, steps, s)
    ensures PacketsInv(s) && CallsInv(s) && s.maxRetry == maxRetry
    decreases |steps|
  {
    if steps != [] {
      var n := |steps| - 1;
      var m := Exec(Start(maxRetry), steps[..n]).value;
      RunInv(maxRetry, steps[..n], m);
      PacketsInvStep(m, steps[n]);
      CallsInvStep(m, steps[n]);
    }
  }

  /** The rows of `id` are the entities of the calls `a` and `b`. */
  ghost predicate RowsAre(s: State, id: string, a: Option<nat>, b: Option<nat>) {
    && (a.Some? ==> a.value < |s.calls| && s.calls[a.value].e.id == id && Stored(s.calls[a.value]))
    && (b.Some? ==> b.value < |s.calls| && s.calls[b.value].e.id == id && Stored(s.calls[b.value]) && Acceptable(id))
    && Row(s.primary, id) == EntityOf(s, a)
    && Row(s.replica, id) == EntityOf(s, b)
  }

  lemma RowsStep(s: State, step: Step, id: string, a: Option<nat>, b: Option<nat>)
    requires PacketsInv(s) && RowsAre(s, id, a, b) && Enabled(s, step)
    ensures RowsAre(Next(s, step), id, if Stores(s, step, id) then Some(step.id) else a,
                    if Applies(s, step, id) then Some(step.packet.call) else b)
  {
    if a.Some? {
      CallsFrame(s, step, a.value);
    }
    if b.Some? {
      CallsFrame(s, step, b.value);
    }
    if step.Deliver? {
      NotificationAccepted(s.replica, step.fate, s.calls[step.packet.call].e);
      assert Stored(s.calls[step.packet.call]);
    }
  }

  /** In every run and for every id, the tables hold the entity stored last and the entity applied last. */
  lemma {:induction false} TablesExactly(maxRetry: nat, steps: seq<Step>, s: State, id: string)
    requires Run(maxRetry, steps, s)
    ensures var start := Start(maxRetry); RowsAre(s, id, LastStore(start, steps, id), LastApplied(start, steps, id))
    decreases |steps|
  {
    if steps != [] {
      var n := |steps| - 1;
      var start := Start(maxRetry);
      var m := Exec(start, steps[..n]).value;
      TablesExactly(maxRetry, steps[..n], m, id);
      RunInv(maxRetry, steps[..n], m);
      RowsStep(m, steps[n], id, LastStore(start, steps[..n], id), LastApplied(start, steps[..n], id));
    }
  }

  /** A stored call has stored, or been followed by another one on its id. */
  lemma {:induction false} StoredCallsCount(maxRetry: nat, steps: seq<Step>, s: State, i: nat)
    requires Run(maxRetry, steps, s) && i < |s.calls| && Stored(s.calls[i])
    ensures LastStore(Start(maxRetry), steps, s.calls[i].e.id).Some?
    decreases |steps|
  {
    var n := |steps| - 1;
    var m := Exec(Start(maxRetry), steps[..n]).value;
    if i < |m.calls| {
      CallsFrame(m, steps[n], i);
      if Stored(m.calls[i]) {
        StoredCallsCount(maxRetry, steps[..n], m, i);
      }
    }
  }

  // ---------- what a call has been through ----------

  /** The call had its one `Store` step, with this fate of the repository. */
  ghost predicate StoredOnce(steps: seq<Step>, i: nat, fate: RepoFate) {
    Store(i, fate) in steps && forall f :: Store(i, f) in steps ==> f == fate
  }

  /** The call goes on to notify only when its own store returned; one whose store threw stops there. */
  ghost predicate CallExplained(steps: seq<Step>, i: nat, c: SetCall) {
    && (match c.phase
        case Arrived => forall f :: Store(i, f) !in steps
        case Rejected => c.e.id == "" && exists f :: StoredOnce(steps, i, f)
        case StoreFailed(applied) => c.e.id != "" && StoredOnce(steps, i, RepoThrows(applied))
        case _ => c.e.id != "" && StoredOnce(steps, i, RepoReturns))
    && (c.phase.Succeeded? ==> Receive(i) in steps && Deliver(Packet(i, c.attempts), RepoReturns) in steps)
    && (c.phase.GaveUp? ==> GiveUp(i) in steps && c.attempts > 0)
    && c.attempts == Count(steps, (step: Step) => step == Send(i))
  }

  /** A request or response under way belongs to a call whose own store returned, and to one of its attempts. */
  ghost predicate PacketsExplained(steps: seq<Step>, s: State) {
    && (forall p :: p in s.wire || p in s.responses ==>
          && p.call < |s.calls| && StoredOnce(steps, p.call, RepoReturns)
          && 1 <= p.attempt <= s.calls[p.call].attempts)
    && (forall p :: p in s.responses && s.responses[p].Ok? ==> Deliver(p, RepoReturns) in steps)
    && (forall i: nat, f :: Store(i, f) in steps ==> i < |s.calls|)
    && (forall i: nat :: Send(i) in steps ==> i < |s.calls|)
  }

  lemma CallExplainedStep(steps: seq<Step>, s: State, step: Step, i: nat)
    requires Enabled(s, step) && i < |s.calls| && CallExplained(steps, i, s.calls[i]) && PacketsExplained(steps, s)
    ensures CallExplained(steps + [step], i, Next(s, step).calls[i])
  {
    CountAppend(steps, step, (x: Step) => x == Send(i));
    var c := Next(s, step).calls[i];
    if step.Store? && step.id == i {
      assert StoredOnce(steps + [step], i, step.fate);
    } else if c.phase.Rejected? {
      var f :| StoredOnce(steps, i, f);
      assert StoredOnce(steps + [step], i, f);
    }
    if step == Receive(i) {
      assert Packet(i, s.calls[i].attempts) in s.responses;
    }
  }

  lemma PacketsExplainedStep(steps: seq<Step>, s: State, step: Step)
    requires Enabled(s, step) && PacketsExplained(steps, s)
    requires forall i :: 0 <= i < |s.calls| ==> CallExplained(steps, i, s.calls[i])
    ensures PacketsExplained(steps + [step], Next(s, step))
  {
    var s' := Next(s, step);
    forall p | p in s'.wire || p in s'.responses
      ensures p.call < |s'.calls| && StoredOnce(steps + [step], p.call, RepoReturns)
      ensures 1 <= p.attempt <= s'.calls[p.call].attempts
      ensures p in s'.responses && s'.responses[p].Ok? ==> Deliver(p, RepoReturns) in steps + [step]
    {
      PacketExplainedStep(steps, s, step, p);
    }
  }

  lemma PacketExplainedStep(steps: seq<Step>, s: State, step: Step, p: Packet)
    requires Enabled(s, step) && PacketsExplained(steps, s)
    requires forall i :: 0 <= i < |s.calls| ==> CallExplained(steps, i, s.calls[i])
    requires p in Next(s, step).wire || p in Next(s, step).responses
    ensures var s' := Next(s, step);
            && p.call < |s'.calls| && StoredOnce(steps + [step], p.call, RepoReturns)
            && 1 <= p.attempt <= s'.calls[p.call].attempts
            && (p in s'.responses && s'.responses[p].Ok? ==> Deliver(p, RepoReturns) in steps + [step])
  {
    if step.Deliver? {
      NotificationAccepted(s.replica, step.fate, s.calls[step.packet.call].e);
    }
    if p in s.wire || p in s.responses {
      assert StoredOnce(steps, p.call, RepoReturns);
      CallsFrame(s, step, p.call);
      assert CallExplained(steps, p.call, s.calls[p.call]);
      assert !(step.Store? && step.id == p.call);
    } else {
      assert step == Send(p.call);
      assert CallExplained(steps, p.call, s.calls[p.call]);
    }
  }

  lemma {:induction false} NoneCounted(steps: seq<Step>, step: Step)
    requires step !in steps
    ensures Count(steps, (x: Step) => x == step) == 0
  {
    if steps != [] {
      NoneCounted(steps[..|steps| - 1], step);
    }
  }

  /**
   What every call of every run has been through: it notifies, and returns normally or gives up, only after its own
   store returned; one whose store threw stops there and never has a request or response under way; it returns normally
   only when the second service's repository returned for the request of its current attempt; and it has made one
   attempt for each `Send`.
   */
  lemma {:induction false} CallsExactly(maxRetry: nat, steps: seq<Step>, s: State)
    requires Run(maxRetry, steps, s)
    ensures forall i :: 0 <= i < |s.calls| ==> CallExplained(steps, i, s.calls[i])
    ensures PacketsExplained(steps, s)
    ensures forall i :: 0 <= i < |s.calls| && s.calls[i].phase.StoreFailed? ==>
              forall p :: p in s.wire || p in s.responses ==> p.call != i
    decreases |steps|
  {
    if steps != [] {
      var n := |steps| - 1;
      var m := Exec(Start(maxRetry), steps[..n]).value;
      CallsExactly(maxRetry, steps[..n], m);
      assert steps == steps[..n] + [steps[n]];
      PacketsExplainedStep(steps[..n], m, steps[n]);
      forall i | 0 <= i < |s.calls| ensures CallExplained(steps, i, s.calls[i]) {
        if i < |m.calls| {
          CallExplainedStep(steps[..n], m, steps[n], i);
        } else {
          NoneCounted(steps, Send(i));
        }
      }
    }
  }

  /** A call whose store threw, with a non-empty id, stays failed in every continuation. */
  lemma StoreThatThrewStops(maxRetry: nat, steps: seq<Step>, s: State, i: nat, applied: bool)
    requires Run(maxRetry, steps, s) && Store(i, RepoThrows(applied)) in steps
    ensures i < |s.calls| && (s.calls[i].e.id != "" ==> s.calls[i].phase == StoreFailed(applied))
  {
    CallsExactly(maxRetry, steps, s);
    assert CallExplained(steps, i, s.calls[i]);
  }

  // ---------- when the services agree ----------

  /**
   Replica agreement, exactly: in every run of any calls over any network, the services agree on an id if and only if
   the request applied last on it carries the entity stored last, or neither has happened.
   */
  lemma AgreementExactly(maxRetry: nat, steps: seq<Step>, s: State, id: string)
    requires Run(maxRetry, steps, s)
    ensures var start := Start(maxRetry);
            Row(s.primary, id) == Row(s.replica, id)
            <==> EntityOf(s, LastStore(start, steps, id)) == EntityOf(s, LastApplied(start, steps, id))
  {
    TablesExactly(maxRetry, steps, s, id);
  }

  /** Whenever a request is applied, its call is the one that stored last on the id. */
  predicate InOrder(s: State, steps: seq<Step>) {
    steps == [] ||
    var n := |steps| - 1;
    && InOrder(s, steps[..n])
    && (Exec(s, steps[..n]).Some? ==> StepInOrder(s, steps[..n], Exec(s, steps[..n]).value, steps[n]))
  }

  predicate StepInOrder(start: State, before: seq<Step>, s: State, step: Step) {
    step.Deliver? && step.packet.call < |s.calls| ==>
      var id := s.calls[step.packet.call].e.id;
      Applies(s, step, id) ==> LastStore(start, before, id) == Some(step.packet.call)
  }

  /** The second service has accepted a request of call `i`. */
  ghost predicate Acknowledged(s: State, i: nat) {
    && i < |s.calls|
    && (s.calls[i].phase.Succeeded? || exists p :: p in s.responses && p.call == i && s.responses[p].Ok?)
  }

  lemma AcknowledgedBefore(s: State, step: Step, i: nat)
    requires Enabled(s, step) && i < |s.calls| && Acknowledged(Next(s, step), i)
    ensures Acknowledged(s, i) || (step.Deliver? && step.packet.call == i && Applies(s, step, s.calls[i].e.id))
  {
    var s' := Next(s, step);
    if step.Deliver? {
      NotificationAccepted(s.replica, step.fate, s.calls[step.packet.call].e);
    }
    if s'.calls[i].phase.Succeeded? {
      if step == Receive(i) {
        assert Packet(i, s.calls[i].attempts) in s.responses;
      }
    } else {
      var p :| p in s'.responses && p.call == i && s'.responses[p].Ok?;
      assert p in s.responses || (step.Deliver? && p == step.packet);
    }
  }

  lemma NothingSentYet(s: State, i: nat)
    requires PacketsInv(s) && i < |s.calls| && s.calls[i].phase.Arrived?
    ensures !Acknowledged(s, i)
  {
  }

  lemma {:induction false} AcknowledgedIsApplied(maxRetry: nat, steps: seq<Step>, s: State, id: string, i: nat)
    requires Run(maxRetry, steps, s) && InOrder(Start(maxRetry), steps)
    requires LastStore(Start(maxRetry), steps, id) == Some(i) && Acknowledged(s, i)
    ensures LastApplied(Start(maxRetry), steps, id) == Some(i)
    decreases |steps|
  {
    var n := |steps| - 1;
    var start := Start(maxRetry);
    var m := Exec(start, steps[..n]).value;
    RunInv(maxRetry, steps[..n], m);
    TablesExactly(maxRetry, steps, s, id);
    if Stores(m, steps[n], id) {
      NothingSentYet(m, i);
      AcknowledgedBefore(m, steps[n], i);
    } else {
      TablesExactly(maxRetry, steps[..n], m, id);
      AcknowledgedBefore(m, steps[n], i);
      if Acknowledged(m, i) {
        AcknowledgedIsApplied(maxRetry, steps[..n], m, id, i);
      }
    }
  }

  /**
   Replica agreement: when requests are applied in order, an id whose last store was by a call that returned normally
   has that call's entity in both services.
   */
  lemma ReplicaAgreement(maxRetry: nat, steps: seq<Step>, s: State, id: string, i: nat)
    requires Run(maxRetry, steps, s) && InOrder(Start(maxRetry), steps)
    requires LastStore(Start(maxRetry), steps, id) == Some(i) && i < |s.calls| && s.calls[i].phase.Succeeded?
    ensures Row(s.primary, id) == Row(s.replica, id) == Some(s.calls[i].e)
  {
    TablesExactly(maxRetry, steps, s, id);
    AcknowledgedIsApplied(maxRetry, steps, s, id, i);
  }

  // ---------- serial calls and timely requests ----------

  /** A request takes effect while its call is in progress, or never. */
  predicate Timely(s: State, step: Step) {
    step.Deliver? && step.packet.call < |s.calls| ==> Active(s.calls[step.packet.call])
  }

  /** No call is made while another one on the same id is in progress. */
  predicate Serial(s: State, step: Step) {
    step.Invoke? ==> forall c :: c in s.calls && c.e.id == step.e.id ==> !Active(c)
  }

  /** Every step of the run meets `ok` in the state in which it is taken. */
  predicate Always(s: State, steps: seq<Step>, ok: (State, Step) -> bool) {
    steps == [] ||
    var n := |steps| - 1;
    && Always(s, steps[..n], ok)
    && (Exec(s, steps[..n]).Some? ==> ok(Exec(s, steps[..n]).value, steps[n]))
  }

  /** Of two calls on one id at most one is in progress. */
  ghost predicate SerialInv(s: State) {
    forall i, j :: 0 <= i < j < |s.calls| && s.calls[i].e.id == s.calls[j].e.id ==>
      !Active(s.calls[i]) || !Active(s.calls[j])
  }

  lemma SerialInvStep(s: State, step: Step)
    requires SerialInv(s) && Enabled(s, step) && Serial(s, step)
    ensures SerialInv(Next(s, step))
  {
    var s' := Next(s, step);
    forall i, j | 0 <= i < j < |s'.calls| && s'.calls[i].e.id == s'.calls[j].e.id
      ensures !Active(s'.calls[i]) || !Active(s'.calls[j])
    {
      CallsFrame(s, step, i);
      if j < |s.calls| {
        CallsFrame(s, step, j);
      }
    }
  }

  lemma {:induction false} SerialRunInv(maxRetry: nat, steps: seq<Step>, s: State)
    requires Run(maxRetry, steps, s) && Always(Start(maxRetry), steps, Serial)
    ensures SerialInv(s)
    decreases |steps|
  {
    if steps != [] {
      var n := |steps| - 1;
      var m := Exec(Start(maxRetry), steps[..n]).value;
      SerialRunInv(maxRetry, steps[..n], m);
      SerialInvStep(m, steps[n]);
    }
  }

  /** While a stored call is in progress, no other call stores on its id. */
  lemma StoresAlone(s: State, step: Step, i: nat)
    requires SerialInv(s) && Enabled(s, step) && i < |Next(s, step).calls|
    requires Stored(Next(s, step).calls[i]) && Active(Next(s, step).calls[i])
    ensures i < |s.calls| && Next(s, step).calls[i].e == s.calls[i].e && Active(s.calls[i])
    ensures if step.Store? && step.id == i then Stores(s, step, s.calls[i].e.id)
            else Stored(s.calls[i]) && !Stores(s, step, s.calls[i].e.id)
  {
    if i < |s.calls| {
      CallsFrame(s, step, i);
    }
  }

  /** With serial calls, a stored call in progress is the one that stored last on its id. */
  lemma {:induction false} ActiveStoredLast(maxRetry: nat, steps: seq<Step>, s: State, i: nat)
    requires Run(maxRetry, steps, s) && Always(Start(maxRetry), steps, Serial)
    requires i < |s.calls| && Stored(s.calls[i]) && Active(s.calls[i])
    ensures LastStore(Start(maxRetry), steps, s.calls[i].e.id) == Some(i)
    decreases |steps|
  {
    var n := |steps| - 1;
    var m := Exec(Start(maxRetry), steps[..n]).value;
    SerialRunInv(maxRetry, steps[..n], m);
    StoresAlone(m, steps[n], i);
    if !(steps[n].Store? && steps[n].id == i) {
      ActiveStoredLast(maxRetry, steps[..n], m, i);
    }
  }

  /** Serial calls and timely requests are applied in order. */
  lemma {:induction false} SerialTimelyInOrder(maxRetry: nat, steps: seq<Step>, s: State)
    requires Run(maxRetry, steps, s)
    requires Always(Start(maxRetry), steps, Serial) && Always(Start(maxRetry), steps, Timely)
    ensures InOrder(Start(maxRetry), steps)
    decreases |steps|
  {
    if steps != [] {
      var n := |steps| - 1;
      var m := Exec(Start(maxRetry), steps[..n]).value;
      SerialTimelyInOrder(maxRetry, steps[..n], m);
      if steps[n].Deliver? {
        RunInv(maxRetry, steps[..n], m);
        ActiveStoredLast(maxRetry, steps[..n], m, steps[n].packet.call);
      }
    }
  }

  /** Replica agreement in the runs that keep calls on one id serial and requests within their calls. */
  lemma SerialTimelyAgreement(maxRetry: nat, steps: seq<Step>, s: State, id: string, i: nat)
    requires Run(maxRetry, steps, s)
    requires Always(Start(maxRetry), steps, Serial) && Always(Start(maxRetry), steps, Timely)
    requires LastStore(Start(maxRetry), steps, id) == Some(i) && i < |s.calls| && s.calls[i].phase.Succeeded?
    ensures Row(s.primary, id) == Row(s.replica, id) == Some(s.calls[i].e)
  {
    SerialTimelyInOrder(maxRetry, steps, s);
    ReplicaAgreement(maxRetry, steps, s, id, i);
  }

  // ---------- more about every run ----------

  ghost predicate StoredBefore(s: State, e: Entity) {
    exists c :: c in s.calls && Stored(c) && c.e == e
  }

  /** Every entity in the second service was stored at the first one before, in every run. */
  lemma ReplicaFollows(maxRetry: nat, steps: seq<Step>, s: State, id: string)
    requires Run(maxRetry, steps, s) && id in s.replica
    ensures s.replica[id].id == id && StoredBefore(s, s.replica[id]) && id in s.primary
  {
    TablesExactly(maxRetry, steps, s, id);
    var i := LastApplied(Start(maxRetry), steps, id).value;
    assert s.calls[i] in s.calls;
    StoredCallsCount(maxRetry, steps, s, i);
  }

  /** No call makes more than `maxRetry + 1` attempts. */
  lemma AttemptsAreBounded(maxRetry: nat, steps: seq<Step>, s: State, i: nat)
    requires Run(maxRetry, steps, s) && i < |s.calls|
    ensures s.calls[i].attempts <= maxRetry + 1
  {
    RunInv(maxRetry, steps, s);
    assert s.calls[i] in s.calls;
  }

  /** An id with a slash or a line break is never reported as notified, and never reaches the second service. */
  lemma UnsafeIdNeverNotified(maxRetry: nat, steps: seq<Step>, s: State, i: nat)
    requires Run(maxRetry, steps, s) && i < |s.calls| && !PathSafe(s.calls[i].e.id)
    ensures !s.calls[i].phase.Succeeded?
    ensures s.calls[i].e.id !in s.replica
  {
    RunInv(maxRetry, steps, s);
    assert s.calls[i] in s.calls;
    TablesExactly(maxRetry, steps, s, s.calls[i].e.id);
  }

  // ---------- both conditions are needed ----------

  lemma ExecSnoc(s: State, steps: seq<Step>, step: Step)
    requires Exec(s, steps).Some? && Enabled(Exec(s, steps).value, step)
    ensures Exec(s, steps + [step]) == Some(Next(Exec(s, steps).value, step))
    ensures Always(s, steps + [step], Serial) <==> Always(s, steps, Serial) && Serial(Exec(s, steps).value, step)
    ensures Always(s, steps + [step], Timely) <==> Always(s, steps, Timely) && Timely(Exec(s, steps).value, step)
  {
    assert (steps + [step])[..|steps|] == steps;
  }

  lemma LastSnoc(s: State, steps: seq<Step>, step: Step, id: string)
    requires Exec(s, steps).Some?
    ensures var m := Exec(s, steps).value;
            && LastStore(s, steps + [step], id)
               == (if Stores(m, step, id) then Some(step.id) else LastStore(s, steps, id))
            && LastApplied(s, steps + [step], id) ==
               (if Applies(m, step, id) then Some(step.packet.call) else LastApplied(s, steps, id))
  {
    assert (steps + [step])[..|steps|] == steps;
  }

  /** A call that arrives and is stored. */
  lemma CallIsStored(start: State, steps: seq<Step>, e: Entity) returns (steps': seq<Step>)
    requires Exec(start, steps).Some? && e.id != ""
    ensures Exec(start, steps').Some?
    ensures var s, s' := Exec(start, steps).value, Exec(start, steps').value;
            && s' == s.(primary := Upsert(s.primary, e), calls := s.calls + [SetCall(e, 0, Notifying)])
            && (Always(start, steps, Timely) ==> Always(start, steps', Timely))
            && (Always(start, steps, Serial) && Serial(s, Invoke(e)) ==> Always(start, steps', Serial))
            && LastStore(start, steps', e.id) == Some(|s.calls|)
  {
    var i := |Exec(start, steps).value.calls|;
    var mid, store := steps + [Invoke(e)], Step.Store(i, RepoReturns);
    ExecSnoc(start, steps, Invoke(e));
    ExecSnoc(start, mid, store);
    LastSnoc(start, mid, store, e.id);
    steps' := mid + [store];
  }

  /** A stored call whose first request is answered at once. */
  lemma CallIsNotified(start: State, steps: seq<Step>, i: nat) returns (steps': seq<Step>)
    requires Exec(start, steps).Some?
    requires var s := Exec(start, steps).value;
             && i < |s.calls| && s.calls[i] == SetCall(s.calls[i].e, 0, Notifying)
             && Packet(i, 1) !in s.wire && Acceptable(s.calls[i].e.id)
    ensures Exec(start, steps').Some?
    ensures var s, s' := Exec(start, steps).value, Exec(start, steps').value;
            && s'.primary == s.primary && s'.replica == Upsert(s.replica, s.calls[i].e)
            && s'.calls == s.calls[i := SetCall(s.calls[i].e, 1, Succeeded)] && s'.wire == s.wire
            && (Always(start, steps, Timely) ==> Always(start, steps', Timely))
            && (Always(start, steps, Serial) ==> Always(start, steps', Serial))
            && LastStore(start, steps', s.calls[i].e.id) == LastStore(start, steps, s.calls[i].e.id)
            && LastApplied(start, steps', s.calls[i].e.id) == Some(i)
  {
    var p, s := Packet(i, 1), Exec(start, steps).value;
    var id := s.calls[i].e.id;
    var sent := OneMore(start, steps, Send(i), id);
    SendDeliverReceive(s, i);
    var delivered := OneMore(start, sent, Deliver(p, RepoReturns), id);
    steps' := OneMore(start, delivered, Receive(i), id);
  }

  lemma SendDeliverReceive(s: State, i: nat)
    requires i < |s.calls| && s.calls[i] == SetCall(s.calls[i].e, 0, Notifying)
    requires Packet(i, 1) !in s.wire && Acceptable(s.calls[i].e.id)
    ensures var p := Packet(i, 1);
            && Enabled(s, Send(i)) && Enabled(Next(s, Send(i)), Deliver(p, RepoReturns))
            && var m := Next(Next(s, Send(i)), Deliver(p, RepoReturns));
               && Enabled(m, Receive(i))
               && var s' := Next(m, Receive(i));
                  && s'.primary == s.primary && s'.replica == Upsert(s.replica, s.calls[i].e)
                  && s'.calls == s.calls[i := SetCall(s.calls[i].e, 1, Succeeded)] && s'.wire == s.wire
  {
    var p := Packet(i, 1);
    NotificationAccepted(s.replica, RepoReturns, s.calls[i].e);
    assert s.wire + {p} - {p} == s.wire;
  }

  /** One more step of a run, and what it does to the id. */
  lemma OneMore(start: State, steps: seq<Step>, step: Step, id: string) returns (steps': seq<Step>)
    requires Exec(start, steps).Some? && Enabled(Exec(start, steps).value, step)
    ensures var m := Exec(start, steps).value;
            && Exec(start, steps') == Some(Next(m, step))
            && (Always(start, steps', Serial) <==> Always(start, steps, Serial) && Serial(m, step))
            && (Always(start, steps', Timely) <==> Always(start, steps, Timely) && Timely(m, step))
            && LastStore(start, steps', id)
               == (if Stores(m, step, id) then Some(step.id) else LastStore(start, steps, id))
            && LastApplied(start, steps', id)
               == (if Applies(m, step, id) then Some(step.packet.call) else LastApplied(start, steps, id))
  {
    ExecSnoc(start, steps, step);
    LastSnoc(start, steps, step, id);
    steps' := steps + [step];
  }

  /** A stored call that gives up on its first request, which stays under way. */
  lemma CallGivesUp(start: State, steps: seq<Step>, i: nat) returns (steps': seq<Step>)
    requires Exec(start, steps).Some?
    requires var s := Exec(start, steps).value; i < |s.calls| && s.calls[i] == SetCall(s.calls[i].e, 0, Notifying)
    ensures Exec(start, steps').Some?
    ensures var s, s' := Exec(start, steps).value, Exec(start, steps').value;
            && s' == s.(calls := s.calls[i := SetCall(s.calls[i].e, 1, GaveUp)], wire := s.wire + {Packet(i, 1)})
            && (Always(start, steps, Serial) ==> Always(start, steps', Serial))
  {
    ExecSnoc(start, steps, Send(i));
    ExecSnoc(start, steps + [Send(i)], TimeOut(i));
    ExecSnoc(start, steps + [Send(i)] + [TimeOut(i)], GiveUp(i));
    steps' := steps + [Send(i)] + [TimeOut(i)] + [GiveUp(i)];
  }

  /** The bound on attempts is reached: for every number up to it some call has made so many without an answer. */
  lemma {:induction false} AttemptsCanBeUsedUp(maxRetry: nat, e: Entity, k: nat) returns (steps: seq<Step>, s: State)
    requires e.id != "" && k <= maxRetry + 1
    ensures Run(maxRetry, steps, s) && s.calls == [SetCall(e, k, Notifying)]
    decreases k
  {
    var start := Start(maxRetry);
    if k == 0 {
      steps := CallIsStored(start, [], e);
      s := Exec(start, steps).value;
    } else {
      var before, m := AttemptsCanBeUsedUp(maxRetry, e, k - 1);
      RunInv(maxRetry, before, m);
      ExecSnoc(start, before, Send(0));
      ExecSnoc(start, before + [Send(0)], TimeOut(0));
      steps := before + [Send(0)] + [TimeOut(0)];
      s := Next(Next(m, Send(0)), TimeOut(0));
    }
  }

  /**
   With serial calls but a late request agreement fails, for every acceptable id and any two different entities: a
   request on which its call gave up is applied after the next call on the id has returned normally, and stays.
   */
  lemma LateRequestBreaksAgreement(maxRetry: nat, older: Entity, newer: Entity) returns (steps: seq<Step>, s: State)
    requires older.id == newer.id && older != newer && Acceptable(older.id)
    ensures Run(maxRetry, steps, s) && Always(Start(maxRetry), steps, Serial)
    ensures |s.calls| == 2 && s.calls[1] == SetCall(newer, 1, Succeeded)
    ensures LastStore(Start(maxRetry), steps, newer.id) == Some(1)
    ensures LastApplied(Start(maxRetry), steps, newer.id) == Some(0)
    ensures forall c :: c in s.calls ==> !Active(c)
    ensures Row(s.primary, newer.id) == Some(newer) && Row(s.replica, newer.id) == Some(older)
  {
    var start, late := Start(maxRetry), Deliver(Packet(0, 1), RepoReturns);
    var a := CallIsStored(start, [], older);
    var b := CallGivesUp(start, a, 0);
    var c := CallIsStored(start, b, newer);
    var d := CallIsNotified(start, c, 1);
    var m := Exec(start, d).value;
    NotificationAccepted(m.replica, RepoReturns, older);
    ExecSnoc(start, d, late);
    LastSnoc(start, d, late, newer.id);
    steps := d + [late];
    s := Next(m, late);
  }

  /**
   With timely requests but overlapping calls on one id agreement fails, too: both calls return normally, and the
   second service is told of them in the order opposite to the one in which the first service stored them.
   */
  lemma OverlappingCallsBreakAgreement(maxRetry: nat, older: Entity, newer: Entity) returns (steps: seq<Step>, s: State)
    requires older.id == newer.id && older != newer && Acceptable(older.id)
    ensures Run(maxRetry, steps, s) && Always(Start(maxRetry), steps, Timely)
    ensures s.calls == [SetCall(older, 1, Succeeded), SetCall(newer, 1, Succeeded)]
    ensures LastStore(Start(maxRetry), steps, newer.id) == Some(1)
    ensures LastApplied(Start(maxRetry), steps, newer.id) == Some(0)
    ensures Row(s.primary, newer.id) == Some(newer) && Row(s.replica, newer.id) == Some(older)
  {
    var start := Start(maxRetry);
    var a := CallIsStored(start, [], older);
    var b := CallIsStored(start, a, newer);
    var c := CallIsNotified(start, b, 1);
    steps := CallIsNotified(start, c, 0);
    s := Exec(start, steps).value;
  }
}
