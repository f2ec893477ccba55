/**
 Linearizability of concurrent histories, shared by the key cache and the Postgres repository.

 Operations are numbered in the order in which they are called. A history records calls and returns as the callers
 see them; a log is a proposed sequential order of the same operations, each entry with the choice `env` its
 environment made. Whether a log is a legal sequential execution is up to the sequential object and stated there.
 */
module Linearizability {

  datatype Event<A, R> = Call(id: nat, arg: A) | Return(id: nat, res: R)

  datatype Entry<A, X, R> = Entry(id: nat, arg: A, env: X, res: R)

  /** `a` returned before `b` was called. */
  ghost predicate Before<A, R>(h: seq<Event<A, R>>, a: nat, b: nat) {
    exists i, j :: 0 <= i < j < |h| && h[i].Return? && h[i].id == a && h[j].Call? && h[j].id == b
  }

  ghost predicate At<A, X, R>(log: seq<Entry<A, X, R>>, p: int, id: nat) {
    0 <= p < |log| && log[p].id == id
  }

  ghost predicate RealTime<A, X, R>(h: seq<Event<A, R>>, log: seq<Entry<A, X, R>>) {
    forall p, q, a, b :: At(log, p, a) && At(log, q, b) && Before(h, a, b) ==> p < q
  }

  ghost predicate Answered<A, X, R>(log: seq<Entry<A, X, R>>, id: nat, res: R) {
    exists p :: At(log, p, id) && log[p].res == res
  }

  ghost predicate CalledBefore<A, R>(h: seq<Event<A, R>>, id: nat, j: int) {
    exists i :: 0 <= i < j && i < |h| && h[i].Call? && h[i].id == id
  }

  /** Every operation is called once, and returns at most once and after its call. */
  ghost predicate WellFormed<A, R>(h: seq<Event<A, R>>) {
    && (forall i, j :: 0 <= i < j < |h| && h[i].id == h[j].id ==> h[i].Call? && h[j].Return?)
    && (forall j :: 0 <= j < |h| && h[j].Return? ==> CalledBefore(h, h[j].id, j))
  }

  /** The log orders every operation at most once, explains every return and respects real time. */
  ghost predicate Linearizes<A, X, R>(h: seq<Event<A, R>>, log: seq<Entry<A, X, R>>) {
    && WellFormed(h)
    && (forall p, q, a :: At(log, p, a) && At(log, q, a) ==> p == q)
    && (forall i :: 0 <= i < |h| && h[i].Return? ==> Answered(log, h[i].id, h[i].res))
    && (forall p :: 0 <= p < |log| ==> Event.Call(log[p].id, log[p].arg) in h)
    && RealTime(h, log)
  }

  /** How far one operation has come: not yet in the log, in the log with its result fixed, or returned. */
  datatype Stage<R> = Pending | Committed(res: R) | Returned(res: R)

  /** What every run keeps true between the operations' stages, the history and the log. */
  ghost predicate Consistent<A, X, R>(
    args: seq<A>, stages: seq<Stage<R>>, h: seq<Event<A, R>>, log: seq<Entry<A, X, R>>) {
    && |args| == |stages|
    && WellFormed(h)
    && (forall i :: 0 <= i < |h| && h[i].Call? ==> h[i].id < |args|)
    && (forall i :: 0 <= i < |h| && h[i].Return? ==> h[i].id < |args| && stages[h[i].id] == Returned(h[i].res))
    && (forall id :: 0 <= id < |args| ==> Event.Call(id, args[id]) in h)
    && (forall p :: 0 <= p < |log| ==>
          && log[p].id < |args| && log[p].arg == args[log[p].id]
          && !stages[log[p].id].Pending? && stages[log[p].id].res == log[p].res)
    && (forall id :: 0 <= id < |args| && !stages[id].Pending? ==> Answered(log, id, stages[id].res))
    && (forall p, q, a :: At(log, p, a) && At(log, q, a) ==> p == q)
    && RealTime(h, log)
  }

  lemma ConsistentLinearizes<A, X, R>(
    args: seq<A>, stages: seq<Stage<R>>, h: seq<Event<A, R>>, log: seq<Entry<A, X, R>>)
    requires Consistent(args, stages, h, log)
    ensures Linearizes(h, log)
  {
    forall i | 0 <= i < |h| && h[i].Return? ensures Answered(log, h[i].id, h[i].res) {
      assert stages[h[i].id] == Returned(h[i].res);
    }
  }

  lemma WellFormedSnoc<A, R>(h: seq<Event<A, R>>, e: Event<A, R>)
    requires WellFormed(h)
    requires e.Call? ==> forall i :: 0 <= i < |h| ==> h[i].id != e.id
    requires e.Return? ==> CalledBefore(h, e.id, |h|) && forall i :: 0 <= i < |h| && h[i].id == e.id ==> h[i].Call?
    ensures WellFormed(h + [e])
  {
    var h' := h + [e];
    forall j | 0 <= j < |h'| && h'[j].Return? ensures CalledBefore(h', h'[j].id, j) {
      assert CalledBefore(h, h'[j].id, j);
      var i :| 0 <= i < j && i < |h| && h[i].Call? && h[i].id == h'[j].id;
      assert h'[i] == h[i];
    }
  }

  /** An event that is no call of a logged operation adds no ordering constraint on the log. */
  lemma RealTimeSnoc<A, X, R>(h: seq<Event<A, R>>, log: seq<Entry<A, X, R>>, e: Event<A, R>)
    requires RealTime(h, log)
    requires e.Call? ==> forall p :: 0 <= p < |log| ==> log[p].id != e.id
    ensures RealTime(h + [e], log)
  {
    var h' := h + [e];
    forall p, q, a: nat, b: nat | At(log, p, a) && At(log, q, b) && Before(h', a, b) ensures p < q {
      var i, j :| 0 <= i < j < |h'| && h'[i].Return? && h'[i].id == a && h'[j].Call? && h'[j].id == b;
      assert j < |h|;
      assert h[i] == h'[i] && h[j] == h'[j];
      assert Before(h, a, b);
    }
  }

  lemma OnCall<A, X, R>(args: seq<A>, stages: seq<Stage<R>>, h: seq<Event<A, R>>, log: seq<Entry<A, X, R>>, arg: A)
    requires Consistent(args, stages, h, log)
    ensures Consistent(args + [arg], stages + [Pending], h + [Event.Call(|args|, arg)], log)
  {
    var e := Event<A, R>.Call(|args|, arg);
    WellFormedSnoc(h, e);
    RealTimeSnoc(h, log, e);
    forall id | 0 <= id < |args + [arg]| ensures Event.Call(id, (args + [arg])[id]) in h + [e] {
      if id < |args| {
        assert Event.Call(id, args[id]) in h;
      } else {
        assert (h + [e])[|h|] == e;
      }
    }
  }

  lemma OnCommit<A, X, R>(
    args: seq<A>, stages: seq<Stage<R>>, h: seq<Event<A, R>>, log: seq<Entry<A, X, R>>, id: nat, env: X, res: R)
    requires Consistent(args, stages, h, log)
    requires id < |args| && stages[id].Pending?
    ensures Consistent(args, stages[id := Committed(res)], h, log + [Entry(id, args[id], env, res)])
  {
    var log' := log + [Entry(id, args[id], env, res)];
    forall a, p | At(log', p, a) ensures p < |log| ==> At(log, p, a) {}
    forall k, r | Answered(log, k, r) ensures Answered(log', k, r) {
      var p :| At(log, p, k) && log[p].res == r;
      assert At(log', p, k);
    }
    assert At(log', |log|, id) && log'[|log|].res == res;
    forall i | 0 <= i < |h| && h[i].Return? ensures h[i].id != id {
      assert stages[h[i].id].Returned?;
    }
    RealTimeCommit(h, log, Entry(id, args[id], env, res));
  }

  /** An operation that precedes no other one can go to the end of the log. */
  lemma RealTimeCommit<A, X, R>(h: seq<Event<A, R>>, log: seq<Entry<A, X, R>>, e: Entry<A, X, R>)
    requires RealTime(h, log) && forall b :: !Before(h, e.id, b)
    ensures RealTime(h, log + [e])
  {
    var log' := log + [e];
    forall p, q, a: nat, b: nat | At(log', p, a) && At(log', q, b) && Before(h, a, b) ensures p < q {
      assert a != e.id;
      assert p < |log| && At(log, p, a);
      if q < |log| {
        assert At(log, q, b);
      }
    }
  }

  lemma OnReturn<A, X, R>(args: seq<A>, stages: seq<Stage<R>>, h: seq<Event<A, R>>, log: seq<Entry<A, X, R>>, id: nat)
    requires Consistent(args, stages, h, log)
    requires id < |args| && stages[id].Committed?
    ensures Consistent(args, stages[id := Returned(stages[id].res)], h + [Event.Return(id, stages[id].res)], log)
  {
    var h' := h + [Event.Return(id, stages[id].res)];
    assert Event.Call(id, args[id]) in h;
    var c :| 0 <= c < |h| && h[c] == Event.Call(id, args[id]);
    assert CalledBefore(h, id, |h|);
    WellFormedSnoc(h, Event.Return(id, stages[id].res));
    RealTimeSnoc(h, log, Event.Return(id, stages[id].res));
    forall i | 0 <= i < |h| && h[i].Return? ensures h[i].id != id {
      assert stages[h[i].id].Returned?;
    }
  }
}
