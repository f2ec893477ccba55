/**
 The Postgres connection manager for one caller at a time: one attempt, and the retry loop around it.

 The retry hook is a library call. It is taken to repeat an attempt that ended in `broken_connection` (mapped to
 unavailable) up to `max_retry_count` times and to let any other exception through.
 */
module PostgresManager {
  import opened Wrappers

  datatype FactoryOutcome = NewConnection | NullConnection | FactoryBroken | FactoryFails

  datatype OpOutcome = OpReturns | OpBroken | OpFails

  /** What the environment would do in one attempt: the factory if it is called, the operation if it is reached. */
  datatype Attempt = Attempt(factory: FactoryOutcome, op: OpOutcome)

  datatype Status = Ok | Broken | Failed

  datatype Result = Completed | Unavailable | Raised

  /** How an attempt ends, starting with or without a connection. */
  function Ending(noConn: bool, env: Attempt): Status {
    if noConn && env.factory.FactoryBroken? then Broken
    else if noConn && env.factory.FactoryFails? then Failed
    else if noConn && env.factory.NullConnection? then Failed
    else match env.op
      case OpReturns => Ok
      case OpBroken => Broken
      case OpFails => Failed
  }

  /** Whether the connection is null after an attempt. */
  function NullAfter(noConn: bool, env: Attempt): bool {
    Ending(noConn, env).Broken? || (noConn && !env.factory.NewConnection?)
  }

  /** Whether attempt `k` of a series starts without a connection. */
  function NullAt(noConn: bool, envs: seq<Attempt>, k: nat): bool
    requires k <= |envs|
  {
    if k == 0 then noConn else NullAfter(NullAt(noConn, envs, k - 1), envs[k - 1])
  }

  function EndingAt(noConn: bool, envs: seq<Attempt>, k: nat): Status
    requires k < |envs|
  {
    Ending(NullAt(noConn, envs, k), envs[k])
  }

  /** Attempt `k` is made on a connection that was there before or that the factory makes. */
  predicate ConnectedAt(noConn: bool, envs: seq<Attempt>, k: nat)
    requires k < |envs|
  {
    (k == 0 && !noConn) || envs[k].factory.NewConnection?
  }

  /** The factory reports a broken connection when it is called, or the operation does on the connection it is given. */
  predicate BreaksAt(noConn: bool, envs: seq<Attempt>, k: nat)
    requires k < |envs|
  {
    || ((k > 0 || noConn) && envs[k].factory.FactoryBroken?)
    || (ConnectedAt(noConn, envs, k) && envs[k].op.OpBroken?)
  }

  /** An attempt, in terms of what its environment does. */
  lemma EndingExactly(noConn: bool, env: Attempt)
    ensures var connected := !noConn || env.factory.NewConnection?;
            && (Ending(noConn, env).Broken? <==>
                  (noConn && env.factory.FactoryBroken?) || (connected && env.op.OpBroken?))
            && (Ending(noConn, env).Ok? <==> connected && env.op.OpReturns?)
            && (NullAfter(noConn, env) <==> !connected || env.op.OpBroken?)
  {
  }

  /** As long as all attempts break, each one after the first starts without a connection. */
  lemma {:induction false} EndingAtExactly(noConn: bool, envs: seq<Attempt>, k: nat)
    requires k < |envs| && forall j :: 0 <= j < k ==> EndingAt(noConn, envs, j) == Broken
    ensures NullAt(noConn, envs, k) <==> k > 0 || noConn
    ensures EndingAt(noConn, envs, k).Broken? <==> BreaksAt(noConn, envs, k)
    ensures EndingAt(noConn, envs, k).Ok? <==> ConnectedAt(noConn, envs, k) && envs[k].op.OpReturns?
    ensures NullAt(noConn, envs, k + 1) <==> !ConnectedAt(noConn, envs, k) || envs[k].op.OpBroken?
  {
    if k > 0 {
      EndingAtExactly(noConn, envs, k - 1);
    }
  }

  class PostgresConnectionManager {
    const maxRetryCount: nat
    var connection: Option<nat>  // which call of the factory made it; None is the null pointer
    var factoryCalls: nat
    var locked: bool

    ghost predicate Valid() reads this {
      && !locked
      && (connection.Some? ==> connection.value < factoryCalls)
    }

    constructor (maxRetryCount: nat, first: FactoryOutcome)
      requires first.NewConnection? || first.NullConnection?
      ensures Valid() && this.maxRetryCount == maxRetryCount
      ensures factoryCalls == 1 && (connection.None? <==> first.NullConnection?)
    {
      this.maxRetryCount := maxRetryCount;
      factoryCalls := 1;
      connection := if first.NewConnection? then Some(0) else None;
      locked := false;
    }

    /** The closure run by the retry hook: lock, connect if needed, operate; reset the connection when it broke. */
    method AttemptOnce(env: Attempt) returns (status: Status)
      requires Valid()
      modifies this
      ensures Valid()
      ensures status == Ending(old(connection).None?, env)
      ensures connection.None? == NullAfter(old(connection).None?, env)
      ensures var connected := old(connection).Some? || env.factory.NewConnection?;
              && (status.Broken? <==>
                    (old(connection).None? && env.factory.FactoryBroken?) || (connected && env.op.OpBroken?))
              && (status.Ok? <==> connected && env.op.OpReturns?)
              && (connection.None? <==> !connected || env.op.OpBroken?)
      ensures factoryCalls == old(factoryCalls) + if old(connection).None? then 1 else 0
      ensures connection.Some? && old(connection).Some? ==> connection == old(connection)
      ensures connection.Some? && old(connection).None? ==> connection == Some(old(factoryCalls))
    {
      locked := true;
      var broke := false;
      status := Ok;
      if connection.None? {
        factoryCalls := factoryCalls + 1;
        match env.factory {
          case NewConnection => connection := Some(factoryCalls - 1);
          case NullConnection =>
          case FactoryBroken => broke := true;
          case FactoryFails => status := Failed;
        }
      }
      if !broke && status.Ok? {
        if connection.None? {
          status := Failed;
        } else {
          match env.op {
            case OpReturns =>
            case OpBroken => broke := true;
            case OpFails => status := Failed;
          }
        }
      }
      if broke {
        connection := None;
        status := Broken;
      }
      locked := false;
    }

    /**
     Makes at most `maxRetryCount + 1` attempts: all but the last one broke, and the last one decides how the call
     ends. It ends in unavailable exactly when every allowed attempt broke.
     */
    method WithConnection(envs: seq<Attempt>) returns (result: Result, attempts: nat)
      requires Valid() && |envs| == maxRetryCount + 1
      modifies this
      ensures Valid()
      ensures 1 <= attempts <= maxRetryCount + 1
      ensures forall k :: 0 <= k < attempts - 1 ==> EndingAt(old(connection).None?, envs, k) == Broken
      ensures result.Completed? <==> EndingAt(old(connection).None?, envs, attempts - 1) == Ok
      ensures result.Raised? <==> EndingAt(old(connection).None?, envs, attempts - 1) == Failed
      ensures result.Unavailable? ==> attempts == maxRetryCount + 1
      ensures connection.None? == NullAt(old(connection).None?, envs, attempts)
      ensures var noConn, last := old(connection).None?, attempts - 1;
              && (forall k :: 0 <= k < last ==> BreaksAt(noConn, envs, k))
              && (result.Unavailable? <==> BreaksAt(noConn, envs, last))
              && (result.Completed? <==> ConnectedAt(noConn, envs, last) && envs[last].op.OpReturns?)
              && (connection.None? <==> !ConnectedAt(noConn, envs, last) || envs[last].op.OpBroken?)
      ensures factoryCalls == old(factoryCalls) + attempts - if old(connection).Some? then 1 else 0
    {
      ghost var noConn := connection.None?;
      attempts := 0;
      var status := Broken;
      while status.Broken? && attempts <= maxRetryCount
        invariant Valid()
        invariant attempts <= maxRetryCount + 1
        invariant connection.None? == NullAt(noConn, envs, attempts)
        invariant forall k :: 0 <= k < attempts - 1 ==> EndingAt(noConn, envs, k) == Broken
        invariant attempts > 0 ==> status == EndingAt(noConn, envs, attempts - 1)
        invariant attempts == 0 ==> status == Broken
        invariant attempts > 0 && status.Broken? ==> connection.None?
        invariant factoryCalls == old(factoryCalls) + attempts - if attempts > 0 && !noConn then 1 else 0
        decreases maxRetryCount + 1 - attempts
      {
        status := AttemptOnce(envs[attempts]);
        attempts := attempts + 1;
      }
      forall k | 0 <= k < attempts
        ensures EndingAt(noConn, envs, k).Broken? <==> BreaksAt(noConn, envs, k)
      {
        EndingAtExactly(noConn, envs, k);
      }
      EndingAtExactly(noConn, envs, attempts - 1);
      result := match status
        case Ok => Completed
        case Broken => Unavailable
        case Failed => Raised;
    }
  }
}
