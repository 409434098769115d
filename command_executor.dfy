/** Dispatch of a command request: find the runner bean for the request and
    run it on a connection borrowed from the pool segment that matches the
    store's topology, which is fixed when the executor is built. */
module CommandExecutor {
  import opened JavaLang
  import opened RedisInstance
  import opened ConnectionPool

  /** What the application context gives for a request's runner name: an
      exception (no bean of that name, or one that cannot be built with the
      request), null, a bean that is not a command runner, or a command
      runner. The container is not part of this model, so every case is
      admitted, null included, although the code notes that null never comes. */
  datatype Bean = BeanFailed | NoBean | OtherBean | CommandRunner(name: string)

  datatype ExecuteResult = EmptyResult | Reply(text: string)

  /** The way `execute` goes for a bean and a topology. */
  datatype Route = ReturnEmpty | Throw(error: Exception) | NonClusterPath | ClusterPath

  /** The routing of execute. The bean lookup comes first, and its exception
      escapes; a null topology makes both the exception message and the
      switch throw NullPointerException. */
  function RouteOf(bean: Bean, topology: Option<InstanceType>): (r: Route)
    ensures r == ReturnEmpty <==> bean == NoBean
    ensures r == NonClusterPath <==>
              bean.CommandRunner? && (topology == Some(STANDALONE) || topology == Some(SENTINEL))
    ensures r == ClusterPath <==> bean.CommandRunner? && topology == Some(CLUSTER)
    ensures r.Throw? <==>
              bean == BeanFailed ||
              (bean != NoBean && (topology.None? || bean == OtherBean || topology == Some(NOT_DETECTED)))
    ensures r.Throw? ==>
              r.error == (if bean == BeanFailed then BeansException
                          else if topology.None? then NullPointerException
                          else NotImplementedException)
  {
    if bean == BeanFailed then Throw(BeansException)
    else if bean == NoBean then ReturnEmpty
    else if !bean.CommandRunner? then
      (if topology.None? then Throw(NullPointerException) else Throw(NotImplementedException))
    else match topology
      case None => Throw(NullPointerException)
      case Some(STANDALONE) => NonClusterPath
      case Some(SENTINEL) => NonClusterPath
      case Some(CLUSTER) => ClusterPath
      case Some(NOT_DETECTED) => Throw(NotImplementedException)
  }

  /** The result of a runner whose run gave `run`. */
  function RunResult(run: Result<string>): Result<ExecuteResult>
  {
    match run
    case Err(e) => Err(e)
    case Ok(text) => Ok(Reply(text))
  }

  class RedisCommandExecutor {
    const redisConnectionPool: RedisConnectionPool
    /** The topology read once, when the executor is built. */
    const redisServerInfo: Option<InstanceType>

    constructor (redisConnectionPool: RedisConnectionPool, redisServerInfo: Option<InstanceType>)
      ensures this.redisConnectionPool == redisConnectionPool && this.redisServerInfo == redisServerInfo
    {
      this.redisConnectionPool := redisConnectionPool;
      this.redisServerInfo := redisServerInfo;
    }

    /** Runs the request whose runner bean is `bean`; `decr` and `run` are the
        outcomes of the `decr("")` the cluster path sends and of the runner.
        The connection borrowed, if any, is `borrowed`; execute never returns it
        to the pool. */
    method Execute(bean: Bean, decr: Outcome, run: Result<string>)
      returns (r: Result<ExecuteResult>, borrowed: Option<PooledConnection>)
      requires redisConnectionPool.Valid()
      modifies redisConnectionPool
      ensures redisConnectionPool.Valid()
      ensures var route := RouteOf(bean, redisServerInfo);
              (route == ReturnEmpty ==> r == Ok(EmptyResult)) &&
              (route.Throw? ==> r == Err(route.error)) &&
              (route.ReturnEmpty? || route.Throw? ==>
                 borrowed.None? && unchanged(redisConnectionPool))
      ensures RouteOf(bean, redisServerInfo) == NonClusterPath ==>
                redisConnectionPool.clusterLent == old(redisConnectionPool.clusterLent) &&
                if old(|redisConnectionPool.nonClusterLent|) < redisConnectionPool.nonClusterCapacity then
                  borrowed.Some? && fresh(borrowed.value) && !borrowed.value.cluster &&
                  redisConnectionPool.nonClusterLent == old(redisConnectionPool.nonClusterLent) + {borrowed.value} &&
                  |redisConnectionPool.nonClusterLent| == old(|redisConnectionPool.nonClusterLent|) + 1 &&
                  borrowed.value.issued == [Run(bean.name)] && r == RunResult(run)
                else
                  borrowed.None? && r == Err(NoSuchElementException) &&
                  redisConnectionPool.nonClusterLent == old(redisConnectionPool.nonClusterLent)
      ensures RouteOf(bean, redisServerInfo) == ClusterPath ==>
                redisConnectionPool.nonClusterLent == old(redisConnectionPool.nonClusterLent) &&
                if old(|redisConnectionPool.clusterLent|) < redisConnectionPool.clusterCapacity then
                  borrowed.Some? && fresh(borrowed.value) && borrowed.value.cluster &&
                  redisConnectionPool.clusterLent == old(redisConnectionPool.clusterLent) + {borrowed.value} &&
                  |redisConnectionPool.clusterLent| == old(|redisConnectionPool.clusterLent|) + 1 &&
                  (decr.Fail? ==> borrowed.value.issued == [Decr([])] && r == Err(decr.error)) &&
                  (decr.Pass? ==> borrowed.value.issued == [Decr([]), Run(bean.name)] && r == RunResult(run))
                else
                  borrowed.None? && r == Err(NoSuchElementException) &&
                  redisConnectionPool.clusterLent == old(redisConnectionPool.clusterLent)
    {
      if bean == BeanFailed {
        return Err(BeansException), None;
      }
      if bean == NoBean {
        return Ok(EmptyResult), None;
      }
      if !bean.CommandRunner? {
        if redisServerInfo.None? {
          return Err(NullPointerException), None;
        }
        return Err(NotImplementedException), None;
      }
      match redisServerInfo {
        case None =>
          return Err(NullPointerException), None;
        case Some(STANDALONE) =>
          r, borrowed := ExecuteNonClusterCommand(bean.name, run);
        case Some(SENTINEL) =>
          r, borrowed := ExecuteNonClusterCommand(bean.name, run);
        case Some(CLUSTER) =>
          r, borrowed := ExecuteClusterCommand(bean.name, decr, run);
        case Some(NOT_DETECTED) =>
          return Err(NotImplementedException), None;
      }
    }

    /** Borrows a non-cluster connection and runs the runner on it. */
    method ExecuteNonClusterCommand(name: string, run: Result<string>)
      returns (r: Result<ExecuteResult>, borrowed: Option<PooledConnection>)
      requires redisConnectionPool.Valid()
      modifies redisConnectionPool
      ensures redisConnectionPool.Valid()
      ensures redisConnectionPool.clusterLent == old(redisConnectionPool.clusterLent)
      ensures old(|redisConnectionPool.nonClusterLent|) < redisConnectionPool.nonClusterCapacity ==>
                borrowed.Some? && fresh(borrowed.value) && !borrowed.value.cluster &&
                redisConnectionPool.nonClusterLent == old(redisConnectionPool.nonClusterLent) + {borrowed.value} &&
                |redisConnectionPool.nonClusterLent| == old(|redisConnectionPool.nonClusterLent|) + 1 &&
                borrowed.value.issued == [Run(name)] && r == RunResult(run)
      ensures old(|redisConnectionPool.nonClusterLent|) == redisConnectionPool.nonClusterCapacity ==>
                borrowed.None? && r == Err(NoSuchElementException) &&
                redisConnectionPool.nonClusterLent == old(redisConnectionPool.nonClusterLent)
    {
      var connection := redisConnectionPool.GetNonClusterConnection();
      if connection.Err? {
        return Err(connection.error), None;
      }
      borrowed := Some(connection.value);
      connection.value.Send(Run(name));
      r := RunResult(run);
    }

    /** Borrows a cluster connection, sends `decr("")` and then runs the
        runner on it; a failing decr ends the call with its exception. */
    method ExecuteClusterCommand(name: string, decr: Outcome, run: Result<string>)
      returns (r: Result<ExecuteResult>, borrowed: Option<PooledConnection>)
      requires redisConnectionPool.Valid()
      modifies redisConnectionPool
      ensures redisConnectionPool.Valid()
      ensures redisConnectionPool.nonClusterLent == old(redisConnectionPool.nonClusterLent)
      ensures old(|redisConnectionPool.clusterLent|) < redisConnectionPool.clusterCapacity ==>
                borrowed.Some? && fresh(borrowed.value) && borrowed.value.cluster &&
                redisConnectionPool.clusterLent == old(redisConnectionPool.clusterLent) + {borrowed.value} &&
                |redisConnectionPool.clusterLent| == old(|redisConnectionPool.clusterLent|) + 1 &&
                (decr.Fail? ==> borrowed.value.issued == [Decr([])] && r == Err(decr.error)) &&
                (decr.Pass? ==> borrowed.value.issued == [Decr([]), Run(name)] && r == RunResult(run))
      ensures old(|redisConnectionPool.clusterLent|) == redisConnectionPool.clusterCapacity ==>
                borrowed.None? && r == Err(NoSuchElementException) &&
                redisConnectionPool.clusterLent == old(redisConnectionPool.clusterLent)
    {
      var connection := redisConnectionPool.GetClusterConnection();
      if connection.Err? {
        return Err(connection.error), None;
      }
      borrowed := Some(connection.value);
      connection.value.Send(Decr([]));
      if decr.Fail? {
        return Err(decr.error), borrowed;
      }
      connection.value.Send(Run(name));
      r := RunResult(run);
    }

    /** The corrected executor: the same routing and commands, with
        the borrowed connection given back to its segment whatever the runner
        does, so the pool ends as it started. */
    method ExecuteReturning(bean: Bean, decr: Outcome, run: Result<string>)
      returns (r: Result<ExecuteResult>)
      requires redisConnectionPool.Valid()
      modifies redisConnectionPool
      ensures redisConnectionPool.Valid()
      ensures redisConnectionPool.clusterLent == old(redisConnectionPool.clusterLent)
      ensures redisConnectionPool.nonClusterLent == old(redisConnectionPool.nonClusterLent)
      ensures var route := RouteOf(bean, redisServerInfo);
              (route == ReturnEmpty ==> r == Ok(EmptyResult)) &&
              (route.Throw? ==> r == Err(route.error)) &&
              (route == NonClusterPath ==>
                 r == if old(|redisConnectionPool.nonClusterLent|) < redisConnectionPool.nonClusterCapacity
                      then RunResult(run) else Err(NoSuchElementException)) &&
              (route == ClusterPath ==>
                 r == if old(|redisConnectionPool.clusterLent|) < redisConnectionPool.clusterCapacity
                      then (if decr.Fail? then Err(decr.error) else RunResult(run))
                      else Err(NoSuchElementException))
    {
      var borrowed: Option<PooledConnection>;
      r, borrowed := Execute(bean, decr, run);
      if borrowed.Some? {
        var _ := redisConnectionPool.ReturnObject(borrowed.value);
      }
    }
  }

  /** The executor as written, on a store that stands alone and a pool
      whose non-cluster segment holds one connection: the first request
      keeps the only connection, so the second cannot borrow one. */
  method ExhaustionExample() returns (first: Result<ExecuteResult>, second: Result<ExecuteResult>)
    ensures first == Ok(Reply("OK")) && second == Err(NoSuchElementException)
  {
    var pool := new RedisConnectionPool(1, 1);
    var executor := new RedisCommandExecutor(pool, Some(STANDALONE));
    var borrowed: Option<PooledConnection>;
    first, borrowed := executor.Execute(CommandRunner("get"), Pass, Ok("OK"));
    second, borrowed := executor.Execute(CommandRunner("get"), Pass, Ok("OK"));
  }

  /** The corrected executor on the same pool serves both requests. */
  method ReturningExample() returns (first: Result<ExecuteResult>, second: Result<ExecuteResult>)
    ensures first == Ok(Reply("OK")) && second == Ok(Reply("OK"))
  {
    var pool := new RedisConnectionPool(1, 1);
    var executor := new RedisCommandExecutor(pool, Some(STANDALONE));
    first := executor.ExecuteReturning(CommandRunner("get"), Pass, Ok("OK"));
    second := executor.ExecuteReturning(CommandRunner("get"), Pass, Ok("OK"));
  }
}
