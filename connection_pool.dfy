/** The connection pool the executor and the stats monitor borrow from, as
    seen from its callers: two segments (cluster and non-cluster
    connections), each lending out at most a fixed number of connections at a
    time. */
module ConnectionPool {
  import opened JavaLang

  /** The commands the core sends over a borrowed connection. */
  datatype Command = Decr(key: string) | Run(runner: string) | Info(nodeId: string) | ClusterNodes

  /** A connection lent out by the pool; `issued` records what was sent on it. */
  class PooledConnection {
    const cluster: bool
    var issued: seq<Command>

    constructor (cluster: bool)
      ensures this.cluster == cluster && issued == []
    {
      this.cluster := cluster;
      issued := [];
    }

    method Send(c: Command)
      modifies this
      ensures issued == old(issued) + [c]
    {
      issued := issued + [c];
    }
  }

  class RedisConnectionPool {
    const clusterCapacity: nat
    const nonClusterCapacity: nat
    /** The connections of each segment currently lent out. */
    var clusterLent: set<PooledConnection>
    var nonClusterLent: set<PooledConnection>

    /** No segment lends more than its capacity, and each lent connection
        belongs to the segment that lent it. */
    predicate Valid()
      reads this
    {
      |clusterLent| <= clusterCapacity && |nonClusterLent| <= nonClusterCapacity &&
      (forall c :: c in clusterLent ==> c.cluster) &&
      (forall c :: c in nonClusterLent ==> !c.cluster)
    }

    constructor (clusterCapacity: nat, nonClusterCapacity: nat)
      ensures this.clusterCapacity == clusterCapacity && this.nonClusterCapacity == nonClusterCapacity
      ensures clusterLent == {} && nonClusterLent == {} && Valid()
    {
      this.clusterCapacity := clusterCapacity;
      this.nonClusterCapacity := nonClusterCapacity;
      clusterLent := {};
      nonClusterLent := {};
    }

    /** Borrows a cluster connection: a fresh one while the segment has room,
        NoSuchElementException once it is exhausted. */
    method GetClusterConnection() returns (r: Result<PooledConnection>)
      requires Valid()
      modifies this
      ensures Valid() && nonClusterLent == old(nonClusterLent)
      ensures old(|clusterLent|) < clusterCapacity ==>
                r.Ok? && fresh(r.value) && r.value.cluster && r.value.issued == [] &&
                clusterLent == old(clusterLent) + {r.value} &&
                |clusterLent| == old(|clusterLent|) + 1
      ensures old(|clusterLent|) == clusterCapacity ==>
                r == Err(NoSuchElementException) && clusterLent == old(clusterLent)
    {
      if |clusterLent| == clusterCapacity {
        return Err(NoSuchElementException);
      }
      var c := new PooledConnection(true);
      clusterLent := clusterLent + {c};
      r := Ok(c);
    }

    /** Borrows a non-cluster connection, likewise. */
    method GetNonClusterConnection() returns (r: Result<PooledConnection>)
      requires Valid()
      modifies this
      ensures Valid() && clusterLent == old(clusterLent)
      ensures old(|nonClusterLent|) < nonClusterCapacity ==>
                r.Ok? && fresh(r.value) && !r.value.cluster && r.value.issued == [] &&
                nonClusterLent == old(nonClusterLent) + {r.value} &&
                |nonClusterLent| == old(|nonClusterLent|) + 1
      ensures old(|nonClusterLent|) == nonClusterCapacity ==>
                r == Err(NoSuchElementException) && nonClusterLent == old(nonClusterLent)
    {
      if |nonClusterLent| == nonClusterCapacity {
        return Err(NoSuchElementException);
      }
      var c := new PooledConnection(false);
      nonClusterLent := nonClusterLent + {c};
      r := Ok(c);
    }

    /** Gives a lent connection back to its segment; a connection that is not
        lent out is refused with IllegalStateException. */
    method ReturnObject(c: PooledConnection) returns (o: Outcome)
      requires Valid()
      modifies this
      ensures Valid()
      ensures c in old(clusterLent) ==>
                o == Pass && clusterLent == old(clusterLent) - {c} && nonClusterLent == old(nonClusterLent) &&
                |clusterLent| == old(|clusterLent|) - 1
      ensures c in old(nonClusterLent) ==>
                o == Pass && nonClusterLent == old(nonClusterLent) - {c} && clusterLent == old(clusterLent) &&
                |nonClusterLent| == old(|nonClusterLent|) - 1
      ensures c !in old(clusterLent) && c !in old(nonClusterLent) ==>
                o == Fail(IllegalStateException) &&
                clusterLent == old(clusterLent) && nonClusterLent == old(nonClusterLent)
    {
      if c in clusterLent {
        clusterLent := clusterLent - {c};
        o := Pass;
      } else if c in nonClusterLent {
        nonClusterLent := nonClusterLent - {c};
        o := Pass;
      } else {
        o := Fail(IllegalStateException);
      }
    }
  }
}
