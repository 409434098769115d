/** The stats monitor: a bounded history queue of the store's status, and
    the pass of the monitor thread that asks every cluster node for its INFO
    over a connection borrowed from the pool. */
module StatInfoBucket {
  import opened JavaLang
  import opened ConnectionPool

  // ---------------------------------------------------------------------------
  // The bounded history queue

  /** CircularFifoQueue.add on the contents of a queue of capacity n: a full
      queue first gives up its oldest element. */
  function FifoAdd(q: seq<string>, x: string, n: nat): (r: seq<string>)
    requires 0 < n && |q| <= n
    ensures |r| <= n && r != [] && r[|r| - 1] == x
  {
    if |q| == n then q[1..] + [x] else q + [x]
  }

  /** The contents after adding each of `xs`, in order, to an empty queue. */
  function FifoAddAll(xs: seq<string>, n: nat): (r: seq<string>)
    requires 0 < n
    ensures |r| <= n
  {
    if xs == [] then [] else FifoAdd(FifoAddAll(xs[..|xs| - 1], n), xs[|xs| - 1], n)
  }

  /** The last n elements of s (all of s when it is shorter). */
  function Last(s: seq<string>, n: nat): seq<string>
  {
    if |s| <= n then s else s[|s| - n..]
  }

  /** The queue keeps exactly the n most recent elements, oldest first. */
  lemma {:induction false} FifoKeepsLast(xs: seq<string>, n: nat)
    requires 0 < n
    ensures FifoAddAll(xs, n) == Last(xs, n)
  {
    if xs != [] {
      var init, x := xs[..|xs| - 1], xs[|xs| - 1];
      FifoKeepsLast(init, n);
      assert FifoAddAll(xs, n) == FifoAdd(Last(init, n), x, n);
      if |init| < n {
        assert FifoAdd(init, x, n) == init + [x] == xs;
      } else {
        var q := init[|init| - n..];
        assert FifoAdd(q, x, n) == q[1..] + [x];
        assert q[1..] + [x] == xs[|xs| - n..] == Last(xs, n);
      }
    }
  }

  /** org.apache.commons.collections4.queue.CircularFifoQueue of strings:
      `count` elements stored from slot `start` on, wrapping round. */
  class CircularFifoQueue {
    const maxElements: nat
    const elements: array<string>
    var start: nat
    var count: nat

    predicate Valid()
      reads this
    {
      elements.Length == maxElements && 0 < maxElements &&
      start < maxElements && count <= maxElements
    }

    /** The slot holding the k-th oldest element. */
    function Slot(k: nat): (i: nat)
      requires Valid() && k < maxElements
      reads this
      ensures i < maxElements
    {
      if start + k < maxElements then start + k else start + k - maxElements
    }

    /** The elements, oldest first. */
    function Contents(): (q: seq<string>)
      requires Valid()
      reads this, elements
      ensures |q| == count
      ensures forall k :: 0 <= k < count ==> q[k] == elements[Slot(k)]
    {
      if start + count <= maxElements then elements[start..start + count]
      else elements[start..] + elements[..start + count - maxElements]
    }

    constructor (size: nat)
      requires 0 < size
      ensures Valid() && maxElements == size && Contents() == [] && fresh(elements)
    {
      maxElements := size;
      elements := new string[size];
      start, count := 0, 0;
    }

    /** Removes and gives the oldest element; an empty queue gives None and
        stays as it is. */
    method Poll() returns (x: Option<string>)
      requires Valid()
      modifies this
      ensures Valid()
      ensures old(Contents()) == [] ==> x == None && Contents() == []
      ensures old(Contents()) != [] ==> x == Some(old(Contents())[0]) && Contents() == old(Contents())[1..]
    {
      if count == 0 {
        return None;
      }
      x := Some(elements[start]);
      ghost var q := Contents();
      start := if start + 1 == maxElements then 0 else start + 1;
      count := count - 1;
      assert forall k :: 0 <= k < count ==> Contents()[k] == q[k + 1];
    }

    /** Adds at the newest end, evicting the oldest element when the queue is
        full. */
    method Add(x: string)
      requires Valid()
      modifies this, elements
      ensures Valid()
      ensures Contents() == FifoAdd(old(Contents()), x, maxElements)
    {
      if count == maxElements {
        var _ := Poll();
      }
      ghost var q := Contents();
      var end := Slot(count);
      elements[end] := x;
      count := count + 1;
      assert forall k :: 0 <= k < count - 1 ==> Slot(k) != end;
      assert Contents() == q + [x];
    }
  }

  // ---------------------------------------------------------------------------
  // The cluster-node list

  /** A parsed line of the CLUSTER NODES reply; only the node id is used. */
  datatype RedisClusterNodeInfo = RedisClusterNodeInfo(id: string)

  /** What asking one node for its INFO gives once a cluster connection is
      borrowed: getConnection(id) throws, info() throws, or the reply text. */
  datatype NodeReply = ResolveFailed(resolveError: Exception) | QueryFailed(queryError: Exception) | Replied(info: string)

  /** A JSON object; getStats never builds one. */
  datatype ObjectNode = ObjectNode(fields: seq<(string, string)>)

  /** The outcome of one node's try block, and the number of cluster
      connections lent out after it: the borrow fails on an exhausted
      segment; a failure after the borrow leaves the connection lent out; a
      reply gives the connection back. */
  function NodeStep(lent: nat, capacity: nat, reply: NodeReply): (r: (Result<string>, nat))
    ensures lent <= r.1 <= lent + 1
    ensures r.0.Ok? <==> lent < capacity && reply.Replied?
  {
    if capacity <= lent then (Err(NoSuchElementException), lent)
    else match reply
      case ResolveFailed(e) => (Err(e), lent + 1)
      case QueryFailed(e) => (Err(e), lent + 1)
      case Replied(info) => (Ok(info), lent)
  }

  /** The outcomes of one pass, one per node in list order, and the number of
      cluster connections lent out after it. */
  datatype PassLog = PassLog(outcomes: seq<Result<string>>, lent: nat)

  function PollNodes(ids: seq<string>, reply: string -> NodeReply, lent: nat, capacity: nat): (p: PassLog)
    ensures |p.outcomes| == |ids| && lent <= p.lent
  {
    if ids == [] then PassLog([], lent)
    else
      var prev := PollNodes(ids[..|ids| - 1], reply, lent, capacity);
      var step := NodeStep(prev.lent, capacity, reply(ids[|ids| - 1]));
      PassLog(prev.outcomes + [step.0], step.1)
  }

  lemma PollStep(ids: seq<string>, k: nat, reply: string -> NodeReply, lent: nat, capacity: nat)
    requires k < |ids|
    ensures var prev := PollNodes(ids[..k], reply, lent, capacity);
            var step := NodeStep(prev.lent, capacity, reply(ids[k]));
            PollNodes(ids[..k + 1], reply, lent, capacity) == PassLog(prev.outcomes + [step.0], step.1)
  {
    assert ids[..k + 1][..k] == ids[..k];
  }

  /** A pass over a + b is the pass over a followed by the pass over b from
      where a left the pool: what fails on a node of a neither stops nor
      changes the polling of b beyond the connections it leaves lent out. */
  lemma {:induction false} PollAppend(a: seq<string>, b: seq<string>, reply: string -> NodeReply, lent: nat, capacity: nat)
    ensures var pa := PollNodes(a, reply, lent, capacity);
            var pb := PollNodes(b, reply, pa.lent, capacity);
            PollNodes(a + b, reply, lent, capacity) == PassLog(pa.outcomes + pb.outcomes, pb.lent)
  {
    if b != [] {
      var init := b[..|b| - 1];
      PollAppend(a, init, reply, lent, capacity);
      assert (a + b)[..|a + b| - 1] == a + init;
      assert (a + b)[|a + b| - 1] == b[|b| - 1];
    } else {
      assert a + b == a;
    }
  }

  /** The k-th outcome is that node's step from the count the earlier nodes
      left lent out. */
  lemma PollAt(ids: seq<string>, k: nat, reply: string -> NodeReply, lent: nat, capacity: nat)
    requires k < |ids|
    ensures PollNodes(ids, reply, lent, capacity).outcomes[k] ==
            NodeStep(PollNodes(ids[..k], reply, lent, capacity).lent, capacity, reply(ids[k])).0
  {
    PollAppend(ids[..k + 1], ids[k + 1..], reply, lent, capacity);
    assert ids[..k + 1] + ids[k + 1..] == ids;
    PollStep(ids, k, reply, lent, capacity);
  }

  /** Never more connections lent out than the segment holds. */
  lemma {:induction false} PollBounded(ids: seq<string>, reply: string -> NodeReply, lent: nat, capacity: nat)
    requires lent <= capacity
    ensures PollNodes(ids, reply, lent, capacity).lent <= capacity
  {
    if ids != [] {
      PollBounded(ids[..|ids| - 1], reply, lent, capacity);
    }
  }

  /** When every node replies and the segment has room, every node's INFO is
      reported, in list order, and the pass gives back every connection it
      borrowed. */
  lemma {:induction false} PollAllReplied(ids: seq<string>, reply: string -> NodeReply, lent: nat, capacity: nat)
    requires lent < capacity && forall k :: 0 <= k < |ids| ==> reply(ids[k]).Replied?
    ensures var p := PollNodes(ids, reply, lent, capacity);
            p.lent == lent && forall k :: 0 <= k < |ids| ==> p.outcomes[k] == Ok(reply(ids[k]).info)
  {
    if ids != [] {
      var init := ids[..|ids| - 1];
      PollAllReplied(init, reply, lent, capacity);
      var p := PollNodes(ids, reply, lent, capacity);
      forall k | 0 <= k < |ids|
        ensures p.outcomes[k] == Ok(reply(ids[k]).info)
      {
        if k < |init| {
          assert ids[k] == init[k];
        }
      }
    }
  }

  /** Once failures have leaked the whole segment, every later node fails to
      borrow: the pass reports NoSuchElementException for each. */
  lemma {:induction false} PollExhausted(ids: seq<string>, reply: string -> NodeReply, capacity: nat)
    ensures var p := PollNodes(ids, reply, capacity, capacity);
            p.lent == capacity && forall k :: 0 <= k < |ids| ==> p.outcomes[k] == Err(NoSuchElementException)
  {
    if ids != [] {
      PollExhausted(ids[..|ids| - 1], reply, capacity);
    }
  }

  function Ids(nodes: seq<RedisClusterNodeInfo>): (ids: seq<string>)
    ensures |ids| == |nodes| && forall k :: 0 <= k < |nodes| ==> ids[k] == nodes[k].id
  {
    if nodes == [] then [] else [nodes[0].id] + Ids(nodes[1..])
  }

  /** The monitor's state: the queue the bucket polls, the pool it borrows
      from, the CLUSTER NODES text fetched once when the thread starts, and
      the node list of the current pass. */
  class RedisStatInfoBucket {
    const queue: CircularFifoQueue
    const redisConnectionPool: RedisConnectionPool
    var clusterNodes: Option<string>
    var redisNodeInfoList: seq<RedisClusterNodeInfo>

    /** The history holds at most 20 entries. */
    predicate Valid()
      reads this, queue, redisConnectionPool
    {
      queue.Valid() && queue.maxElements == 20 && redisConnectionPool.Valid()
    }

    constructor (redisConnectionPool: RedisConnectionPool)
      requires redisConnectionPool.Valid()
      ensures Valid() && this.redisConnectionPool == redisConnectionPool
      ensures queue.Contents() == [] && fresh(queue) && fresh(queue.elements)
      ensures clusterNodes == None && redisNodeInfoList == []
    {
      queue := new CircularFifoQueue(20);
      this.redisConnectionPool := redisConnectionPool;
      clusterNodes := None;
      redisNodeInfoList := [];
    }

    /** Drops the oldest history entry, if any, and gives null. */
    method GetStats() returns (stats: Option<ObjectNode>)
      requires Valid()
      modifies queue
      ensures Valid() && stats == None
      ensures |queue.Contents()| <= 20
      ensures queue.Contents() == if old(queue.Contents()) == [] then [] else old(queue.Contents())[1..]
    {
      var _ := queue.Poll();
      stats := None;
    }

    /** The CLUSTER NODES text over a borrowed cluster connection, `reply`
        being what the command gives. Every failure is caught and gives None;
        a failing command leaves its connection lent out. A connection is
        given back only after a reply. */
    method GetClusterNodesCommandResult(reply: Result<string>) returns (nodes: Option<string>)
      requires Valid()
      modifies redisConnectionPool
      ensures Valid() && redisConnectionPool.nonClusterLent == old(redisConnectionPool.nonClusterLent)
      ensures old(|redisConnectionPool.clusterLent|) == redisConnectionPool.clusterCapacity ==>
                nodes == None && redisConnectionPool.clusterLent == old(redisConnectionPool.clusterLent)
      ensures old(|redisConnectionPool.clusterLent|) < redisConnectionPool.clusterCapacity ==>
                (reply.Err? ==>
                   nodes == None &&
                   old(redisConnectionPool.clusterLent) < redisConnectionPool.clusterLent &&
                   |redisConnectionPool.clusterLent| == old(|redisConnectionPool.clusterLent|) + 1) &&
                (reply.Ok? ==>
                   nodes == Some(reply.value) &&
                   redisConnectionPool.clusterLent == old(redisConnectionPool.clusterLent))
    {
      nodes := None;
      var connection := redisConnectionPool.GetClusterConnection();
      if connection.Err? {
        return;
      }
      connection.value.Send(ClusterNodes);
      if reply.Err? {
        return;
      }
      nodes := Some(reply.value);
      var _ := redisConnectionPool.ReturnObject(connection.value);
    }

    /** The start of the thread's run: the node text is fetched once. */
    method Start(reply: Result<string>)
      requires Valid()
      modifies this, redisConnectionPool
      ensures Valid() && redisNodeInfoList == old(redisNodeInfoList)
      ensures redisConnectionPool.nonClusterLent == old(redisConnectionPool.nonClusterLent)
      ensures clusterNodes ==
                if old(|redisConnectionPool.clusterLent|) < redisConnectionPool.clusterCapacity && reply.Ok?
                then Some(reply.value) else None
      ensures old(|redisConnectionPool.clusterLent|) == redisConnectionPool.clusterCapacity || reply.Ok? ==>
                redisConnectionPool.clusterLent == old(redisConnectionPool.clusterLent)
      ensures old(|redisConnectionPool.clusterLent|) < redisConnectionPool.clusterCapacity && reply.Err? ==>
                old(redisConnectionPool.clusterLent) < redisConnectionPool.clusterLent &&
                |redisConnectionPool.clusterLent| == old(|redisConnectionPool.clusterLent|) + 1
    {
      clusterNodes := GetClusterNodesCommandResult(reply);
    }

    /** One node info per line of the text, in line order, by the converter
        `convert`; a null text throws NullPointerException. */
    static method ConvertToNodeInfoList(clusterNodes: Option<string>, convert: string -> RedisClusterNodeInfo)
      returns (r: Result<seq<RedisClusterNodeInfo>>)
      ensures clusterNodes.None? ==> r == Err(NullPointerException)
      ensures clusterNodes.Some? ==>
                var lines := ReadLines(clusterNodes.value);
                r.Ok? && |r.value| == |lines| &&
                forall k :: 0 <= k < |lines| ==> r.value[k] == convert(lines[k])
    {
      if clusterNodes.None? {
        return Err(NullPointerException);
      }
      var nodeInfoStrings := ReadLines(clusterNodes.value);
      var redisNodeInfo: seq<RedisClusterNodeInfo> := [];
      var i := 0;
      while i < |nodeInfoStrings|
        invariant i <= |nodeInfoStrings| && |redisNodeInfo| == i
        invariant forall k :: 0 <= k < i ==> redisNodeInfo[k] == convert(nodeInfoStrings[k])
      {
        redisNodeInfo := redisNodeInfo + [convert(nodeInfoStrings[i])];
        i := i + 1;
      }
      r := Ok(redisNodeInfo);
    }

    /** The try block for one node: borrow, resolve the node, ask its INFO,
        give the connection back; any exception is caught and reported. */
    method PollNode(id: string, reply: NodeReply) returns (o: Result<string>)
      requires Valid()
      modifies redisConnectionPool
      ensures Valid() && redisConnectionPool.nonClusterLent == old(redisConnectionPool.nonClusterLent)
      ensures old(redisConnectionPool.clusterLent) <= redisConnectionPool.clusterLent
      ensures (o, |redisConnectionPool.clusterLent|) ==
              NodeStep(old(|redisConnectionPool.clusterLent|), redisConnectionPool.clusterCapacity, reply)
    {
      var connection := redisConnectionPool.GetClusterConnection();
      if connection.Err? {
        return Err(connection.error);
      }
      match reply {
        case ResolveFailed(e) =>
          o := Err(e);
        case QueryFailed(e) =>
          connection.value.Send(Info(id));
          o := Err(e);
        case Replied(info) =>
          connection.value.Send(Info(id));
          // The connection was just borrowed, so giving it back succeeds.
          var _ := redisConnectionPool.ReturnObject(connection.value);
          o := Ok(info);
      }
    }

    /** One iteration of the thread's loop: convert the text fetched at start
        and poll every node in list order. A null text ends the thread with
        NullPointerException before any node is polled. */
    method Pass(convert: string -> RedisClusterNodeInfo, reply: string -> NodeReply)
      returns (r: Result<seq<Result<string>>>)
      requires Valid()
      modifies this, redisConnectionPool
      ensures Valid() && clusterNodes == old(clusterNodes)
      ensures redisConnectionPool.nonClusterLent == old(redisConnectionPool.nonClusterLent)
      ensures old(redisConnectionPool.clusterLent) <= redisConnectionPool.clusterLent
      ensures old(clusterNodes).None? ==>
                r == Err(NullPointerException) && redisNodeInfoList == old(redisNodeInfoList) &&
                unchanged(redisConnectionPool)
      ensures old(clusterNodes).Some? ==>
                var lines := ReadLines(old(clusterNodes).value);
                |redisNodeInfoList| == |lines| &&
                (forall k :: 0 <= k < |lines| ==> redisNodeInfoList[k] == convert(lines[k])) &&
                var p := PollNodes(Ids(redisNodeInfoList), reply, old(|redisConnectionPool.clusterLent|),
                                   redisConnectionPool.clusterCapacity);
                r == Ok(p.outcomes) && |redisConnectionPool.clusterLent| == p.lent
    {
      var list := ConvertToNodeInfoList(clusterNodes, convert);
      if list.Err? {
        return Err(list.error);
      }
      redisNodeInfoList := list.value;
      ghost var ids := Ids(redisNodeInfoList);
      ghost var lent0 := |redisConnectionPool.clusterLent|;
      var outcomes: seq<Result<string>> := [];
      var i := 0;
      while i < |redisNodeInfoList|
        invariant Valid() && i <= |redisNodeInfoList| && clusterNodes == old(clusterNodes)
        invariant redisNodeInfoList == list.value
        invariant redisConnectionPool.nonClusterLent == old(redisConnectionPool.nonClusterLent)
        invariant old(redisConnectionPool.clusterLent) <= redisConnectionPool.clusterLent
        invariant PollNodes(ids[..i], reply, lent0, redisConnectionPool.clusterCapacity) ==
                  PassLog(outcomes, |redisConnectionPool.clusterLent|)
      {
        PollStep(ids, i, reply, lent0, redisConnectionPool.clusterCapacity);
        var redisNodeInfo := redisNodeInfoList[i];
        var o := PollNode(redisNodeInfo.id, reply(redisNodeInfo.id));
        outcomes := outcomes + [o];
        i := i + 1;
      }
      assert ids[..i] == ids;
      r := Ok(outcomes);
    }
  }
}
