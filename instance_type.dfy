/** The topology of the store behind the gateway, as named in the
    `redis_mode` line of its INFO reply. */
module RedisInstance {

  datatype InstanceType = STANDALONE | SENTINEL | CLUSTER | NOT_DETECTED

  /** The assumed table behind RedisInstanceType.of: an exact match on the
      three mode names the store reports, anything else is NOT_DETECTED. */
  function InstanceTypeOf(mode: string): (t: InstanceType)
    ensures t == STANDALONE <==> mode == "standalone"
    ensures t == SENTINEL <==> mode == "sentinel"
    ensures t == CLUSTER <==> mode == "cluster"
  {
    if mode == "standalone" then STANDALONE
    else if mode == "sentinel" then SENTINEL
    else if mode == "cluster" then CLUSTER
    else NOT_DETECTED
  }
}
