/** Finding the store's servers from a comma-separated seed list: parse the
    seeds, connect to the first that answers, read the topology from the
    INFO reply and look the servers up with the strategy for that topology. */
module ServerDetector {
  import opened JavaLang
  import opened RedisInstance

  /** The identity of a node: two nodes are equal when host and port are. */
  datatype Address = Address(host: string, port: int32)

  // ---------------------------------------------------------------------------
  // Seed parsing

  /** The node one comma-separated piece names; None for a piece without `:`.
      The host is the text before the first `:`, the port the int between the
      first and the second. */
  function SeedOf(piece: string): (r: Result<Option<Address>>)
    ensures ':' !in piece <==> r == Ok(None)
    ensures r.Err? ==> r.error == ArrayIndexOutOfBoundsException || r.error == NumberFormatException
    ensures r.Ok? && r.value.Some? ==> ':' !in r.value.value.host
  {
    if ':' !in piece then Ok(None)
    else
      var hostAndPort := Split(piece, Char(':'));
      if |hostAndPort| < 2 then Err(ArrayIndexOutOfBoundsException)
      else
        SplitPiecesFree(piece, ':');
        match ParseInt(hostAndPort[1])
        case None => Err(NumberFormatException)
        case Some(port) => Ok(Some(Address(hostAndPort[0], port)))
  }

  /** HashSet.add of the node a piece names: a node equal to one already
      present is not added again. */
  function AddSeed(acc: seq<Address>, seed: Result<Option<Address>>): (r: Result<seq<Address>>)
    ensures seed.Err? <==> r.Err?
    ensures r.Ok? ==> acc <= r.value
  {
    match seed
    case Err(e) => Err(e)
    case Ok(None) => Ok(acc)
    case Ok(Some(a)) => Ok(if a in acc then acc else acc + [a])
  }

  /** The seed set after the given pieces, in insertion order; the first
      failing piece ends the parse. */
  function SeedAddresses(pieces: seq<string>): (r: Result<seq<Address>>)
    ensures r.Err? ==> r.error == ArrayIndexOutOfBoundsException || r.error == NumberFormatException
    ensures r.Ok? ==> |r.value| <= |pieces|
  {
    if pieces == [] then Ok([])
    else match SeedAddresses(pieces[..|pieces| - 1])
      case Err(e) => Err(e)
      case Ok(acc) => AddSeed(acc, SeedOf(pieces[|pieces| - 1]))
  }

  /** The seed set that the constructor builds from `seedAddresses`. */
  function SeedInfo(seedAddresses: string): (r: Result<seq<Address>>)
    ensures r.Err? ==> r.error == ArrayIndexOutOfBoundsException || r.error == NumberFormatException
    ensures r.Ok? ==> Distinct(r.value)
  {
    SeedAddressesDistinct(Split(seedAddresses, Char(',')));
    SeedAddresses(Split(seedAddresses, Char(',')))
  }

  predicate Distinct(xs: seq<Address>)
  {
    forall i, j :: 0 <= i < j < |xs| ==> xs[i] != xs[j]
  }

  lemma AddSeedDistinct(acc: seq<Address>, seed: Result<Option<Address>>)
    requires Distinct(acc) && AddSeed(acc, seed).Ok?
    ensures Distinct(AddSeed(acc, seed).value)
  {
  }

  /** No node is in the set twice. */
  lemma {:induction false} SeedAddressesDistinct(pieces: seq<string>)
    ensures SeedAddresses(pieces).Ok? ==> Distinct(SeedAddresses(pieces).value)
  {
    if pieces != [] && SeedAddresses(pieces).Ok? {
      var init := pieces[..|pieces| - 1];
      SeedAddressesDistinct(init);
      AddSeedDistinct(SeedAddresses(init).value, SeedOf(pieces[|pieces| - 1]));
    }
  }

  /** A node is in the set exactly when some piece names it. */
  lemma {:induction false} SeedAddressesExact(pieces: seq<string>, a: Address)
    requires SeedAddresses(pieces).Ok?
    ensures a in SeedAddresses(pieces).value <==>
            exists k :: 0 <= k < |pieces| && SeedOf(pieces[k]) == Ok(Some(a))
  {
    if pieces != [] {
      var init := pieces[..|pieces| - 1];
      var last := pieces[|pieces| - 1];
      SeedAddressesExact(init, a);
      assert forall k :: 0 <= k < |init| ==> init[k] == pieces[k];
      assert a in SeedAddresses(pieces).value <==>
             a in SeedAddresses(init).value || SeedOf(last) == Ok(Some(a));
      if SeedOf(last) == Ok(Some(a)) {
        assert SeedOf(pieces[|pieces| - 1]) == Ok(Some(a));
      }
    }
  }

  /** A piece that fails aborts the parse whatever pieces follow it. */
  lemma {:induction false} SeedAddressesAbort(pieces: seq<string>, j: nat)
    requires j <= |pieces| && SeedAddresses(pieces[..j]).Err?
    ensures SeedAddresses(pieces) == SeedAddresses(pieces[..j])
    decreases |pieces|
  {
    if j < |pieces| {
      var init := pieces[..|pieces| - 1];
      assert init[..j] == pieces[..j];
      SeedAddressesAbort(init, j);
    } else {
      assert pieces[..j] == pieces;
    }
  }

  lemma SeedAddressesStep(pieces: seq<string>, j: nat, acc: seq<Address>)
    requires j < |pieces| && SeedAddresses(pieces[..j]) == Ok(acc)
    ensures SeedAddresses(pieces[..j + 1]) == AddSeed(acc, SeedOf(pieces[j]))
  {
    assert pieces[..j + 1][..j] == pieces[..j];
  }

  /** `host:port` names the node (host, port). */
  lemma SeedRoundTrip(host: string, port: int32)
    requires ':' !in host
    ensures SeedOf(host + [':'] + IntToString(port)) == Ok(Some(Address(host, port)))
  {
    IntToStringChars(port, ':');
    SplitTwoParts(host, ':', IntToString(port));
    ParseIntToString(port);
  }

  /** Anything after a second `:` is ignored. */
  lemma SeedExtraColon(host: string, port: int32, rest: string)
    requires ':' !in host && ':' !in rest && rest != []
    ensures SeedOf(host + [':'] + IntToString(port) + [':'] + rest) == Ok(Some(Address(host, port)))
  {
    IntToStringChars(port, ':');
    SplitThreeParts(host, ':', IntToString(port), rest);
    ParseIntToString(port);
  }

  /** A piece that ends at its only `:` has no port: split drops the empty
      part and reading the port index throws. */
  lemma SeedMissingPort(host: string)
    requires ':' !in host
    ensures SeedOf(host + [':']) == Err(ArrayIndexOutOfBoundsException)
  {
    SplitAtChar(host, ':', []);
    assert host + [':'] + [] == host + [':'];
    SplitNoMatch([], Char(':'));
    assert SplitAll(host + [':'], Char(':')) == [host, []];
    if host == [] {
      assert DropTrailingEmpty([[], []]) == DropTrailingEmpty([[]]) == [];
    } else {
      assert DropTrailingEmpty([host, []]) == DropTrailingEmpty([host]) == [host];
    }
  }

  /** A port that is not an int throws. */
  lemma SeedBadPort(host: string, port: string)
    requires ':' !in host && ':' !in port && port != [] && ParseInt(port).None?
    ensures SeedOf(host + [':'] + port) == Err(NumberFormatException)
  {
    SplitTwoParts(host, ':', port);
  }

  // ---------------------------------------------------------------------------
  // Topology detection from the INFO reply

  predicate StartsWith(s: string, prefix: string)
  {
    |prefix| <= |s| && s[..|prefix|] == prefix
  }

  /** The key of the INFO line that names the topology. */
  const ModeKey: string := "redis_mode"

  /** What the scan of the INFO lines has done so far: the last instance type
      it assigned (None when the field is untouched), and either the servers
      of the last lookup (None when no line named a mode) or the exception
      that ended the scan. */
  datatype Scan = Scan(kind: Option<InstanceType>, nodes: Result<Option<seq<Address>>>)

  /** The instance type a `redis_mode` line names, by the text after its first `:`. */
  function ModeOf(line: string): (r: Result<InstanceType>)
    ensures r.Err? ==> r.error == ArrayIndexOutOfBoundsException
    ensures ':' !in line ==> r.Err?
  {
    var parts := Split(line, Char(':'));
    assert ':' !in line ==> |parts| == 1 by {
      if ':' !in line {
        assert NoMatch(line, Char(':'));
        SplitNoMatch(line, Char(':'));
      }
    }
    if |parts| < 2 then Err(ArrayIndexOutOfBoundsException) else Ok(InstanceTypeOf(parts[1]))
  }

  /** The loop over the INFO lines: every line starting with `redis_mode`
      assigns the field and runs a lookup; the loop does not stop at the
      first such line. */
  function ScanLines(lines: seq<string>, lookup: InstanceType -> Result<seq<Address>>, kind0: Option<InstanceType>): (r: Scan)
    ensures r.nodes == Ok(None) ==> r.kind == kind0
    ensures r.nodes.Ok? && r.nodes.value.Some? ==>
              r.kind.Some? && lookup(r.kind.value) == Ok(r.nodes.value.value)
  {
    if lines == [] then Scan(kind0, Ok(None))
    else
      var prev := ScanLines(lines[..|lines| - 1], lookup, kind0);
      var line := lines[|lines| - 1];
      if prev.nodes.Err? || !StartsWith(line, ModeKey) then prev
      else match ModeOf(line)
        case Err(e) => Scan(prev.kind, Err(e))
        case Ok(t) =>
          match lookup(t)
          case Err(e) => Scan(Some(t), Err(e))
          case Ok(ns) => Scan(Some(t), Ok(Some(ns)))
  }

  /** Reference definition: the index of the last line starting with `redis_mode`. */
  function LastModeLine(lines: seq<string>): (r: Option<nat>)
    ensures r.Some? ==> r.value < |lines| && StartsWith(lines[r.value], ModeKey)
    ensures r.Some? ==> forall k :: r.value < k < |lines| ==> !StartsWith(lines[k], ModeKey)
    ensures r.None? ==> forall k :: 0 <= k < |lines| ==> !StartsWith(lines[k], ModeKey)
  {
    if lines == [] then None
    else if StartsWith(lines[|lines| - 1], ModeKey) then Some(|lines| - 1)
    else LastModeLine(lines[..|lines| - 1])
  }

  /** When the scan finishes without an exception, the last `redis_mode` line
      decides: the field holds its type and the servers are that type's
      lookup; with no such line the field is untouched and no lookup ran. */
  lemma {:induction false} LastModeWins(lines: seq<string>, lookup: InstanceType -> Result<seq<Address>>, kind0: Option<InstanceType>)
    requires ScanLines(lines, lookup, kind0).nodes.Ok?
    ensures var s := ScanLines(lines, lookup, kind0);
            match LastModeLine(lines)
            case None => s == Scan(kind0, Ok(None))
            case Some(i) =>
              ModeOf(lines[i]).Ok? &&
              s.kind == Some(ModeOf(lines[i]).value) &&
              lookup(ModeOf(lines[i]).value).Ok? &&
              s.nodes == Ok(Some(lookup(ModeOf(lines[i]).value).value))
  {
    if lines != [] {
      var init := lines[..|lines| - 1];
      var prev := ScanLines(init, lookup, kind0);
      if !StartsWith(lines[|lines| - 1], ModeKey) {
        assert prev.nodes.Ok?;
        LastModeWins(init, lookup, kind0);
      }
    }
  }

  /** `redis_mode:<mode>` names the type the table gives `<mode>`. */
  lemma ModeLineType(mode: string)
    requires ':' !in mode && mode != []
    ensures StartsWith(ModeKey + [':'] + mode, ModeKey)
    ensures ModeOf(ModeKey + [':'] + mode) == Ok(InstanceTypeOf(mode))
  {
    var line := ModeKey + [':'] + mode;
    assert line[..|ModeKey|] == ModeKey;
    assert ':' !in ModeKey;
    SplitTwoParts(ModeKey, ':', mode);
  }

  /** What detectRedisServerNodes leaves in the type field, and what it
      returns or throws. */
  datatype Detection = Detection(kind: Option<InstanceType>, nodes: Result<seq<Address>>)

  /** detectRedisServerNodes over a seed connection on which INFO gave
      `info`, and ROLE and CLUSTER INFO ended as `role` and `clusterInfo`;
      `kind0` is the type field before the call. INFO is sent first, then
      ROLE, then the INFO lines are scanned, then the NOT_DETECTED lookup
      runs if no line named a mode, and CLUSTER INFO is sent last. */
  function Detect(info: Result<string>, role: Outcome, lookup: InstanceType -> Result<seq<Address>>,
                  clusterInfo: Outcome, kind0: Option<InstanceType>): (d: Detection)
    ensures d.nodes.Ok? ==> info.Ok? && role.Pass? && clusterInfo.Pass?
    ensures info.Err? || role.Fail? ==> d.kind == kind0 && d.nodes.Err?
    ensures d.nodes.Ok? ==>
              (d.kind.Some? && d.nodes == lookup(d.kind.value)) || d.nodes == lookup(NOT_DETECTED)
  {
    if info.Err? then Detection(kind0, Err(info.error))
    else if role.Fail? then Detection(kind0, Err(role.error))
    else
      var s := ScanLines(Split(info.value, OptCrLf), lookup, kind0);
      if s.nodes.Err? then Detection(s.kind, Err(s.nodes.error))
      else
        var nodes := if s.nodes.value.Some? then Ok(s.nodes.value.value) else lookup(NOT_DETECTED);
        if nodes.Err? then Detection(s.kind, nodes)
        else if clusterInfo.Fail? then Detection(s.kind, Err(clusterInfo.error))
        else Detection(s.kind, nodes)
  }

  /** When detection succeeds, the last `redis_mode` line of the INFO reply
      decides both the type field and the servers; with no such line the
      field keeps its value and the servers are the NOT_DETECTED lookup's. */
  lemma DetectLastMode(info: Result<string>, role: Outcome, lookup: InstanceType -> Result<seq<Address>>,
                       clusterInfo: Outcome, kind0: Option<InstanceType>)
    requires Detect(info, role, lookup, clusterInfo, kind0).nodes.Ok?
    ensures var lines := Split(info.value, OptCrLf);
            var d := Detect(info, role, lookup, clusterInfo, kind0);
            var last := LastModeLine(lines);
            (last.None? ==> d.kind == kind0 && d.nodes == lookup(NOT_DETECTED)) &&
            (last.Some? ==>
               ModeOf(lines[last.value]).Ok? &&
               d.kind == Some(ModeOf(lines[last.value]).value) &&
               d.nodes == lookup(ModeOf(lines[last.value]).value))
  {
    LastModeWins(Split(info.value, OptCrLf), lookup, kind0);
  }

  /** A seed as the detector holds it: its address and whether the last
      attempt to connect to it succeeded. */
  class RedisNode {
    const host: string
    const port: int32
    var valid: bool

    constructor (host: string, port: int32)
      ensures this.host == host && this.port == port && valid
    {
      this.host := host;
      this.port := port;
      valid := true;
    }

    function Addr(): Address
    {
      Address(host, port)
    }
  }

  function Addresses(nodes: seq<RedisNode>): (r: seq<Address>)
    ensures |r| == |nodes|
    ensures forall k :: 0 <= k < |nodes| ==> r[k] == nodes[k].Addr()
  {
    if nodes == [] then [] else [nodes[0].Addr()] + Addresses(nodes[1..])
  }

  lemma AddressesAppend(nodes: seq<RedisNode>, node: RedisNode)
    ensures Addresses(nodes + [node]) == Addresses(nodes) + [node.Addr()]
  {
  }

  /** An open connection to the seed it was made to. */
  class SeedConnection {
    const node: RedisNode
    var open: bool

    constructor (node: RedisNode)
      ensures this.node == node && open
    {
      this.node := node;
      open := true;
    }

    method Close()
      modifies this
      ensures !open
    {
      open := false;
    }
  }

  /** The index of the first seed whose connect succeeds, |connects| when none does. */
  function FirstSuccess(connects: seq<bool>): (i: nat)
    ensures i <= |connects|
    ensures i < |connects| ==> connects[i]
    ensures forall k :: 0 <= k < i ==> !connects[k]
  {
    if connects == [] || connects[0] then 0 else 1 + FirstSuccess(connects[1..])
  }

  /** The body of createRedisSeedInfo's loop for one piece, up to the add:
      a fresh valid node, or None when the piece has no `:`. */
  method ParseSeed(address: string) returns (r: Result<Option<RedisNode>>)
    ensures SeedOf(address).Err? ==> r == Err(SeedOf(address).error)
    ensures SeedOf(address) == Ok(None) ==> r == Ok(None)
    ensures SeedOf(address).Ok? && SeedOf(address).value.Some? ==>
              r.Ok? && r.value.Some? && fresh(r.value.value) && r.value.value.valid &&
              r.value.value.Addr() == SeedOf(address).value.value
  {
    if ':' !in address {
      return Ok(None);
    }
    var hostAndPort := Split(address, Char(':'));
    if |hostAndPort| < 2 {
      return Err(ArrayIndexOutOfBoundsException);
    }
    var host := hostAndPort[0];
    var port := hostAndPort[1];
    var parsed := ParseInt(port);
    if parsed.None? {
      return Err(NumberFormatException);
    }
    var node := new RedisNode(host, parsed.value);
    r := Ok(Some(node));
  }

  /** One iteration of createRedisSeedInfo's loop: the node the piece names
      is added unless an equal node is already in the set. */
  method AddSeedNode(infos: seq<RedisNode>, address: string) returns (r: Result<seq<RedisNode>>)
    ensures var added := AddSeed(Addresses(infos), SeedOf(address));
            (added.Err? ==> r == Err(added.error)) &&
            (added.Ok? ==> r.Ok? && Addresses(r.value) == added.value && infos <= r.value &&
                           forall k :: |infos| <= k < |r.value| ==> fresh(r.value[k]) && r.value[k].valid)
  {
    var seed := ParseSeed(address);
    if seed.Err? {
      return Err(seed.error);
    }
    r := Ok(infos);
    if seed.value.Some? {
      var node := seed.value.value;
      if node.Addr() !in Addresses(infos) {
        AddressesAppend(infos, node);
        r := Ok(infos + [node]);
      }
    }
  }

  /** Parses the seed list into fresh nodes, each valid, one per distinct
      address, in the order of the pieces that name them. */
  method CreateRedisSeedInfo(seedAddresses: string) returns (r: Result<seq<RedisNode>>)
    ensures SeedInfo(seedAddresses).Err? ==> r == Err(SeedInfo(seedAddresses).error)
    ensures SeedInfo(seedAddresses).Ok? ==>
              r.Ok? && Addresses(r.value) == SeedInfo(seedAddresses).value &&
              forall k :: 0 <= k < |r.value| ==> fresh(r.value[k]) && r.value[k].valid
  {
    var addresses := Split(seedAddresses, Char(','));
    r := AddSeeds(addresses);
  }

  /** The loop of createRedisSeedInfo over the comma-separated pieces. */
  method AddSeeds(addresses: seq<string>) returns (r: Result<seq<RedisNode>>)
    ensures SeedAddresses(addresses).Err? ==> r == Err(SeedAddresses(addresses).error)
    ensures SeedAddresses(addresses).Ok? ==>
              r.Ok? && Addresses(r.value) == SeedAddresses(addresses).value &&
              forall k :: 0 <= k < |r.value| ==> fresh(r.value[k]) && r.value[k].valid
  {
    var seedRedisInfos: seq<RedisNode> := [];
    var i := 0;
    while i < |addresses|
      invariant i <= |addresses|
      invariant SeedAddresses(addresses[..i]) == Ok(Addresses(seedRedisInfos))
      invariant forall k :: 0 <= k < |seedRedisInfos| ==> fresh(seedRedisInfos[k]) && seedRedisInfos[k].valid
    {
      SeedAddressesStep(addresses, i, Addresses(seedRedisInfos));
      var next := AddSeedNode(seedRedisInfos, addresses[i]);
      if next.Err? {
        SeedAddressesAbort(addresses, i + 1);
        return Err(next.error);
      }
      seedRedisInfos := next.value;
      i := i + 1;
    }
    assert addresses[..i] == addresses;
    r := Ok(seedRedisInfos);
  }

  class RedisServerDetector {
    var redisInstanceType: Option<InstanceType>
    const seedAddresses: string
    const seedInfo: seq<RedisNode>
    var actualServers: seq<Address>

    /** The seed nodes are distinct. */
    predicate Valid()
    {
      Distinct(Addresses(seedInfo))
    }

    constructor Init(seedAddresses: string, seedInfo: seq<RedisNode>)
      requires Distinct(Addresses(seedInfo))
      ensures this.seedAddresses == seedAddresses && this.seedInfo == seedInfo
      ensures redisInstanceType == None && actualServers == [] && Valid()
    {
      this.seedAddresses := seedAddresses;
      this.seedInfo := seedInfo;
      redisInstanceType := None;
      actualServers := [];
    }

    /** The constructor: parses the seed list, and throws what the parse throws. */
    static method Create(seedAddresses: string) returns (r: Result<RedisServerDetector>)
      ensures SeedInfo(seedAddresses).Err? ==> r == Err(SeedInfo(seedAddresses).error)
      ensures SeedInfo(seedAddresses).Ok? ==>
                r.Ok? && fresh(r.value) && r.value.Valid() &&
                r.value.redisInstanceType == None && r.value.actualServers == [] &&
                Addresses(r.value.seedInfo) == SeedInfo(seedAddresses).value &&
                forall k :: 0 <= k < |r.value.seedInfo| ==> r.value.seedInfo[k].valid
    {
      var seeds := CreateRedisSeedInfo(seedAddresses);
      if seeds.Err? {
        return Err(seeds.error);
      }
      SeedAddressesDistinct(Split(seedAddresses, Char(',')));
      var d := new RedisServerDetector.Init(seedAddresses, seeds.value);
      r := Ok(d);
    }

    /** Tries the seeds in order; `connects[k]` says whether connecting to
        the k-th succeeds. Every seed tried and failed is marked invalid, the
        first that connects gives the connection, and when none does the
        method throws IllegalArgumentException. */
    method GetSeedConnection(connects: seq<bool>) returns (r: Result<SeedConnection>)
      requires Valid() && |connects| == |seedInfo|
      modifies seedInfo
      ensures var i := FirstSuccess(connects);
              (i < |seedInfo| ==> r.Ok? && fresh(r.value) && r.value.open && r.value.node == seedInfo[i]) &&
              (i == |seedInfo| ==> r == Err(IllegalArgumentException)) &&
              forall k :: 0 <= k < |seedInfo| ==>
                seedInfo[k].valid == (if k < i then false else old(seedInfo[k].valid))
    {
      var k := 0;
      while k < |seedInfo|
        invariant k <= |seedInfo| && forall j :: 0 <= j < k ==> !connects[j]
        invariant forall j :: 0 <= j < |seedInfo| ==>
                    seedInfo[j].valid == (if j < k then false else old(seedInfo[j].valid))
      {
        var seed := seedInfo[k];
        if connects[k] {
          FirstSuccessAt(connects, k);
          var connection := new SeedConnection(seed);
          return Ok(connection);
        }
        assert forall j :: 0 <= j < |seedInfo| && j != k ==> seedInfo[j] != seed by {
          forall j | 0 <= j < |seedInfo| && j != k ensures seedInfo[j] != seed {
            assert Addresses(seedInfo)[j] != Addresses(seedInfo)[k];
          }
        }
        seed.valid := false;
        k := k + 1;
      }
      FirstSuccessAt(connects, k);
      r := Err(IllegalArgumentException);
    }

    /** Reads the topology from the INFO reply and looks the servers up
        with the strategy for it; `info`, `role` and `clusterInfo` are the
        outcomes of the three commands the method sends. */
    method DetectRedisServerNodes(info: Result<string>, role: Outcome, lookup: InstanceType -> Result<seq<Address>>,
                                  clusterInfo: Outcome)
      returns (r: Result<seq<Address>>)
      modifies this
      ensures actualServers == old(actualServers)
      ensures var d := Detect(info, role, lookup, clusterInfo, old(redisInstanceType));
              redisInstanceType == d.kind && r == d.nodes
    {
      if info.Err? {
        return Err(info.error);
      }
      var redisInfo := info.value;
      if role.Fail? {
        return Err(role.error);
      }
      var lines := Split(redisInfo, OptCrLf);
      var found := ScanInfoLines(lines, lookup);
      if found.Err? {
        return Err(found.error);
      }
      var nodes: Result<seq<Address>>;
      if found.value.None? {
        nodes := lookup(NOT_DETECTED);
      } else {
        nodes := Ok(found.value.value);
      }
      if nodes.Err? {
        return nodes;
      }
      if clusterInfo.Fail? {
        return Err(clusterInfo.error);
      }
      r := nodes;
    }

    /** The loop of detectRedisServerNodes over the INFO lines. */
    method ScanInfoLines(lines: seq<string>, lookup: InstanceType -> Result<seq<Address>>)
      returns (r: Result<Option<seq<Address>>>)
      modifies this
      ensures actualServers == old(actualServers)
      ensures var s := ScanLines(lines, lookup, old(redisInstanceType));
              redisInstanceType == s.kind && r == s.nodes
    {
      ghost var kind0 := redisInstanceType;
      var nodes: Option<seq<Address>> := None;
      var i := 0;
      while i < |lines|
        invariant i <= |lines| && actualServers == old(actualServers)
        invariant ScanLines(lines[..i], lookup, kind0) == Scan(redisInstanceType, Ok(nodes))
      {
        var line := lines[i];
        ScanStep(lines, i, lookup, kind0);
        if StartsWith(line, ModeKey) {
          var parts := Split(line, Char(':'));
          if |parts| < 2 {
            ScanAbort(lines, i + 1, lookup, kind0);
            return Err(ArrayIndexOutOfBoundsException);
          }
          var t := InstanceTypeOf(parts[1]);
          redisInstanceType := Some(t);
          var looked := lookup(t);
          if looked.Err? {
            ScanAbort(lines, i + 1, lookup, kind0);
            return Err(looked.error);
          }
          nodes := Some(looked.value);
        }
        i := i + 1;
      }
      assert lines[..i] == lines;
      r := Ok(nodes);
    }

    /** Connects to a seed, detects the servers through that connection and
        closes it, whether or not the detection throws; on success the
        servers found become `actualServers`. */
    method LookupNodes(connects: seq<bool>, info: Result<string>, role: Outcome,
                       lookup: InstanceType -> Result<seq<Address>>, clusterInfo: Outcome)
      returns (r: Result<seq<Address>>, ghost connection: Option<SeedConnection>)
      requires Valid() && |connects| == |seedInfo|
      modifies this, seedInfo
      ensures FirstSuccess(connects) == |seedInfo| <==> connection.None?
      ensures forall k :: 0 <= k < |seedInfo| ==>
                seedInfo[k].valid == (if k < FirstSuccess(connects) then false else old(seedInfo[k].valid))
      ensures connection.None? ==>
                r == Err(IllegalArgumentException) && redisInstanceType == old(redisInstanceType)
      ensures connection.Some? ==>
                fresh(connection.value) && !connection.value.open &&
                connection.value.node == seedInfo[FirstSuccess(connects)] &&
                var d := Detect(info, role, lookup, clusterInfo, old(redisInstanceType));
                redisInstanceType == d.kind && r == d.nodes
      ensures r.Ok? ==> actualServers == r.value
      ensures r.Err? ==> actualServers == old(actualServers)
    {
      var seedConnection := GetSeedConnection(connects);
      if seedConnection.Err? {
        return Err(seedConnection.error), None;
      }
      connection := Some(seedConnection.value);
      var nodes := DetectRedisServerNodes(info, role, lookup, clusterInfo);
      seedConnection.value.Close();
      if nodes.Err? {
        return Err(nodes.error), connection;
      }
      actualServers := nodes.value;
      r := Ok(actualServers);
    }
  }

  lemma FirstSuccessAt(connects: seq<bool>, k: nat)
    requires k <= |connects| && (forall j :: 0 <= j < k ==> !connects[j]) && (k < |connects| ==> connects[k])
    ensures FirstSuccess(connects) == k
  {
    if k > 0 {
      FirstSuccessAt(connects[1..], k - 1);
    }
  }

  lemma ScanStep(lines: seq<string>, i: nat, lookup: InstanceType -> Result<seq<Address>>, kind0: Option<InstanceType>)
    requires i < |lines|
    ensures ScanLines(lines[..i + 1], lookup, kind0) ==
            var prev := ScanLines(lines[..i], lookup, kind0);
            if prev.nodes.Err? || !StartsWith(lines[i], ModeKey) then prev
            else if ModeOf(lines[i]).Err? then Scan(prev.kind, Err(ModeOf(lines[i]).error))
            else
              var t := ModeOf(lines[i]).value;
              if lookup(t).Err? then Scan(Some(t), Err(lookup(t).error)) else Scan(Some(t), Ok(Some(lookup(t).value)))
  {
    assert lines[..i + 1][..i] == lines[..i];
  }

  /** Once the scan has thrown, later lines change nothing. */
  lemma {:induction false} ScanAbort(lines: seq<string>, j: nat, lookup: InstanceType -> Result<seq<Address>>, kind0: Option<InstanceType>)
    requires j <= |lines| && ScanLines(lines[..j], lookup, kind0).nodes.Err?
    ensures ScanLines(lines, lookup, kind0) == ScanLines(lines[..j], lookup, kind0)
    decreases |lines|
  {
    if j < |lines| {
      var init := lines[..|lines| - 1];
      assert init[..j] == lines[..j];
      ScanAbort(init, j, lookup, kind0);
    } else {
      assert lines[..j] == lines;
    }
  }
}
